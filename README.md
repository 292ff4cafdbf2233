# scriptcut — a Dafny model of its text-processing core

scriptcut is a command-line tool, `scriptcut <video-file> <prompt...>`. It
extracts the audio of a video with ffmpeg and uploads it to Gemini. It waits
until the uploaded file is active, then asks the model for the time ranges
that match the prompt. The reply is a JSON object
`{"stamps":"<start>-<end>,<start>-<end>,..."}`. The tool cuts each range
out of the video with ffmpeg into `.cuts/cut_<i>.mp4` and lists each segment
in the concat manifest `cut_files.txt`. It then joins the segments into
`output.mp4`.

This project models the deterministic part of that run. All of it lives in
`main` in `main.go`:

- `Text`: Go's `strings.Split` and `strings.Join` with a one-character
  separator, and the `%d` rendering of a non-negative index. It proves the
  split/join round trips, the piece count, and that the decimal rendering
  is injective.
- `Stamps`: the parser that turns `stamps` into the ordered list of cuts.
  It yields one cut per `,`-separated token, in order. A token without a `-`
  makes the program panic on an out-of-range index. The model turns that
  panic into `Err(MalformedRange(i, token))` for the first such token. A
  token with more than one `-` is accepted as the code does it: the end is
  the text between the first and second `-`, and the rest is dropped.
- `Ffmpeg`: the three argument vectors (audio extraction, one cut, concat)
  and the segment path. The partner of each vector is a reader that takes
  ffmpeg's view of it: option/value pairs, then the output file.
- `Manifest`: the open list file as a class, and the cut loop as a method
  that issues one invocation per cut and appends one manifest line after
  each successful cut. It proves that the manifest for n cuts reads back as
  exactly n lines, that line i names segment i, and that no two lines
  name the same file.
- `Poll`: the readiness loop over the remote file's successive states. Its
  guard `state == Unspecified || state != Active` is exactly
  `state != Active`, and the loop ends only in `Active`.
- `Cli`: the argument check and the prompt, which is `args[2:]` joined by
  single spaces.
- `Pipeline`: the whole run, with the outside world's answers as
  parameters. It is split into the part up to the poll and the part after
  it, as `main` runs them. Which way the run ends is determined by those
  answers, each outcome exactly when its conditions hold. For each outcome
  it states which ffmpeg invocations were issued, in which order, and what
  the manifest holds.

Two design notes are stated as the code does them, not as a later
rewrite might. First, a range token with two or more `-` is not an error
(`Stamps.ExtraBoundDropped`). Second, the poll has no deadline: if the
given answers run out before the file is active, `Poll.PollUntilActive`
reports `NeverActive`, and the program itself would go on polling.

## Model

| member | source | states |
|---|---|---|
| `Text.Count` | main.go:130-131 | the number of separators in a string is at most its length, and is zero exactly when the separator does not occur |
| `Text.Split` | main.go:130-131 | `strings.Split` yields exactly one piece more than there are separators (so `""` yields one empty piece), and no piece contains the separator |
| `Text.Join` | main.go:33 | `strings.Join(parts, sep)`: the pieces in order with one separator between neighbours, so the first piece is a prefix of the result; `Text.SplitJoin` and `Text.JoinSplit` pin it down as the inverse of `Text.Split` |
| `Text.JoinSplit` | main.go:130-131 | joining the pieces of a split with the separator gives back the original string |
| `Text.SplitJoin` | main.go:33 | splitting a join of one or more separator-free pieces gives back exactly those pieces |
| `Text.JoinCount` | main.go:33 | joining k pieces inserts at least k - 1 separators |
| `Text.Decimal` | main.go:154 | the `%d` rendering of an index is a non-empty string of digits with no leading zero |
| `Text.DecimalRoundTrip` | main.go:154 | reading the decimal rendering of n back as a number gives n |
| `Text.DecimalInjective` | main.go:154 | distinct indices have distinct decimal renderings |
| `Stamps.CutOf` | main.go:136-137 | the cut read from one range token is pieces 0 and 1 of its `-` split, so neither bound contains a `-`; `Stamps.CutFields` says which text they are |
| `Stamps.Parse` | main.go:130-139 | the parse of `stamps` succeeds exactly when every `,`-separated token contains a `-`, and then gives one cut per token, k commas giving k + 1 cuts; `Stamps.ParseRender` is its round trip |
| `Stamps.ParseTokens` | main.go:126-139 | success exactly when every token has a second `-`-separated piece; then one cut per token, the i-th read from the i-th token; otherwise the error names the first token without a `-` |
| `Stamps.RangeHasBoundSep` | main.go:131-137 | a token has a second `-`-separated piece exactly when it contains a `-` |
| `Stamps.FailsAtFirstMalformed` | main.go:130-139 | once the tokens before it parse, a token without a `-` makes the whole list fail at that token, whatever follows |
| `Stamps.ParseStamps` | main.go:126-139 | the append loop over the `,`-split tokens produces exactly the parse of `stamps`, and on success k commas give k + 1 cuts |
| `Stamps.CutPerToken` | main.go:130-139 | a successful parse has one cut per comma-separated token, in token order |
| `Stamps.EmptyStampsIsMalformed` | main.go:130-137 | an empty `stamps` is one empty token, which fails at index 0 |
| `Stamps.SingleDashRoundTrip` | main.go:131-137 | for a token with exactly one `-`, start + `-` + end is the token |
| `Stamps.CutFields` | main.go:131-137 | start is the text before the first `-`; end is the text after it, up to the second `-` when there is one; neither contains a `-` |
| `Stamps.ExtraBoundDropped` | main.go:131-137 | a token `a-b-c` parses to the single cut (a, b); c is silently dropped |
| `Stamps.ParseRender` | main.go:130-139 | a non-empty list of ranges whose timestamps hold no `,` or `-` parses back to exactly that list, in order, duplicates included |
| `Ffmpeg.SegmentPathInjective` | main.go:154 | distinct cut indices give distinct segment paths, so no cut overwrites another |
| `Ffmpeg.SegmentPath` | main.go:154 | `.cuts/cut_<i>.mp4` with i in decimal: every segment path lies under `.cuts/` and contains no line break and no quote; `Ffmpeg.SegmentPathInjective` shows distinct indices give distinct paths |
| `Ffmpeg.AudioArgv` | main.go:36 | the audio extraction vector: the program name, then option/value pairs, then the output file (so its length is even); `Ffmpeg.AudioInvocation` reads its options back |
| `Ffmpeg.CutArgv` | main.go:155-162 | the vector for cut i has the same program/pairs/output shape; `Ffmpeg.CutInvocation` reads its options back |
| `Ffmpeg.ConcatArgv` | main.go:177-184 | the concat vector has the same program/pairs/output shape; `Ffmpeg.ConcatInvocation` reads its options back |
| `Ffmpeg.AudioInvocation` | main.go:36 | the audio extraction reads the input, maps only audio at quality 0, and writes `audio.mp3` |
| `Ffmpeg.CutInvocation` | main.go:155-162 | the cut for index i seeks from the cut's start to its end in the input, copies streams, and writes segment path i |
| `Ffmpeg.ConcatInvocation` | main.go:177-184 | the concatenation uses the concat demuxer on `cut_files.txt` with `-safe 0`, copies streams, and writes `output.mp4` |
| `Manifest.ListFile.constructor` | main.go:142 | a newly created list file has the given name and is empty |
| `Manifest.ListFile.WriteString` | main.go:168 | a write appends its text to the file and changes nothing else |
| `Manifest.Entry` | main.go:168 | `file '<path>'`: the quoted path is exactly the text between the opening `file '` and the closing quote, and a path without a line break gives an entry without one |
| `Manifest.EntryInjective` | main.go:168 | distinct paths give distinct entries |
| `Manifest.ManifestLine` | main.go:168 | the text one `Fprintf` writes: the entry followed by a line break; `Manifest.ManifestLines` shows how these lines read back |
| `Manifest.ManifestText` | main.go:151-171 | the file's content after n successful cuts, lines 0 to n - 1 in order; `Manifest.ManifestIsJoin` and `Manifest.ManifestLines` give its meaning |
| `Manifest.ManifestIsJoin` | main.go:151-171 | for n >= 1 the manifest is the n entries joined by line breaks, plus a final line break |
| `Manifest.Entries` | main.go:151-168 | the manifest for n cuts has exactly n entries |
| `Manifest.ManifestLines` | main.go:151-171 | the manifest for n cuts, read line by line, is exactly n lines `file '<segment i>'` in cut order, with n line breaks and nothing after the last one |
| `Manifest.EntriesDistinct` | main.go:154-168 | no two manifest lines name the same segment file |
| `Manifest.LineNamesCutOutput` | main.go:154-168 | read line by line, the manifest for n cuts has n + 1 pieces, and for every i < n line i is the entry quoting the output file of the invocation for cut i |
| `Manifest.CutAll` | main.go:151-171 | the loop issues the cut invocations in order and stops at the first one that fails; the manifest gains one line per successful cut, in order |
| `Poll.KeepPolling` | main.go:71 | the loop guard holds exactly when the file is not active |
| `Poll.NeverActiveBefore` | main.go:71-80 | if no state up to a transport error (or up to the end of the answers) is active, no prefix of the answers leaves the file active |
| `Poll.PollUntilActive` | main.go:71-80 | the poll is ready exactly when some prefix of the answers, all of them states, leaves the file active; a ready poll ends at the first active state, and the state held at the end is active exactly when the poll is ready; a transport error is reported at the fetch that raised it, and every state seen before it was not active |
| `Cli.ParseArgs` | main.go:28-33 | fewer than three arguments is the usage failure; otherwise the input file is `args[1]` |
| `Cli.PromptWords` | main.go:33 | when no prompt word holds a space, splitting the prompt on spaces gives back `args[2:]`, and the prompt has one space fewer than it has words |
| `Cli.PromptWordCount` | main.go:33 | the prompt always splits into at least as many words as `args[2:]` has |
| `Pipeline.CutArgvs` | main.go:151-162 | one cut invocation per cut |
| `Pipeline.CutAndConcat` | main.go:141-188 | the run completes exactly when every cut and the concatenation succeed; then it issued one cut per range in order followed by the concatenation, and the manifest has one line per cut; a failed cut k ends the run with k manifest lines and no concatenation |
| `Pipeline.PrepareAudio` | main.go:22-80 | a short argument list is the usage failure with no ffmpeg call; otherwise the audio extraction is issued, its failure stops the run, and then the run goes on exactly when the poll sees the file become active; a poll failure is a transport error after only inactive states |
| `Pipeline.ParseCutConcat` | main.go:126-188 | a malformed `stamps` stops the run with no cut and an empty manifest; otherwise it fails at the first failing cut or at the concatenation, or completes, and each case fixes the issued invocations and the manifest |
| `Pipeline.Run` | main.go:22-188 | each outcome holds exactly when its conditions do. Usage failure: fewer than three arguments. Audio failure: extraction fails. Poll failure or still processing: the file never becomes active. Malformed: the reply's `stamps` does not parse. Cut failure: some parsed cut fails. Concat failure: only the concatenation fails. Completed: every step succeeds. Each case fixes the issued invocations (audio extraction, cuts in order, concatenation) and the manifest |

## Left out

- Running ffmpeg (main.go:36-41, 163-165, 185-187): only the argument vectors are modelled. Each exit status is a parameter of `Pipeline.Run`.
- The Gemini client (main.go:46-68, 96-117): client creation, upload, `Files.Get`, `Files.Delete` and `GenerateContent` are network calls into a library that is not part of this model. The poll sees them only as a sequence of fetch answers, and the run starts from the already-extracted `stamps` string.
- JSON decoding of the reply (main.go:119-125): this is library code. The parser starts from the `stamps` field.
- The system prompt text (main.go:82-94): it is a constant with no behaviour. Its format is reflected in `Stamps.ParseRender`.
- `time.Sleep` and the missing poll timeout (main.go:74): timing and liveness are outside a sequential model. `Poll.PollUntilActive` is fed a finite list of answers, and running out of them stands for "still polling".
- `godotenv.Load`, environment variables, creating and removing `audio.mp3`, `cut_files.txt` and `.cuts/`, the deferred cleanup, and `listFile.Close` (main.go:23-25, 44, 142-150, 172-174): these are filesystem and OS effects. The failure of `os.Create` and of each `Fprintf` is not modelled.
- Console output (`fmt.Println`, `fmt.Printf`, log messages other than the usage text): this is I/O.
