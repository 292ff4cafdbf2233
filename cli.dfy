/** Command-line handling: `scriptcut <video-file> <prompt...>`. */
module Cli {
  import opened Wrappers
  import opened Text

  const Usage := "Usage: scriptcut <video-file> <prompt>"

  /** The input video and the prompt sent with the audio. */
  datatype Request = Request(inputFile: string, prompt: string)

  /** The usage failure (log.Fatal) carries the usage text. */
  datatype UsageError = UsageError(message: string)

  /** os.Args: element 0 is the program, element 1 the video, and every
      further element is a word of the prompt, joined by single spaces. */
  function ParseArgs(args: seq<string>): (r: Result<Request, UsageError>)
    ensures r.Err? <==> |args| < 3
    ensures r.Err? ==> r.error.message == Usage
    ensures r.Ok? ==> r.value.inputFile == args[1]
  {
    if |args| < 3 then Err(UsageError(Usage))
    else Ok(Request(args[1], Join(args[2..], ' ')))
  }

  /** Prompt words without spaces are recovered exactly by splitting the
      prompt on spaces: the join loses nothing, and the prompt has one space
      fewer than it has words. */
  lemma PromptWords(args: seq<string>)
    requires |args| >= 3
    requires forall i :: 2 <= i < |args| ==> ' ' !in args[i]
    ensures Split(ParseArgs(args).value.prompt, ' ') == args[2..]
    ensures Count(ParseArgs(args).value.prompt, ' ') == |args| - 3
  {
    SplitJoin(args[2..], ' ');
  }

  /** Whatever the words, the prompt splits back into them: a word holding
      spaces comes back as several words, never fewer. */
  lemma PromptWordCount(args: seq<string>)
    requires |args| >= 3
    ensures |Split(ParseArgs(args).value.prompt, ' ')| >= |args| - 2
  {
    JoinCount(args[2..], ' ');
  }
}
