/** The three ffmpeg invocations of the program, as the argument vectors it
    passes to exec.Command (element 0 is the program name). Running them is
    outside the model. */
module Ffmpeg {
  import opened Wrappers
  import opened Text
  import opened Stamps

  type Argv = seq<string>

  const Program := "ffmpeg"
  /** Audio track extracted from the input and uploaded for analysis. */
  const AudioFile := "audio.mp3"
  /** Concat manifest listing the segment files. */
  const ListFileName := "cut_files.txt"
  /** Scratch directory holding the segment files. */
  const CutsDir := ".cuts"
  /** The final video. */
  const OutputFile := "output.mp4"

  /** fmt.Sprintf(".cuts/cut_%d.mp4", i): the segment file of the i-th cut.
      It lies in the scratch directory and its name contains no line break
      and no quote, so it can be written as a manifest line. */
  function SegmentPath(i: nat): (p: string)
    ensures CutsDir + "/" <= p
    ensures '\n' !in p && '\'' !in p
  {
    var d := Decimal(i);
    var p := ".cuts/cut_" + d + ".mp4";
    assert forall k :: 10 <= k < 10 + |d| ==> p[k] == d[k - 10];
    p
  }

  /** Distinct cut indices name distinct segment files, so no cut
      overwrites another. */
  lemma SegmentPathInjective(i: nat, j: nat)
    requires i != j
    ensures SegmentPath(i) != SegmentPath(j)
  {
    var p, q := SegmentPath(i), SegmentPath(j);
    if p == q {
      var di, dj := Decimal(i), Decimal(j);
      assert p == ".cuts/cut_" + di + ".mp4" && q == ".cuts/cut_" + dj + ".mp4";
      assert |di| == |dj|;
      assert di == p[10..10 + |di|];
      assert dj == q[10..10 + |dj|];
      DecimalInjective(i, j);
      assert false;
    }
  }

  /** Extract the audio track at the best quality to audio.mp3. */
  function AudioArgv(input: string): (argv: Argv)
    ensures |argv| >= 2 && argv[0] == Program && |argv| % 2 == 0
  {
    [Program, "-i", input, "-q:a", "0", "-map", "a", AudioFile]
  }

  /** Stream-copy the range of cut `c` of the input into segment file i. */
  function CutArgv(c: Cut, input: string, i: nat): (argv: Argv)
    ensures |argv| >= 2 && argv[0] == Program && |argv| % 2 == 0
  {
    [Program, "-ss", c.start, "-to", c.end, "-i", input, "-c", "copy", SegmentPath(i)]
  }

  /** Stream-copy the files the manifest lists, in order, into output.mp4. */
  function ConcatArgv(): (argv: Argv)
    ensures |argv| >= 2 && argv[0] == Program && |argv| % 2 == 0
  {
    [Program, "-f", "concat", "-safe", "0", "-i", ListFileName, "-c", "copy", OutputFile]
  }

  /** How ffmpeg reads these vectors: after the program name come
      option/value pairs, and the last element is the output file (so each
      vector has an even length). */
  function OptionValue(options: seq<string>, flag: string): Option<string>
  {
    if |options| < 2 then None
    else if options[0] == flag then Some(options[1])
    else OptionValue(options[2..], flag)
  }

  function FlagValue(argv: Argv, flag: string): Option<string>
  {
    if |argv| < 2 then None else OptionValue(argv[1..|argv| - 1], flag)
  }

  function OutputOf(argv: Argv): Option<string>
  {
    if |argv| < 2 then None else Some(argv[|argv| - 1])
  }

  /** The audio extraction reads the input, keeps only its audio stream at
      quality 0, and writes the file that is then uploaded. */
  lemma AudioInvocation(input: string)
    ensures AudioArgv(input)[0] == Program
    ensures FlagValue(AudioArgv(input), "-i") == Some(input)
    ensures FlagValue(AudioArgv(input), "-map") == Some("a")
    ensures FlagValue(AudioArgv(input), "-q:a") == Some("0")
    ensures OutputOf(AudioArgv(input)) == Some(AudioFile)
  {
    var opts := AudioArgv(input)[1..7];
    assert opts == ["-i", input, "-q:a", "0", "-map", "a"];
    assert opts[2..] == ["-q:a", "0", "-map", "a"];
    assert opts[2..][2..] == ["-map", "a"];
    assert "-q:a"[1] != "-map"[1];
    assert OptionValue(opts, "-map") == OptionValue(opts[2..][2..], "-map");
    assert OptionValue(opts, "-q:a") == OptionValue(opts[2..], "-q:a");
  }

  /** A cut seeks from the cut's start to its end in the input, copies the
      streams without re-encoding, and writes segment file i. */
  lemma CutInvocation(c: Cut, input: string, i: nat)
    ensures CutArgv(c, input, i)[0] == Program
    ensures FlagValue(CutArgv(c, input, i), "-ss") == Some(c.start)
    ensures FlagValue(CutArgv(c, input, i), "-to") == Some(c.end)
    ensures FlagValue(CutArgv(c, input, i), "-i") == Some(input)
    ensures FlagValue(CutArgv(c, input, i), "-c") == Some("copy")
    ensures OutputOf(CutArgv(c, input, i)) == Some(SegmentPath(i))
  {
    var opts := CutArgv(c, input, i)[1..9];
    assert opts == ["-ss", c.start, "-to", c.end, "-i", input, "-c", "copy"];
    assert opts[2..] == ["-to", c.end, "-i", input, "-c", "copy"];
    assert opts[2..][2..] == ["-i", input, "-c", "copy"];
    assert opts[2..][2..][2..] == ["-c", "copy"];
    assert "-ss"[1] != "-to"[1];
    assert OptionValue(opts, "-to") == OptionValue(opts[2..], "-to");
    assert OptionValue(opts, "-i") == OptionValue(opts[2..][2..], "-i");
    assert "-i"[1] != "-c"[1];
    assert OptionValue(opts[2..][2..], "-c") == OptionValue(opts[2..][2..][2..], "-c");
    assert OptionValue(opts, "-c") == OptionValue(opts[2..][2..][2..], "-c");
  }

  /** The concatenation uses the concat demuxer on the manifest with the
      safe-path check off, copies the streams, and writes output.mp4. */
  lemma ConcatInvocation()
    ensures ConcatArgv()[0] == Program
    ensures FlagValue(ConcatArgv(), "-f") == Some("concat")
    ensures FlagValue(ConcatArgv(), "-safe") == Some("0")
    ensures FlagValue(ConcatArgv(), "-i") == Some(ListFileName)
    ensures FlagValue(ConcatArgv(), "-c") == Some("copy")
    ensures OutputOf(ConcatArgv()) == Some(OutputFile)
  {
    var opts := ConcatArgv()[1..9];
    assert opts == ["-f", "concat", "-safe", "0", "-i", ListFileName, "-c", "copy"];
    assert opts[2..] == ["-safe", "0", "-i", ListFileName, "-c", "copy"];
    assert opts[2..][2..] == ["-i", ListFileName, "-c", "copy"];
    assert opts[2..][2..][2..] == ["-c", "copy"];
  }
}
