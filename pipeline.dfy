/** The whole run of the program, from the command line to the final
    concatenation, over an explicit record of what the outside world
    answers. */
module Pipeline {
  import opened Wrappers
  import opened Text
  import opened Cli
  import opened Poll
  import opened Stamps
  import opened Ffmpeg
  import opened Manifest

  /** What the run learns from outside: the exit status of each ffmpeg
      invocation, the remote file's states, and the `stamps` field of the
      model's reply. */
  datatype Environment = Environment(
    audioOk: bool,
    uploaded: FileState,
    fetches: seq<Fetch>,
    stamps: string,
    cutOk: nat -> bool,
    concatOk: bool)

  /** Why a run stops early. Each of these ends the process with a fatal
      log message, except `StillProcessing`, which stands for a poll that
      never ends: the answers ran out with the file still not active. */
  datatype Failure =
    | BadUsage(usage: UsageError)
    | AudioFailed
    | PollFailed(at: nat)
    | StillProcessing
    | Malformed(range: ParseError)
    | CutFailed(index: nat)
    | ConcatFailed

  datatype RunOutcome = Completed | Aborted(failure: Failure)

  /** The invocations of the cut loop for all cuts, in order. */
  function CutArgvs(cuts: seq<Cut>, input: string): (argvs: seq<Argv>)
    ensures |argvs| == |cuts|
  {
    seq(|cuts|, i requires 0 <= i < |cuts| => CutArgv(cuts[i], input, i))
  }

  /** Invocations issued one per cut, in cut order, are a prefix of the
      invocations for all cuts. */
  lemma IssuedCuts(cuts: seq<Cut>, input: string, issued: seq<Argv>)
    requires |issued| <= |cuts|
    requires forall j :: 0 <= j < |issued| ==> issued[j] == CutArgv(cuts[j], input, j)
    ensures issued == CutArgvs(cuts, input)[..|issued|]
  {
  }

  /** The end of a run (main.go:141-188): cut every range, then
      concatenate. `issued` lists the ffmpeg invocations in the order they
      are started and `manifest` is what the list file holds at the end. */
  method CutAndConcat(input: string, cuts: seq<Cut>, cutOk: nat -> bool, concatOk: bool)
    returns (issued: seq<Argv>, manifest: string, outcome: RunOutcome)
    ensures outcome.Completed? <==> concatOk && forall i :: 0 <= i < |cuts| ==> cutOk(i)
    ensures outcome.Aborted? ==> outcome.failure.CutFailed? || outcome.failure == ConcatFailed
    ensures outcome.Aborted? && outcome.failure.CutFailed? ==>
      && outcome.failure.index < |cuts|
      && !cutOk(outcome.failure.index)
      && (forall i :: 0 <= i < outcome.failure.index ==> cutOk(i))
      && issued == CutArgvs(cuts, input)[..outcome.failure.index + 1]
      && manifest == ManifestText(outcome.failure.index)
    ensures !(outcome.Aborted? && outcome.failure.CutFailed?) ==>
      && (forall i :: 0 <= i < |cuts| ==> cutOk(i))
      && issued == CutArgvs(cuts, input) + [ConcatArgv()]
      && manifest == ManifestText(|cuts|)
  {
    var list := new ListFile(ListFileName);
    var cutIssued, cutOutcome := CutAll(input, cuts, cutOk, list);
    manifest := list.content;
    IssuedCuts(cuts, input, cutIssued);
    if cutOutcome.CutFailed? {
      return cutIssued, manifest, Aborted(Failure.CutFailed(cutOutcome.index));
    }
    issued := cutIssued + [ConcatArgv()];
    if !concatOk {
      return issued, manifest, Aborted(ConcatFailed);
    }
    outcome := Completed;
  }

  /** Every parsed cut succeeds. */
  predicate AllCutsOk(env: Environment)
    requires Parse(env.stamps).Ok?
  {
    forall i :: 0 <= i < |Parse(env.stamps).value| ==> env.cutOk(i)
  }

  /** The run after the poll (main.go:119-188): parse the reply's
      `stamps`, then cut and concatenate. */
  method ParseCutConcat(input: string, env: Environment)
    returns (issued: seq<Argv>, manifest: string, outcome: RunOutcome)
    ensures outcome.Aborted? ==>
      outcome.failure.Malformed? || outcome.failure.CutFailed? || outcome.failure == ConcatFailed
    ensures outcome.Aborted? && outcome.failure.Malformed? <==> Parse(env.stamps).Err?
    ensures outcome.Aborted? && outcome.failure.Malformed? ==>
      && Parse(env.stamps) == Err(outcome.failure.range)
      && issued == [] && manifest == ""
    ensures outcome.Aborted? && outcome.failure.CutFailed? <==>
      Parse(env.stamps).Ok? && !AllCutsOk(env)
    ensures outcome.Aborted? && outcome.failure.CutFailed? ==>
      && Parse(env.stamps).Ok?
      && outcome.failure.index < |Parse(env.stamps).value|
      && !env.cutOk(outcome.failure.index)
      && (forall i :: 0 <= i < outcome.failure.index ==> env.cutOk(i))
      && issued == CutArgvs(Parse(env.stamps).value, input)[..outcome.failure.index + 1]
      && manifest == ManifestText(outcome.failure.index)
    ensures outcome.Completed? <==> Parse(env.stamps).Ok? && AllCutsOk(env) && env.concatOk
    ensures outcome == Aborted(ConcatFailed) || outcome.Completed? ==>
      && Parse(env.stamps).Ok?
      && |Parse(env.stamps).value| == Count(env.stamps, RangeSep) + 1
      && issued == CutArgvs(Parse(env.stamps).value, input) + [ConcatArgv()]
      && manifest == ManifestText(|Parse(env.stamps).value|)
  {
    var parsedCuts := ParseStamps(env.stamps);
    if parsedCuts.Err? {
      return [], "", Aborted(Malformed(parsedCuts.error));
    }
    issued, manifest, outcome := CutAndConcat(input, parsedCuts.value, env.cutOk, env.concatOk);
  }

  /** The run gets past the usage check, the audio extraction and the
      poll, and the reply's `stamps` parses. */
  predicate ReachesCuts(args: seq<string>, env: Environment)
  {
    && |args| >= 3
    && env.audioOk
    && BecomesActive(env.uploaded, env.fetches)
    && Parse(env.stamps).Ok?
  }

  /** The run up to the poll (main.go:22-80): check the arguments,
      extract the audio, and wait for the uploaded file to become active.
      `stop` is the failure that ends the run here, if any. */
  method PrepareAudio(args: seq<string>, env: Environment)
    returns (issued: seq<Argv>, stop: Option<Failure>)
    ensures |args| < 3 <==> stop == Some(BadUsage(UsageError(Usage)))
    ensures |args| < 3 ==> issued == []
    ensures |args| >= 3 ==> issued == [AudioArgv(args[1])]
    ensures stop == Some(AudioFailed) <==> |args| >= 3 && !env.audioOk
    ensures stop.Some? && stop.value.PollFailed? ==>
      && stop.value.at < |env.fetches|
      && AllGot(env.fetches, stop.value.at)
      && env.fetches[stop.value.at] == TransportError
      && (forall j :: 0 <= j <= stop.value.at ==> StateAfter(env.uploaded, env.fetches, j) != Active)
    ensures stop == Some(StillProcessing) ==>
      && AllGot(env.fetches, |env.fetches|)
      && (forall j :: 0 <= j <= |env.fetches| ==> StateAfter(env.uploaded, env.fetches, j) != Active)
    ensures stop.Some? && (stop.value.PollFailed? || stop.value == StillProcessing) <==>
      |args| >= 3 && env.audioOk && !BecomesActive(env.uploaded, env.fetches)
    ensures stop.None? <==> |args| >= 3 && env.audioOk && BecomesActive(env.uploaded, env.fetches)
    ensures stop.Some? ==>
      stop.value.BadUsage? || stop.value == AudioFailed || stop.value.PollFailed? || stop.value == StillProcessing
  {
    issued := [];
    var parsed := ParseArgs(args);
    if parsed.Err? {
      return issued, Some(BadUsage(parsed.error));
    }
    var input := parsed.value.inputFile;

    issued := [AudioArgv(input)];
    if !env.audioOk {
      return issued, Some(AudioFailed);
    }

    var poll, _ := PollUntilActive(env.uploaded, env.fetches);
    match poll
    case FetchFailed(k) =>
      return issued, Some(PollFailed(k));
    case NeverActive =>
      return issued, Some(StillProcessing);
    case Ready(_) =>
      return issued, None;
  }

  /** One run. `issued` lists the ffmpeg invocations in the order the
      program starts them and `manifest` is what the list file holds when
      the run ends. */
  method Run(args: seq<string>, env: Environment)
    returns (issued: seq<Argv>, manifest: string, outcome: RunOutcome)
    ensures |args| < 3 <==> outcome == Aborted(BadUsage(UsageError(Usage)))
    ensures |args| < 3 ==> issued == [] && manifest == ""
    ensures |args| >= 3 ==> |issued| >= 1 && issued[0] == AudioArgv(args[1])
    ensures outcome == Aborted(AudioFailed) <==> |args| >= 3 && !env.audioOk
    ensures outcome == Aborted(AudioFailed) ==> issued == [AudioArgv(args[1])] && manifest == ""
    ensures outcome.Aborted? && outcome.failure.PollFailed? ==>
      && |args| >= 3 && env.audioOk
      && outcome.failure.at < |env.fetches|
      && AllGot(env.fetches, outcome.failure.at)
      && env.fetches[outcome.failure.at] == TransportError
      && (forall j :: 0 <= j <= outcome.failure.at ==> StateAfter(env.uploaded, env.fetches, j) != Active)
      && issued == [AudioArgv(args[1])] && manifest == ""
    ensures outcome == Aborted(StillProcessing) ==>
      && |args| >= 3 && env.audioOk
      && AllGot(env.fetches, |env.fetches|)
      && (forall j :: 0 <= j <= |env.fetches| ==> StateAfter(env.uploaded, env.fetches, j) != Active)
      && issued == [AudioArgv(args[1])] && manifest == ""
    ensures (outcome.Aborted? && (outcome.failure.PollFailed? || outcome.failure == StillProcessing)) <==>
      |args| >= 3 && env.audioOk && !BecomesActive(env.uploaded, env.fetches)
    ensures outcome.Aborted? && outcome.failure.Malformed? <==>
      |args| >= 3 && env.audioOk && BecomesActive(env.uploaded, env.fetches) && Parse(env.stamps).Err?
    ensures outcome.Aborted? && outcome.failure.Malformed? ==>
      && Parse(env.stamps) == Err(outcome.failure.range)
      && FirstMalformed(Split(env.stamps, RangeSep), outcome.failure.range)
      && issued == [AudioArgv(args[1])] && manifest == ""
    ensures outcome.Aborted? && outcome.failure.CutFailed? <==>
      ReachesCuts(args, env) && !AllCutsOk(env)
    ensures outcome.Aborted? && outcome.failure.CutFailed? ==>
      && ReachesCuts(args, env)
      && outcome.failure.index < |Parse(env.stamps).value|
      && !env.cutOk(outcome.failure.index)
      && (forall i :: 0 <= i < outcome.failure.index ==> env.cutOk(i))
      && issued == [AudioArgv(args[1])]
                   + CutArgvs(Parse(env.stamps).value, args[1])[..outcome.failure.index + 1]
      && manifest == ManifestText(outcome.failure.index)
    ensures outcome == Aborted(ConcatFailed) <==> ReachesCuts(args, env) && AllCutsOk(env) && !env.concatOk
    ensures outcome.Completed? <==> ReachesCuts(args, env) && AllCutsOk(env) && env.concatOk
    ensures outcome == Aborted(ConcatFailed) || outcome.Completed? ==>
      && ReachesCuts(args, env)
      && |Parse(env.stamps).value| == Count(env.stamps, RangeSep) + 1
      && issued == [AudioArgv(args[1])] + CutArgvs(Parse(env.stamps).value, args[1]) + [ConcatArgv()]
      && manifest == ManifestText(|Parse(env.stamps).value|)
  {
    var stop;
    issued, stop := PrepareAudio(args, env);
    if stop.Some? {
      return issued, "", Aborted(stop.value);
    }
    var rest;
    rest, manifest, outcome := ParseCutConcat(args[1], env);
    issued := issued + rest;
  }
}
