/** The cut loop: one ffmpeg invocation per cut, each followed by one line
    of the concat manifest, written to the open list file. */
module Manifest {
  import opened Wrappers
  import opened Text
  import opened Stamps
  import opened Ffmpeg

  /** The open manifest file: its name and what has been written to it. */
  class ListFile {
    const name: string
    var content: string

    constructor (name: string)
      ensures this.name == name && content == ""
    {
      this.name := name;
      content := "";
    }

    /** fmt.Fprintf(listFile, ...): append text to the file. */
    method WriteString(s: string)
      modifies this
      ensures content == old(content) + s
    {
      content := content + s;
    }
  }

  /** A manifest entry naming one segment file for the concat demuxer. */
  function Entry(path: string): (e: string)
    ensures |e| == |path| + 7 && e[6..|e| - 1] == path
    ensures '\n' !in path ==> '\n' !in e
  {
    "file '" + path + "'"
  }

  /** The quoted path can be read back from an entry. */
  lemma EntryInjective(p: string, q: string)
    ensures Entry(p) == Entry(q) ==> p == q
  {
  }

  /** The line written after the cut that produced `path`. */
  function ManifestLine(path: string): string
  {
    Entry(path) + "\n"
  }

  /** The manifest after the first n cuts succeeded, one line per cut. */
  function ManifestText(n: nat): string
  {
    if n == 0 then "" else ManifestText(n - 1) + ManifestLine(SegmentPath(n - 1))
  }

  /** The entries the manifest should list for n cuts, in cut order. */
  function Entries(n: nat): (es: seq<string>)
    ensures |es| == n
  {
    seq(n, i requires 0 <= i < n => Entry(SegmentPath(i)))
  }

  lemma EntryHasNoNewline(i: nat)
    ensures '\n' !in Entry(SegmentPath(i))
  {
  }

  /** One more cut adds one entry at the end. */
  lemma EntriesSnoc(n: nat)
    ensures Entries(n + 1) == Entries(n) + [Entry(SegmentPath(n))]
  {
    assert forall k :: 0 <= k < n ==> Entries(n + 1)[k] == Entries(n)[k];
  }

  /** For n >= 1 the manifest is its entries joined by line breaks, plus a
      final line break. */
  lemma {:induction false} ManifestIsJoin(n: nat)
    requires n >= 1
    ensures ManifestText(n) == Join(Entries(n), '\n') + "\n"
  {
    var e := Entry(SegmentPath(n - 1));
    EntriesSnoc(n - 1);
    assert ManifestText(n) == ManifestText(n - 1) + (e + "\n");
    if n > 1 {
      ManifestIsJoin(n - 1);
      JoinAppend(Entries(n - 1), e, '\n');
      LineAfterJoin(Join(Entries(n - 1), '\n'), e);
    } else {
      assert Entries(1) == [e];
    }
  }

  /** Sequence bookkeeping for ManifestIsJoin. */
  lemma LineAfterJoin(joined: string, e: string)
    ensures (joined + "\n") + (e + "\n") == (joined + ['\n'] + e) + "\n"
  {
  }

  /** Read line by line, the manifest for n cuts has exactly n lines, line i
      names segment file i, and nothing follows the last line break. */
  lemma ManifestLines(n: nat)
    ensures Split(ManifestText(n), '\n') == Entries(n) + [""]
    ensures Count(ManifestText(n), '\n') == n
  {
    var lines := Entries(n) + [""];
    if n == 0 {
      assert lines == [""];
    } else {
      LinesHaveNoNewline(n);
      ManifestIsJoin(n);
      JoinAppend(Entries(n), "", '\n');
      assert ManifestText(n) == Join(lines, '\n');
      SplitJoin(lines, '\n');
    }
  }

  lemma LinesHaveNoNewline(n: nat)
    ensures forall k :: 0 <= k < |Entries(n) + [""]| ==> '\n' !in (Entries(n) + [""])[k]
  {
    var lines := Entries(n) + [""];
    forall k | 0 <= k < |lines|
      ensures '\n' !in lines[k]
    {
      if k < n {
        EntryHasNoNewline(k);
      }
    }
  }

  /** The manifest never names the same segment file twice. */
  lemma EntriesDistinct(n: nat, i: nat, j: nat)
    requires i < n && j < n && i != j
    ensures Entries(n)[i] != Entries(n)[j]
  {
    SegmentPathInjective(i, j);
    var p, q := SegmentPath(i), SegmentPath(j);
    assert Entries(n)[i] == Entry(p) && Entries(n)[j] == Entry(q);
    EntryInjective(p, q);
  }

  /** Read line by line, line i of the manifest for n cuts quotes the very
      file that the invocation for cut i writes. */
  lemma LineNamesCutOutput(c: Cut, input: string, i: nat, n: nat)
    requires i < n
    ensures OutputOf(CutArgv(c, input, i)).Some?
    ensures |Split(ManifestText(n), '\n')| == n + 1
    ensures Split(ManifestText(n), '\n')[i] == Entry(OutputOf(CutArgv(c, input, i)).value)
  {
    CutInvocation(c, input, i);
    ManifestLines(n);
    assert (Entries(n) + [""])[i] == Entries(n)[i];
  }

  /** Writing line i to a file holding the manifest of the first i cuts
      leaves it holding the manifest of the first i + 1 cuts. */
  lemma AppendLine(prefix: string, i: nat, before: string, line: string, after: string)
    requires before == prefix + ManifestText(i)
    requires line == ManifestLine(SegmentPath(i))
    requires after == before + line
    ensures after == prefix + ManifestText(i + 1)
  {
    ConcatAssoc(prefix, ManifestText(i), line);
  }

  lemma ConcatAssoc(a: string, b: string, c: string)
    ensures a + b + c == a + (b + c)
  {
  }

  /** Issuing the invocation for cut i after those for the cuts before it
      keeps the issued list in cut order. */
  lemma IssueNext(issued: seq<Argv>, cuts: seq<Cut>, input: string, i: nat)
    requires i < |cuts| && |issued| == i
    requires forall j :: 0 <= j < i ==> issued[j] == CutArgv(cuts[j], input, j)
    ensures forall j :: 0 <= j < i + 1 ==>
      (issued + [CutArgv(cuts[i], input, i)])[j] == CutArgv(cuts[j], input, j)
  {
  }

  /** What the cut loop reports. */
  datatype CutOutcome = AllCut | CutFailed(index: nat)

  /** The loop over the parsed cuts. `cutOk(i)` is whether ffmpeg exits
      successfully on the i-th cut; the first failure ends the run
      (log.Fatalln) before its manifest line is written. */
  method CutAll(input: string, cuts: seq<Cut>, cutOk: nat -> bool, list: ListFile)
    returns (issued: seq<Argv>, outcome: CutOutcome)
    modifies list
    ensures outcome.AllCut? <==> forall i :: 0 <= i < |cuts| ==> cutOk(i)
    ensures outcome.CutFailed? ==>
      && outcome.index < |cuts|
      && !cutOk(outcome.index)
      && forall j :: 0 <= j < outcome.index ==> cutOk(j)
    ensures |issued| == if outcome.AllCut? then |cuts| else outcome.index + 1
    ensures forall j :: 0 <= j < |issued| ==> issued[j] == CutArgv(cuts[j], input, j)
    ensures list.content == old(list.content) + ManifestText(if outcome.AllCut? then |cuts| else outcome.index)
  {
    issued := [];
    var i := 0;
    while i < |cuts|
      invariant 0 <= i <= |cuts|
      invariant forall j :: 0 <= j < i ==> cutOk(j)
      invariant |issued| == i
      invariant forall j :: 0 <= j < i ==> issued[j] == CutArgv(cuts[j], input, j)
      invariant list.content == old(list.content) + ManifestText(i)
    {
      var c := cuts[i];
      var outputPath := SegmentPath(i);
      IssueNext(issued, cuts, input, i);
      issued := issued + [CutArgv(c, input, i)];
      if !cutOk(i) {
        return issued, CutFailed(i);
      }
      var line := ManifestLine(outputPath);
      ghost var before := list.content;
      list.WriteString(line);
      AppendLine(old(list.content), i, before, line, list.content);
      i := i + 1;
    }
    outcome := AllCut;
  }
}
