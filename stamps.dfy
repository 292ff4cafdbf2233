/** The timestamp-list parser: the `stamps` field of the model's JSON reply,
    a comma-separated list of `<start>-<end>` ranges, turned into the ordered
    list of cuts. */
module Stamps {
  import opened Wrappers
  import opened Text

  /** One requested range of the input video, as the two timestamp texts. */
  datatype Cut = Cut(start: string, end: string)

  /** A range token without a '-': the program indexes past the end of the
      token's pieces and panics at the first such token. */
  datatype ParseError = MalformedRange(index: nat, token: string)

  const RangeSep := ','
  const BoundSep := '-'

  /** A token the program can read a cut from: it has a second
      '-'-separated piece, which is the case exactly when it contains a '-'. */
  predicate IsRange(token: string)
  {
    |Split(token, BoundSep)| >= 2
  }

  /** A token has a second piece exactly when it contains a '-'. */
  lemma RangeHasBoundSep(token: string)
    ensures IsRange(token) <==> BoundSep in token
  {
  }

  /** The cut read from a range token: the first two '-'-separated pieces. */
  function CutOf(token: string): (c: Cut)
    requires IsRange(token)
    ensures BoundSep !in c.start && BoundSep !in c.end
  {
    var pieces := Split(token, BoundSep);
    Cut(pieces[0], pieces[1])
  }

  /** `e` names the first token that is not a range. */
  predicate FirstMalformed(tokens: seq<string>, e: ParseError)
  {
    && e.index < |tokens|
    && e.token == tokens[e.index]
    && !IsRange(e.token)
    && forall j :: 0 <= j < e.index ==> IsRange(tokens[j])
  }

  /** The cuts of a list of tokens, in token order, or the first malformed
      token. */
  function ParseTokens(tokens: seq<string>): (r: Result<seq<Cut>, ParseError>)
    ensures r.Ok? <==> forall i :: 0 <= i < |tokens| ==> IsRange(tokens[i])
    ensures r.Ok? ==> |r.value| == |tokens|
    ensures r.Ok? ==> forall i :: 0 <= i < |tokens| ==> r.value[i] == CutOf(tokens[i])
    ensures r.Err? ==> FirstMalformed(tokens, r.error)
  {
    if tokens == [] then Ok([])
    else
      var init := ParseTokens(tokens[..|tokens| - 1]);
      var last := tokens[|tokens| - 1];
      if init.Err? then init
      else if !IsRange(last) then Err(MalformedRange(|tokens| - 1, last))
      else Ok(init.value + [CutOf(last)])
  }

  /** What the parsing loop produces from the whole `stamps` string. */
  function Parse(stamps: string): (r: Result<seq<Cut>, ParseError>)
    ensures r.Ok? <==> forall t :: t in Split(stamps, RangeSep) ==> BoundSep in t
    ensures r.Ok? ==> |r.value| == Count(stamps, RangeSep) + 1
  {
    ParseTokens(Split(stamps, RangeSep))
  }

  /** Parsing one more token: the cut it holds is appended, or parsing
      stops at it if it holds no '-'. */
  lemma ParseStep(tokens: seq<string>, i: nat)
    requires i < |tokens|
    ensures ParseTokens(tokens[..i]).Err? ==> ParseTokens(tokens[..i + 1]) == ParseTokens(tokens[..i])
    ensures ParseTokens(tokens[..i]).Ok? && !IsRange(tokens[i]) ==>
      ParseTokens(tokens[..i + 1]) == Err(MalformedRange(i, tokens[i]))
    ensures ParseTokens(tokens[..i]).Ok? && IsRange(tokens[i]) ==>
      ParseTokens(tokens[..i + 1]) == Ok(ParseTokens(tokens[..i]).value + [CutOf(tokens[i])])
  {
    assert tokens[..i + 1][..i] == tokens[..i];
  }

  /** Once a prefix parses and the next token is malformed, the whole list
      fails at that token, whatever follows it. */
  lemma FailsAtFirstMalformed(tokens: seq<string>, i: nat)
    requires i < |tokens|
    requires ParseTokens(tokens[..i]).Ok? && !IsRange(tokens[i])
    ensures ParseTokens(tokens) == Err(MalformedRange(i, tokens[i]))
  {
    var r := ParseTokens(tokens);
    assert r.Err? by {
      assert !IsRange(tokens[i]);
    }
    PrefixRanges(tokens, i);
    assert r.error.index <= i;
    assert r.error.index >= i;
  }

  /** Every token of a prefix that parses is a range. */
  lemma PrefixRanges(tokens: seq<string>, i: nat)
    requires i <= |tokens| && ParseTokens(tokens[..i]).Ok?
    ensures forall j :: 0 <= j < i ==> IsRange(tokens[j])
  {
    forall j | 0 <= j < i
      ensures IsRange(tokens[j])
    {
      assert tokens[..i][j] == tokens[j];
    }
  }

  /** The parsing loop: split on ',' and append one cut per token, reading
      pieces 0 and 1 of the token split on '-'. */
  method ParseStamps(stamps: string) returns (r: Result<seq<Cut>, ParseError>)
    ensures r == Parse(stamps)
    ensures r.Ok? ==> |r.value| == Count(stamps, RangeSep) + 1
  {
    var tokens := Split(stamps, RangeSep);
    var cuts: seq<Cut> := [];
    var i := 0;
    while i < |tokens|
      invariant 0 <= i <= |tokens|
      invariant ParseTokens(tokens[..i]) == Ok(cuts)
    {
      var token := tokens[i];
      var pieces := Split(token, BoundSep);
      ParseStep(tokens, i);
      if |pieces| < 2 {
        FailsAtFirstMalformed(tokens, i);
        return Err(MalformedRange(i, token));
      }
      cuts := cuts + [Cut(pieces[0], pieces[1])];
      i := i + 1;
    }
    assert tokens[..i] == tokens;
    r := Ok(cuts);
  }

  /** One cut per comma-separated token, so k commas give k + 1 cuts, and
      the i-th cut is read from the i-th token. */
  lemma CutPerToken(stamps: string)
    requires Parse(stamps).Ok?
    ensures |Parse(stamps).value| == Count(stamps, RangeSep) + 1
    ensures forall i :: 0 <= i < |Parse(stamps).value| ==>
      Parse(stamps).value[i] == CutOf(Split(stamps, RangeSep)[i])
  {
  }

  /** An empty `stamps` is one empty token, which has no '-'. */
  lemma EmptyStampsIsMalformed()
    ensures Parse("") == Err(MalformedRange(0, ""))
  {
    assert Split("", RangeSep) == [""];
  }

  /** A token with exactly one '-': start is the text before it, end the
      text after it, and re-joining them gives the token back. */
  lemma {:induction false} SingleDashRoundTrip(token: string)
    requires Count(token, BoundSep) == 1
    ensures IsRange(token)
    ensures CutOf(token).start + [BoundSep] + CutOf(token).end == token
  {
    var pieces := Split(token, BoundSep);
    JoinSplit(token, BoundSep);
    assert |pieces| == 2;
    assert pieces[1..] == [pieces[1]];
  }

  /** The fields of the cut read from any range token: start is the text
      before the first '-'; end is the text after it, up to the second '-'
      if there is one (anything after that is dropped). */
  lemma {:induction false} CutFields(token: string)
    requires IsRange(token)
    ensures BoundSep !in CutOf(token).start && BoundSep !in CutOf(token).end
    ensures Count(token, BoundSep) == 1 ==> token == CutOf(token).start + [BoundSep] + CutOf(token).end
    ensures Count(token, BoundSep) >= 2 ==>
      CutOf(token).start + [BoundSep] + CutOf(token).end + [BoundSep] <= token
  {
    var pieces := Split(token, BoundSep);
    JoinSplit(token, BoundSep);
    if |pieces| == 2 {
      assert pieces[1..] == [pieces[1]];
    } else {
      var tail := Join(pieces[2..], BoundSep);
      assert pieces[1..][1..] == pieces[2..];
      assert Join(pieces[1..], BoundSep) == pieces[1] + [BoundSep] + tail;
      assert token == pieces[0] + [BoundSep] + pieces[1] + [BoundSep] + tail;
    }
  }

  /** The text of one range as the system prompt asks for it. */
  function RangeText(c: Cut): string
  {
    c.start + [BoundSep] + c.end
  }

  /** A reply's `stamps` value listing the given cuts. */
  function Render(cuts: seq<Cut>): string
  {
    Join(seq(|cuts|, i requires 0 <= i < |cuts| => RangeText(cuts[i])), RangeSep)
  }

  /** Timestamps as the system prompt defines them contain neither ',' nor '-'. */
  predicate PlainTimestamp(t: string)
  {
    RangeSep !in t && BoundSep !in t
  }

  /** Parsing a well-formed `stamps` value gives back exactly the cuts it
      lists, in order, duplicates included. */
  lemma {:induction false} ParseRender(cuts: seq<Cut>)
    requires |cuts| >= 1
    requires forall i :: 0 <= i < |cuts| ==> PlainTimestamp(cuts[i].start) && PlainTimestamp(cuts[i].end)
    ensures Parse(Render(cuts)) == Ok(cuts)
  {
    var tokens := seq(|cuts|, i requires 0 <= i < |cuts| => RangeText(cuts[i]));
    forall i | 0 <= i < |tokens|
      ensures RangeSep !in tokens[i]
    {
      assert tokens[i] == cuts[i].start + [BoundSep] + cuts[i].end;
    }
    SplitJoin(tokens, RangeSep);
    forall i | 0 <= i < |tokens|
      ensures IsRange(tokens[i]) && CutOf(tokens[i]) == cuts[i]
    {
      var c := cuts[i];
      assert tokens[i] == Join([c.start, c.end], BoundSep);
      SplitJoin([c.start, c.end], BoundSep);
    }
    var r := Parse(Render(cuts));
    assert r.Ok?;
    assert r.value == cuts;
  }

  /** A token with a second '-' (as in `a-b-c`) is not rejected: it becomes
      the single cut from `a` to `b`, and `c` is dropped. */
  lemma {:induction false} ExtraBoundDropped(a: string, b: string, c: string)
    requires PlainTimestamp(a) && PlainTimestamp(b) && PlainTimestamp(c)
    ensures Parse(a + [BoundSep] + b + [BoundSep] + c) == Ok([Cut(a, b)])
  {
    var token := a + [BoundSep] + b + [BoundSep] + c;
    assert RangeSep !in token;
    SplitNoSep(token, RangeSep);
    assert Join([a, b, c], BoundSep) == token by {
      assert [a, b, c][1..] == [b, c];
      assert [b, c][1..] == [c];
      assert Join([b, c], BoundSep) == b + [BoundSep] + c;
      assert Join([a, b, c], BoundSep) == a + [BoundSep] + (b + [BoundSep] + c);
    }
    SplitJoin([a, b, c], BoundSep);
    assert Split(token, RangeSep) == [token];
    assert IsRange(token) && CutOf(token) == Cut(a, b);
    var r := ParseTokens([token]);
    assert r.Ok? && r.value[0] == Cut(a, b);
    assert r.value == [Cut(a, b)];
  }
}
