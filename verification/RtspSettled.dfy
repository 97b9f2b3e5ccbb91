/** The condition under which splitting does not matter is exact: a start line that is not settled
    is refused by a parser that gets it as a piece of its own, and accepted with the right bytes
    behind it. Such lines exist. */
module RtspSettled {
  import opened Bytes
  import opened RtspModel
  import opened RtspRun
  import opened RtspSplit

  // ---------- the step at the line feed ----------

  function StepWith(p: Parser, x: seq<byte>): StepResult
    requires Valid(p)
  {
    AppendValid(p, x);
    Step(Append(p, x))
  }

  lemma OpenMinor(s: seq<byte>, pos: nat, major: int)
    requires pos < |s| && s[|s| - 1] == LF && !MinorSettled(s, pos)
    ensures ScanMinor(s, pos, major) == None
    ensures ScanMinor(s + [49, SP], pos, major) == Some((major, 1))
  {
    OpenAtLineFeed(s, pos + 1);
    ScanIntAfterSpaces(s, [49, SP], pos + 1);
    ScanDigit(s + [49, SP], |s|, 1);
  }

  lemma OpenMajor(s: seq<byte>, pos: nat)
    requires pos < |s| && s[|s| - 1] == LF && ScanIntEnd(s, pos) == |s|
    ensures ScanNumbers(s, pos) == None
    ensures ScanNumbers(s + [49, DOT, 49, SP], pos) == Some((1, 1))
  {
    var t := s + [49, DOT, 49, SP];
    OpenAtLineFeed(s, pos);
    ScanIntAfterSpaces(s, [49, DOT, 49, SP], pos);
    ScanDigit(t, |s|, 1);
    ScanDigit(t, |s| + 2, 1);
  }

  /** What completes a version that the line feed left open. */
  predicate OpensVersion(x: seq<byte>) {
    x == [49, SP] || x == [49, DOT, 49, SP]
  }

  lemma OpenNumbers(s: seq<byte>, pos: nat) returns (x: seq<byte>)
    requires pos < |s| && s[|s| - 1] == LF && !NumbersSettled(s, pos)
    requires ScanIntEnd(s, pos) < |s| && ScanInt(s, pos).Some? ==>
      ScanInt(s, pos).value == 1 || ScanInt(s, pos).value == 2
    ensures ScanNumbers(s, pos) == None && VersionAllowed(ScanNumbers(s + x, pos)) && OpensVersion(x)
  {
    if ScanIntEnd(s, pos) == |s| {
      x := [49, DOT, 49, SP];
      OpenMajor(s, pos);
    } else {
      x := [49, SP];
      ScanIntStable(s, x, pos);
      OpenMinor(s, ScanIntEnd(s, pos), ScanInt(s, pos).value);
    }
  }

  /** An unsettled start line is refused if nothing follows it and accepted if the right
      bytes do. */
  lemma UnsettledDiffers(p: Parser) returns (x: seq<byte>)
    requires Valid(p) && p.stateM == SM_LINE_LF && p.offset + 1 == |p.raw| && !LineSettled(p)
    ensures Step(p).Bad? && StepWith(p, x).Go? && OpensVersion(x)
  {
    var n := p.header.name.pos;
    LineSpans(p);
    assert LineBytes(p) == p.raw;
    UnsettledLine(p);
    x := UnsettledScan(p.raw, n);
    AppendValid(p, x);
    LineStep(p);
    LineStep(Append(p, x));
    hide Valid, LineOk, Step, LineAccepted, ScanVersion, Recorded;
  }

  lemma UnsettledLine(p: Parser)
    requires Valid(p) && p.stateM == SM_LINE_LF && p.offset + 1 == |p.raw| && !LineSettled(p)
    ensures LineShapeOk(p) && 0 <= p.header.name.pos && p.header.name.pos + 5 < |p.raw| && p.raw[|p.raw| - 1] == LF
    ensures !ScanSettled(p.raw, p.header.name.pos) && !MajorRefused(p.raw, p.header.name.pos)
  {
    LineSpans(p);
    assert LineBytes(p) == p.raw;
    hide ScanSettled, MajorRefused, EncodingSettled;
  }

  /** A scan that is not settled fails, and succeeds when the right bytes follow. */
  lemma UnsettledScan(s: seq<byte>, n: nat) returns (x: seq<byte>)
    requires n + 5 < |s| && s[|s| - 1] == LF && !ScanSettled(s, n) && !MajorRefused(s, n)
    ensures ScanVersion(s, n) == None && VersionAllowed(ScanVersion(s + x, n)) && OpensVersion(x)
  {
    x := OpenNumbers(s, n + 5);
    assert (s + x)[n..n + 5] == s[n..n + 5];
    hide ScanNumbers, NumbersSettled, ScanInt, ScanIntEnd;
  }

  lemma LineStep(p: Parser)
    requires Valid(p) && p.stateM == SM_LINE_LF
    ensures p.offset < |p.raw| && Step(p) == LineEnd(p)
  {
    hide LineEnd;
  }

  /** Exactly the settled start lines are decided alike whatever follows them. */
  lemma SettledExactly(p: Parser)
    requires Valid(p) && p.stateM == SM_LINE_LF && p.offset + 1 == |p.raw|
    ensures LineSettled(p) <==> forall x :: StepWith(p, x) == Later(Step(p), x)
  {
    if LineSettled(p) {
      forall x
        ensures StepWith(p, x) == Later(Step(p), x)
      {
        StepLater(p, x);
      }
    } else {
      var x := UnsettledDiffers(p);
      assert StepWith(p, x) != Later(Step(p), x);
    }
  }

  // ---------- whole calls ----------

  /** A run to the line feed of the start line, one step at a time. */
  lemma Towards(p: Parser, q: Parser)
    requires Valid(p) && p.stateM < SM_LINE_LF && Step(p) == Go(q)
    ensures Valid(q) && AtLineEnd(p) == AtLineEnd(q)
  {
    StepProgress(p);
    hide Step, Valid;
  }

  /** A run that gets to the line feed goes on from there. */
  lemma {:induction false} RunThroughLine(p: Parser)
    requires Valid(p) && AtLineEnd(p).Some?
    ensures Run(p) == Run(AtLineEnd(p).value)
    decreases Unread(p), StatesLeft(p)
  {
    if p.stateM != SM_LINE_LF {
      StepProgress(p);
      RunStep(p);
      RunThroughLine(Step(p).next);
    }
  }

  /** A header name that is not complete is awaited. */
  lemma {:induction false} NameWaits(p: Parser)
    requires Valid(p) && p.stateM == SM_HEADER_NAME && p.offset < |p.raw| && p.raw[|p.raw| - 1] == SP
    requires forall i :: p.offset <= i < |p.raw| - 1 ==> !IsDelimiter(p.raw[i]) && p.raw[i] != COLON
    ensures Run(p).NeedMore?
    decreases |p.raw| - p.offset
  {
    RunStep(p);
    hide Run;
    var q := Step(p).next;
    if p.offset + 1 < |p.raw| {
      NameWaits(q);
    } else {
      NameEnds(q);
    }
  }

  lemma NameEnds(p: Parser)
    requires Valid(p) && p.stateM == SM_HEADER_SP1 && p.offset + 1 == |p.raw| && p.raw[p.offset] == SP
    ensures Run(p).NeedMore?
  {
    RunStep(p);
    RunStep(Step(p).next);
    hide Run;
  }

  lemma NameBegins(p: Parser) returns (q: Parser)
    requires Valid(p) && p.stateM == SM_HEADER && p.offset < |p.raw| && p.raw[p.offset] == 49
    ensures Valid(q) && q.stateM == SM_HEADER_NAME && q.raw == p.raw && q.offset == p.offset && Run(p) == Run(q)
  {
    RunStep(p);
    hide Run;
    q := Step(p).next;
  }

  lemma OpeningBytes(s: seq<byte>, n: nat, x: seq<byte>)
    requires OpensVersion(x) && n + |x| == |s| && s[n..] == x
    ensures n < |s| - 1 && s[n] == 49 && s[|s| - 1] == SP
    ensures forall i :: n <= i < |s| - 1 ==> !IsDelimiter(s[i]) && s[i] != COLON
  {
    forall i | n <= i < |s|
      ensures s[i] == x[i - n]
    {
      assert s[n..][i - n] == s[i];
    }
  }

  /** Behind an accepted start line the parser waits for the rest of a header name. */
  lemma HeaderWaits(p: Parser, x: seq<byte>)
    requires Valid(p) && p.stateM == SM_HEADER && p.offset + |x| == |p.raw| && p.raw[p.offset..] == x
    requires OpensVersion(x)
    ensures Run(p).NeedMore?
  {
    assert 0 <= p.offset;
    hide *;
    OpeningBytes(p.raw, p.offset, x);
    var q := NameBegins(p);
    NameWaits(q);
  }

  /** An accepted start line leaves the bytes behind it as they are. */
  lemma AcceptedTail(p: Parser)
    requires Valid(p) && p.stateM == SM_LINE_LF && Step(p).Go?
    ensures var q := Step(p).next;
      && q.stateM == SM_HEADER && q.offset == p.offset + 1 && |q.raw| == |p.raw|
      && q.raw[q.offset..] == p.raw[q.offset..]
  {
    LineStep(p);
    LineSpans(p);
    hide Valid, Step, ScanVersion, CString, Atoi;
  }

  lemma AcceptedWaits(p: Parser, x: seq<byte>)
    requires Valid(p) && p.stateM == SM_LINE_LF && Step(p).Go? && OpensVersion(x)
    requires p.offset + 1 + |x| == |p.raw| && p.raw[p.offset + 1..] == x
    ensures Run(p).NeedMore?
  {
    AcceptedTail(p);
    RunStep(p);
    HeaderWaits(Step(p).next, x);
  }

  /** A call that ends with the line feed of an unsettled start line rejects it. With the right
      bytes behind it the same line is accepted. */
  lemma UnsettledCall(p: Parser) returns (x: seq<byte>)
    requires Valid(p) && AtLineEnd(p).Some?
    requires var q := AtLineEnd(p).value; q.offset + 1 == |q.raw| && !LineSettled(q)
    ensures Run(p).Reject? && Feed(p, x).NeedMore?
  {
    var q := AtLineEnd(p).value;
    x := UnsettledDiffers(q);
    RunThroughLine(p);
    RunStep(q);
    AtLineEndLater(p, x);
    RunThroughLine(Append(p, x));
    AppendTail(q, x);
    AcceptedWaits(Append(q, x), x);
  }

  lemma AppendTail(q: Parser, x: seq<byte>)
    requires 0 <= q.offset && q.offset + 1 == |q.raw|
    ensures Append(q, x).raw[q.offset + 1..] == x
  {
  }

  /** A call that ends with the line feed of the start line is not the last one. */
  lemma LineNotDone(p: Parser)
    requires Valid(p) && AtLineEnd(p).Some?
    requires var q := AtLineEnd(p).value; q.offset + 1 == |q.raw|
    ensures !Run(p).Done?
  {
    var q := AtLineEnd(p).value;
    RunThroughLine(p);
    RunStep(q);
    LineStep(q);
    if Step(q).Go? {
      AcceptedTail(q);
      RunStep(Step(q).next);
    }
    hide Run, LineEnd;
  }

  lemma SettledMore(p: Parser, x: seq<byte>)
    requires Valid(p) && AtLineEnd(p).Some? && LineSettled(AtLineEnd(p).value)
    ensures Valid(Append(p, x)) && Settled(Append(p, x))
  {
    AtLineEndLater(p, x);
    var q := AtLineEnd(p).value;
    assert LineBytes(Append(q, x)) == LineBytes(q);
    hide AtLineEnd;
  }

  /** Two pieces: the second one is fed if the first one needs more. */
  lemma TwoPieces(p: Parser, first: seq<byte>, x: seq<byte>)
    requires Valid(p)
    ensures FeedAll(p, [first, x]) == if Feed(p, first).NeedMore? then Feed(Feed(p, first).state, x) else Feed(p, first)
  {
    hide Step, Valid;
    assert [first, x][1..] == [x];
    if Feed(p, first).NeedMore? {
      assert FeedAll(Feed(p, first).state, [x]) == Feed(Feed(p, first).state, x);
    }
  }

  lemma SettledCall(p: Parser, first: seq<byte>, x: seq<byte>)
    requires Valid(p) && Valid(Append(p, first)) && AtLineEnd(Append(p, first)).Some?
    requires var q := AtLineEnd(Append(p, first)).value; q.offset + 1 == |q.raw| && LineSettled(q)
    ensures FeedAll(p, [first, x]) == Feed(p, first + x)
  {
    hide *;
    FeedIs(p, first);
    LineNotDone(Append(p, first));
    SettledMore(Append(p, first), x);
    SettledWhole(p, first, x);
    FeedTwice(p, first, x);
    TwoPieces(p, first, x);
  }

  /** For bytes that end with the line feed of the start line: feeding them and then any others
      is the same as feeding both at once, if and only if the line is settled. */
  lemma SplitExactly(p: Parser, first: seq<byte>)
    requires Valid(p) && Valid(Append(p, first)) && AtLineEnd(Append(p, first)).Some?
    requires var q := AtLineEnd(Append(p, first)).value; q.offset + 1 == |q.raw|
    ensures LineSettled(AtLineEnd(Append(p, first)).value) <==>
      forall x :: FeedAll(p, [first, x]) == Feed(p, first + x)
  {
    hide *;
    if LineSettled(AtLineEnd(Append(p, first)).value) {
      forall x
        ensures FeedAll(p, [first, x]) == Feed(p, first + x)
      {
        SettledCall(p, first, x);
      }
    } else {
      var x := UnsettledSplit(p, first);
      assert FeedAll(p, [first, x]) != Feed(p, first + x);
    }
  }

  /** An unsettled line that comes as a piece of its own is rejected, though with the bytes of
      the next piece behind it it is accepted. */
  lemma UnsettledSplit(p: Parser, first: seq<byte>) returns (x: seq<byte>)
    requires Valid(p) && Valid(Append(p, first)) && AtLineEnd(Append(p, first)).Some?
    requires var q := AtLineEnd(Append(p, first)).value; q.offset + 1 == |q.raw| && !LineSettled(q)
    ensures FeedAll(p, [first, x]).Reject? && Feed(p, first + x).NeedMore?
  {
    hide *;
    x := UnsettledCall(Append(p, first));
    FeedIs(p, first);
    FeedIs(p, first + x);
    FeedIs(Append(p, first), x);
    TwoPieces(p, first, x);
    AppendTwice(p, first, x);
  }

  // ---------- a start line that is not settled ----------

  lemma {:induction false} TokenTowards(p: Parser, e: nat)
    requires Valid(p) && (p.stateM == SM_TOKEN1 || p.stateM == SM_TOKEN2 || p.stateM == SM_TOKEN3)
    requires p.offset <= e < |p.raw| && forall i :: p.offset <= i < e ==> !IsDelimiter(p.raw[i])
    ensures Valid(p.(offset := e)) && AtLineEnd(p) == AtLineEnd(p.(offset := e))
    decreases e - p.offset
  {
    hide AtLineEnd;
    if p.offset < e {
      var q := p.(offset := p.offset + 1);
      Towards(p, q);
      TokenTowards(q, e);
    }
  }

  /** One token from its first byte up to the delimiter behind it. */
  function AfterToken(p: Parser, e: int): Parser
    requires p.stateM == SM_START_LINE || p.stateM == SM_SP1 || p.stateM == SM_SP2
  {
    SetToken(p, p.stateM / 2, Span(p.offset, e - p.offset)).(offset := e, stateM := p.stateM + 2)
  }

  lemma TokenStart(p: Parser)
    requires Valid(p) && (p.stateM == SM_START_LINE || p.stateM == SM_SP1 || p.stateM == SM_SP2)
    requires p.offset < |p.raw| && !IsDelimiter(p.raw[p.offset])
    ensures var s := Set(p, p.stateM, p.offset).(stateM := p.stateM + 1); Valid(s) && AtLineEnd(p) == AtLineEnd(s)
  {
    Towards(p, Set(p, p.stateM, p.offset).(stateM := p.stateM + 1));
  }

  lemma TokenEnd(p: Parser)
    requires Valid(p) && (p.stateM == SM_TOKEN1 || p.stateM == SM_TOKEN2 || p.stateM == SM_TOKEN3)
    requires p.offset < |p.raw| && IsDelimiter(p.raw[p.offset])
    ensures var s := Set(p, p.stateM, p.offset - Get(p, p.stateM - 1)).(stateM := p.stateM + 1);
      Valid(s) && AtLineEnd(p) == AtLineEnd(s)
  {
    Towards(p, Set(p, p.stateM, p.offset - Get(p, p.stateM - 1)).(stateM := p.stateM + 1));
  }

  lemma TokenSpan(p: Parser, e: int)
    requires p.stateM == SM_START_LINE || p.stateM == SM_SP1 || p.stateM == SM_SP2
    ensures var s := Set(p, p.stateM, p.offset).(stateM := p.stateM + 1, offset := e);
      Set(s, s.stateM, e - Get(s, s.stateM - 1)).(stateM := s.stateM + 1) == AfterToken(p, e)
  {
  }

  lemma TokenPart(p: Parser, e: nat)
    requires Valid(p) && (p.stateM == SM_START_LINE || p.stateM == SM_SP1 || p.stateM == SM_SP2)
    requires 0 <= p.offset < e < |p.raw| && IsDelimiter(p.raw[e])
    requires forall i :: p.offset <= i < e ==> !IsDelimiter(p.raw[i])
    ensures Valid(AfterToken(p, e)) && AtLineEnd(p) == AtLineEnd(AfterToken(p, e))
  {
    hide AtLineEnd, Valid, Get, Step, AfterToken;
    TokenStart(p);
    TokenSpan(p, e);
    var s := Set(p, p.stateM, p.offset).(stateM := p.stateM + 1);
    assert s.raw == p.raw && s.offset == p.offset;
    hide Set;
    TokenTowards(s, e);
    TokenEnd(s.(offset := e));
  }

  lemma BlankPart(p: Parser)
    requires Valid(p) && (p.stateM == SM_SP1 || p.stateM == SM_SP2)
    requires p.offset < |p.raw| && IsBlank(p.raw[p.offset])
    ensures Valid(p.(offset := p.offset + 1)) && AtLineEnd(p) == AtLineEnd(p.(offset := p.offset + 1))
  {
    Towards(p, p.(offset := p.offset + 1));
  }

  /** A request line whose version ends with its dot. */
  const OPEN_LINE: seq<byte> := Ascii("A * RTSP/01.") + [LF]

  lemma OpenLineBytes()
    ensures |OPEN_LINE| == 13 && OPEN_LINE[0] == 65 && OPEN_LINE[1] == SP && OPEN_LINE[2] == 42 && OPEN_LINE[3] == SP
    ensures OPEN_LINE[4..9] == Ascii("RTSP/") && forall i :: 4 <= i < 12 ==> !IsDelimiter(OPEN_LINE[i])
    ensures OPEN_LINE[9] == 48 && OPEN_LINE[10] == 49 && OPEN_LINE[11] == DOT && OPEN_LINE[12] == LF
  {
    var text := "A * RTSP/01.";
    assert text[0] == 'A' && text[1] == ' ' && text[2] == '*' && text[3] == ' ';
    assert text[4..9] == "RTSP/";
    assert text[9] == '0' && text[10] == '1' && text[11] == '.';
    assert forall i :: 0 <= i < 12 ==> OPEN_LINE[i] == Ascii(text)[i];
    forall i | 4 <= i < 12
      ensures !IsDelimiter(OPEN_LINE[i])
    {
      if i < 9 {
        assert text[i] == text[4..9][i - 4];
      }
    }
  }

  /** The scan of that line reads a major version and runs out behind the dot. */
  lemma OpenLineScan()
    ensures !ScanSettled(OPEN_LINE, 4) && !MajorRefused(OPEN_LINE, 4)
  {
    OpenLineBytes();
    var s := OPEN_LINE;
    assert PrefixAt(s, 4);
    assert DigitsStart(s, 9) == 9;
    DigitsEndIs(s, 9, 11);
    assert Decimal(s, 9, 11) == 10 * Decimal(s, 9, 10) + 1;
    assert Decimal(s, 9, 10) == 10 * Decimal(s, 9, 9) + 0;
    assert ScanInt(s, 9) == Some(1) && ScanIntEnd(s, 9) == 11;
    assert SpacesEnd(s, 12) == SpacesEnd(s, 13) == 13;
    assert ScanIntEnd(s, 12) == 13;
  }

  lemma OpenLineReached(p: Parser) returns (q: Parser)
    requires Valid(p) && p.server && p.stateM == SM_START_LINE && p.offset == 0 && p.raw == OPEN_LINE
    ensures Valid(q) && q.stateM == SM_LINE_LF && AtLineEnd(p) == Some(q) && q.offset == 12 && q.raw == OPEN_LINE
    ensures q.method_ == Span(0, 1) && q.uri == Span(2, 1) && q.header.name == Span(4, 8) && q.server
  {
    OpenLineBytes();
    hide Ascii;
    TokenPart(p, 1);
    var s1 := AfterToken(p, 1);
    BlankPart(s1);
    var s2 := s1.(offset := 2);
    TokenPart(s2, 3);
    var s3 := AfterToken(s2, 3);
    BlankPart(s3);
    var s4 := s3.(offset := 4);
    TokenPart(s4, 12);
    var s5 := AfterToken(s4, 12);
    q := s5.(stateM := SM_LINE_LF);
    Towards(s5, q);
  }

  /** A server that is fed this line rejects it; with the right bytes behind it in the same call it
      does not. */
  lemma OpenLineUnsettled(p: Parser) returns (x: seq<byte>)
    requires Fresh(p) && p.server
    ensures !SettledWith(p, OPEN_LINE)
    ensures FeedAll(p, [OPEN_LINE, x]).Reject? && Feed(p, OPEN_LINE + x).NeedMore?
  {
    AppendValid(p, OPEN_LINE);
    var s := Append(p, OPEN_LINE);
    assert s.raw == OPEN_LINE;
    var q := OpenLineReached(s);
    OpenLineBytes();
    OpenLineScan();
    assert LineBytes(q) == OPEN_LINE;
    hide ScanSettled, MajorRefused, AtLineEnd, Valid;
    x := UnsettledSplit(p, OPEN_LINE);
  }
}
