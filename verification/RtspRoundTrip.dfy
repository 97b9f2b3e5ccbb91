/** A rendered response is read back however it is cut into pieces, with a body of the announced
    length or in the chunked transfer coding. */
module RtspRoundTrip {
  import opened Bytes
  import opened RtspChunked
  import opened RtspModel
  import opened RtspRender
  import opened RtspRun
  import opened RtspSplit
  import opened Seqs

  // ---------- the body leaves the head as it is ----------

  ghost predicate KeepsHead(p: Parser, q: Parser) {
    q.vermajor == p.vermajor && q.verminor == p.verminor && q.code == p.code && q.reason == p.reason &&
    q.headers == p.headers && q.method_ == p.method_ && q.uri == p.uri && SameNotes(p, q)
  }

  lemma BodyStepKeeps(p: Parser)
    requires Valid(p) && p.stateM >= SM_BODY && Step(p).Go?
    ensures KeepsHead(p, Step(p).next) && Step(p).next.stateM >= SM_BODY
  {
    hide Valid, ChunkOk, IsChunked, Moved, HexValue;
  }

  lemma {:induction false} BodyKeeps(p: Parser)
    requires Valid(p) && p.stateM >= SM_BODY && !Run(p).Reject?
    ensures KeepsHead(p, Run(p).state)
    decreases Unread(p), StatesLeft(p)
  {
    RunStep(p);
    if Step(p).Go? {
      BodyStepKeeps(p);
      StepProgress(p);
      hide Run, Step, Valid;
      BodyKeeps(Step(p).next);
    }
  }

  // ---------- chunked responses ----------

  /** Status line and headers are read the same after bytes behind them were moved. */
  lemma HeadReadsKept(p: Parser, q: Parser, r: Response)
    requires Valid(p) && p.stateM == SM_BODY && 0 <= p.offset <= |p.raw| && HeadReads(p, r) && p.reason.End() < p.offset
    requires KeepsHead(p, q) && |q.raw| >= p.offset && q.raw[..p.offset] == p.raw[..p.offset]
    ensures HeadReads(q, r)
  {
    hide Valid, Atoi, Reads;
    SpanKept(p.raw, q.raw, p.reason, r.reason);
    TableKept(p, q, r.fields);
  }

  lemma TableKept(p: Parser, q: Parser, fs: seq<Field>)
    requires Valid(p) && p.stateM == SM_BODY && 0 <= p.offset <= |p.raw| && Table(p, fs)
    requires q.headers == p.headers && |q.raw| >= p.offset && q.raw[..p.offset] == p.raw[..p.offset]
    ensures Table(q, fs)
  {
    assert HeadersOk(p.headers, p.offset);
    hide Valid, Reads;
    forall i | 0 <= i < |fs|
      ensures Reads(q.raw, q.headers[i], fs[i])
    {
      assert HeaderOk(p.headers[i]);
      HeaderKept(p, q, p.headers[i], fs[i]);
    }
  }

  lemma HeaderKept(p: Parser, q: Parser, h: Header, f: Field)
    requires HeaderOk(h) && Reads(p.raw, h, f) && h.value.End() < p.offset <= |p.raw|
    requires |q.raw| >= p.offset && q.raw[..p.offset] == p.raw[..p.offset]
    ensures Reads(q.raw, h, f)
  {
    forall i | 0 <= i < p.offset
      ensures q.raw[i] == p.raw[i]
    {
      assert q.raw[..p.offset][i] == p.raw[..p.offset][i];
    }
    hide SpanReads;
    SpanParts(p.raw, h.name, f.name);
    SpanParts(p.raw, h.value, f.value);
    SpanKept(p.raw, q.raw, h.name, f.name);
    SpanKept(p.raw, q.raw, h.value, f.value);
  }

  lemma SpanParts(raw: seq<byte>, s: Span, text: seq<byte>)
    requires SpanReads(raw, s, text)
    ensures 0 <= s.pos && 0 <= s.len && s.End() < |raw|
  {
  }

  /** A response with Transfer-Encoding: chunked and an encoded body: the call completes, the head
      is read back, and the content is the data of the chunks joined. */
  lemma ChunkedRoundTrip(p: Parser, r: Response, b: Coded, name: seq<byte>) returns (q: Parser)
    requires Fresh(p) && !p.server && IsResponse(r) && FramedAll(r.fields, UNFRAMED).coded
    requires r.body == Encode(b) && IsCoded(b)
    ensures Valid(Append(p, Render(r))) && Run(Append(p, Render(r))) == Done(q) && HeadReads(q, r)
    ensures Notes(p, q, 0, r.fields)
    ensures FieldNamed(r.fields, name, 0) ==
      match FindHeader(q, name, 0) { case None => None case Some(i) => Some(CString(q.raw, q.headers[i].value.pos)) }
    ensures q.contentLength == |Joined(b.chunks)| && 0 <= q.offset && q.offset + q.contentLength <= |q.raw|
    ensures q.raw[q.offset..q.offset + q.contentLength] == Joined(b.chunks) && q.chunk.offset == |q.raw|
  {
    hide *;
    var t := HeadRun(p, r);
    CodedResponse(r);
    FramingIs(t);
    DecodeEncoded(t.raw, t.offset, b);
    ChunkedBody(t);
    q := Run(t).state;
    BodyKeeps(t);
    HeadReadsKept(t, q, r);
    NotesKept(p, t, q, r.fields);
    HeadTable(q, r);
    FoundByName(q, r.fields, name, 0);
  }

  lemma NotesKept(p: Parser, t: Parser, q: Parser, fs: seq<Field>)
    requires Notes(p, t, 0, fs) && KeepsHead(t, q)
    ensures Notes(p, q, 0, fs)
  {
    hide Marked, Closings, ValuePlaces;
  }

  lemma HeadTable(q: Parser, r: Response)
    requires HeadReads(q, r)
    ensures Table(q, r.fields)
  {
  }

  lemma FramingIs(p: Parser)
    ensures FramingOf(p) == Framing(p.contentLength, IsChunked(p))
  {
  }

  lemma CodedResponse(r: Response)
    requires IsResponse(r) && FramedAll(r.fields, UNFRAMED).coded
    ensures FramedAll(r.fields, UNFRAMED).length == -1
  {
    CodedLength(r.fields, UNFRAMED);
  }

  /** A coded body has no length. */
  lemma {:induction false} CodedLength(fs: seq<Field>, before: Framing)
    requires IsFields(fs, before) && (before.coded ==> before.length == -1) && FramedAll(fs, before).coded
    ensures FramedAll(fs, before).length == -1
    decreases |fs|
  {
    if fs != [] {
      CodedLength(fs[1..], Framed(fs[0], before));
    }
  }

  // ---------- nothing is complete before the last byte ----------

  /** Every byte belongs to the message. */
  predicate AllUsed(q: Parser) {
    q.offset + q.contentLength == |q.raw| || q.chunk.offset == |q.raw|
  }

  lemma StepInside(p: Parser)
    requires Valid(p) && p.chunk.offset <= |p.raw| && Step(p).Go?
    ensures Step(p).next.chunk.offset <= |Step(p).next.raw| == |p.raw|
  {
    StepProgress(p);
    if p.stateM < SM_BODY {
      HeadChunk(p);
    } else {
      hide Valid, IsChunked, Moved, HexValue;
    }
  }

  lemma HeadChunk(p: Parser)
    requires Valid(p) && p.stateM < SM_BODY && Step(p).Go?
    ensures Step(p).next.chunk.offset == 0
  {
    StepValid(p);
  }

  lemma {:induction false} RunInside(p: Parser)
    requires Valid(p) && p.chunk.offset <= |p.raw| && Run(p).Done?
    ensures Run(p).state.chunk.offset <= |Run(p).state.raw|
    decreases Unread(p), StatesLeft(p)
  {
    RunStep(p);
    if Step(p).Go? {
      StepInside(p);
      StepProgress(p);
      hide Run, Step, Valid;
      RunInside(Step(p).next);
    }
  }

  lemma DoneUsed(q: Parser)
    requires Valid(q) && q.stateM == SM_DONE
    ensures q.offset + q.contentLength <= |q.raw|
  {
  }

  /** Bytes behind a complete message are not used by it. */
  lemma SurplusUnused(s: Parser, rest: seq<byte>)
    requires Valid(s) && s.chunk.offset <= |s.raw| && Settled(s) && Run(s).Done? && rest != []
    ensures Feed(s, rest).Done? ==> !AllUsed(Feed(s, rest).state)
  {
    RunInside(s);
    DoneUsed(Run(s).state);
    DoneLater(s, rest);
    hide Run, Feed, Valid, Settled, ByLength;
  }

  /** A message that needs all of its bytes is not complete before. */
  lemma NotBefore(p: Parser, first: seq<byte>, rest: seq<byte>)
    requires Valid(p) && p.chunk.offset <= |p.raw| && SettledWith(p, first + rest) && rest != []
    requires Feed(p, first + rest).Done? && AllUsed(Feed(p, first + rest).state)
    ensures !Feed(p, first).Done?
  {
    AppendTwice(p, first, rest);
    FeedIs(p, first);
    FeedIs(p, first + rest);
    var s := Append(p, first);
    FeedIs(s, rest);
    SettledEarlier(s, rest);
    hide Run, Settled, Feed, AllUsed;
    if Run(s).Done? {
      SurplusUnused(s, rest);
    }
  }

  lemma {:induction false} NoneEarly(p: Parser, pieces: seq<seq<byte>>)
    requires Valid(p) && p.chunk.offset <= |p.raw| && pieces != [] && SettledWith(p, Concat(pieces))
    requires forall i :: 0 <= i < |pieces| ==> pieces[i] != []
    requires Feed(p, Concat(pieces)).Done? && AllUsed(Feed(p, Concat(pieces)).state)
    ensures !DoneEarly(p, pieces)
    decreases |pieces|
  {
    if |pieces| > 1 {
      hide Feed, SettledWith, AllUsed, Valid;
      var first, rest := pieces[0], Concat(pieces[1..]);
      assert rest == pieces[1] + Concat(pieces[1..][1..]);
      NotBefore(p, first, rest);
      FeedTwice(p, first, rest);
      if Feed(p, first).NeedMore? {
        PauseInside(p, first);
        NoneEarly(Feed(p, first).state, pieces[1..]);
      }
    }
  }

  lemma {:induction false} WaitInside(p: Parser)
    requires Valid(p) && p.chunk.offset <= |p.raw| && Run(p).NeedMore?
    ensures Run(p).state.chunk.offset <= |Run(p).state.raw|
    decreases Unread(p), StatesLeft(p)
  {
    RunStep(p);
    if Step(p).Go? {
      StepInside(p);
      StepProgress(p);
      hide Run, Step, Valid;
      WaitInside(Step(p).next);
    }
  }

  lemma PauseInside(p: Parser, data: seq<byte>)
    requires Valid(p) && p.chunk.offset <= |p.raw| && Feed(p, data).NeedMore?
    ensures Valid(Feed(p, data).state) && Feed(p, data).state.chunk.offset <= |Feed(p, data).state.raw|
  {
    FeedIs(p, data);
    hide Run, Feed, Valid;
    WaitInside(Append(p, data));
  }

  // ---------- the version of a reply stands within its line ----------

  /** A client's parser in front of or behind a version that is followed by a space. */
  ghost predicate VersionFirst(p: Parser)
    requires p.stateM <= SM_LINE_LF
  {
    !p.server && 9 <= |p.raw| && PrefixAt(p.raw, 0) && IsDigit(p.raw[5]) && p.raw[6] == DOT && IsDigit(p.raw[7]) &&
    p.raw[8] == SP &&
    (forall i :: 0 <= i < 8 ==> !IsDelimiter(p.raw[i])) &&
    (p.stateM == SM_START_LINE ==> p.offset == 0) &&
    (p.stateM >= SM_TOKEN1 ==> p.header.name.pos == 0) &&
    (p.stateM > SM_TOKEN1 ==> 8 <= p.offset)
  }

  lemma VersionStep(p: Parser)
    requires Valid(p) && p.stateM < SM_LINE_LF && VersionFirst(p) && Step(p).Go?
    ensures Step(p).next.stateM <= SM_LINE_LF && VersionFirst(Step(p).next)
  {
    StartStepValid(p);
    hide Valid, PrefixAt;
  }

  lemma {:induction false} VersionKept(p: Parser)
    requires Valid(p) && p.stateM <= SM_LINE_LF && VersionFirst(p) && AtLineEnd(p).Some?
    ensures VersionFirst(AtLineEnd(p).value)
    decreases Unread(p), StatesLeft(p)
  {
    if p.stateM < SM_LINE_LF {
      VersionStep(p);
      StepProgress(p);
      hide Step, Valid, VersionFirst;
      VersionKept(Step(p).next);
    }
  }

  lemma VersionSettled(p: Parser)
    requires Valid(p) && p.stateM == SM_LINE_LF && VersionFirst(p)
    ensures LineSettled(p)
  {
    assert p.offset > 8;
    var s := LineBytes(p);
    hide Valid;
    assert s[0..5] == p.raw[0..5];
    ScanDigit(s, 5, s[5] - 48);
    ScanDigit(s, 7, s[7] - 48);
    hide ScanInt, ScanIntEnd, DigitsEnd, SpacesEnd;
  }

  lemma ReplySettled(p: Parser, r: Response)
    requires Fresh(p) && !p.server && IsStatus(r)
    ensures SettledWith(p, Render(r))
  {
    hide Valid, Render, IsStatus, PrefixAt, LineSettled, LineShapeOk;
    FreshInside(p);
    AppendValid(p, Render(r));
    var s := Append(p, Render(r));
    assert s.raw == Render(r);
    VersionRendered(s.raw, r);
    if AtLineEnd(s).Some? {
      VersionKept(s);
      VersionSettled(AtLineEnd(s).value);
    }
  }

  lemma VersionRendered(raw: seq<byte>, r: Response)
    requires IsStatus(r) && raw == Render(r)
    ensures 9 <= |raw| && PrefixAt(raw, 0) && IsDigit(raw[5]) && raw[6] == DOT && IsDigit(raw[7]) && raw[8] == SP
    ensures forall i :: 0 <= i < 8 ==> !IsDelimiter(raw[i])
  {
    RenderParts(raw, r);
    StatusBytes(raw, r);
    VersionBytes(raw, r.major, r.minor);
  }

  // ---------- any pieces ----------

  /** A rendered response that completes a call and uses all of its bytes gives the same result in
      any pieces. */
  lemma PiecesSame(p: Parser, r: Response, pieces: seq<seq<byte>>)
    requires Fresh(p) && !p.server && IsResponse(r) && Concat(pieces) == Render(r) && pieces != []
    requires forall i :: 0 <= i < |pieces| ==> pieces[i] != []
    requires Feed(p, Render(r)).Done? && AllUsed(Feed(p, Render(r)).state)
    ensures FeedAll(p, pieces) == Feed(p, Render(r))
  {
    ReplySettled(p, r);
    FreshInside(p);
    hide *;
    NoneEarly(p, pieces);
    SplitAnywhere(p, pieces);
  }

  lemma FreshInside(p: Parser)
    requires Fresh(p)
    ensures Valid(p) && p.chunk.offset <= |p.raw|
  {
  }

  /** A rendered response, fed in any non-empty pieces, is read back. */
  lemma PiecesRoundTrip(p: Parser, r: Response, pieces: seq<seq<byte>>, name: seq<byte>) returns (q: Parser)
    requires Fresh(p) && !p.server && IsResponse(r) && !FramedAll(r.fields, UNFRAMED).coded
    requires Concat(pieces) == Render(r) && pieces != [] && forall i :: 0 <= i < |pieces| ==> pieces[i] != []
    ensures FeedAll(p, pieces) == Done(q) && HeadReads(q, r) && Notes(p, q, 0, r.fields)
    ensures FieldNamed(r.fields, name, 0) ==
      match FindHeader(q, name, 0) { case None => None case Some(i) => Some(CString(q.raw, q.headers[i].value.pos)) }
    ensures q.contentLength == |r.body| && 0 <= q.offset && |q.raw| == q.offset + q.contentLength &&
      q.raw[q.offset..] == r.body
  {
    hide *;
    q := ResponseRoundTrip(p, r, name);
    HasStatus(r);
    FreshInside(p);
    FeedIs(p, Render(r));
    Used(q);
    PiecesSame(p, r, pieces);
  }

  /** The same for a chunked response, whose content is the chunks joined. */
  lemma ChunkedPieces(p: Parser, r: Response, b: Coded, pieces: seq<seq<byte>>, name: seq<byte>) returns (q: Parser)
    requires Fresh(p) && !p.server && IsResponse(r) && FramedAll(r.fields, UNFRAMED).coded
    requires r.body == Encode(b) && IsCoded(b)
    requires Concat(pieces) == Render(r) && pieces != [] && forall i :: 0 <= i < |pieces| ==> pieces[i] != []
    ensures FeedAll(p, pieces) == Done(q) && HeadReads(q, r) && Notes(p, q, 0, r.fields)
    ensures FieldNamed(r.fields, name, 0) ==
      match FindHeader(q, name, 0) { case None => None case Some(i) => Some(CString(q.raw, q.headers[i].value.pos)) }
    ensures q.contentLength == |Joined(b.chunks)| && 0 <= q.offset && q.offset + q.contentLength <= |q.raw|
    ensures q.raw[q.offset..q.offset + q.contentLength] == Joined(b.chunks) && q.chunk.offset == |q.raw|
  {
    hide *;
    q := ChunkedRoundTrip(p, r, b, name);
    HasStatus(r);
    FreshInside(p);
    FeedIs(p, Render(r));
    Used(q);
    PiecesSame(p, r, pieces);
  }

  lemma HasStatus(r: Response)
    requires IsResponse(r)
    ensures IsStatus(r)
  {
  }

  lemma Used(q: Parser)
    ensures AllUsed(q) <==> q.offset + q.contentLength == |q.raw| || q.chunk.offset == |q.raw|
  {
  }
}
