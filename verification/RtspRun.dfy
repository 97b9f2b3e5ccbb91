/** Every step keeps the invariant and makes progress, so a call's work is a terminating run. */
module RtspRun {
  import opened Bytes
  import opened RtspModel

  lemma SetTokenFrame(p: Parser, i: int, x: int)
    requires 0 <= i < 6
    ensures Token(Set(p, i, x), i / 2) == (var s := Token(p, i / 2); if i % 2 == 0 then s.(pos := x) else s.(len := x))
    ensures forall k :: 0 <= k < 3 && k != i / 2 ==> Token(Set(p, i, x), k) == Token(p, k)
  {
  }

  /** A scanning step touches nothing but the state, the cursor and the spans it records. */
  ghost predicate Moves(p: Parser, q: Parser) {
    q.raw == p.raw && q.contentLength == p.contentLength && q.stateM < SM_BODY &&
    (q.offset == p.offset + 1 || (q.offset == p.offset && q.stateM > p.stateM))
  }

  lemma LineStartValid(p: Parser)
    requires Valid(p) && p.offset < |p.raw|
    requires p.stateM == SM_START_LINE || p.stateM == SM_SP1 || p.stateM == SM_SP2
    ensures StartStep(p).Go? && Valid(StartStep(p).next) && Moves(p, StartStep(p).next)
  {
    hide HeadersOk, HeaderLineOk, ChunkOk, IsDelimiter;
    SetTokenFrame(p, p.stateM, p.offset);
  }

  lemma LineTokenValid(p: Parser)
    requires Valid(p) && p.offset < |p.raw|
    requires p.stateM == SM_TOKEN1 || p.stateM == SM_TOKEN2 || p.stateM == SM_TOKEN3
    ensures StartStep(p).Go? && Valid(StartStep(p).next) && Moves(p, StartStep(p).next)
  {
    hide HeadersOk, HeaderLineOk, ChunkOk, IsDelimiter;
    SetTokenFrame(p, p.stateM, p.offset - Get(p, p.stateM - 1));
  }

  lemma LineTailValid(p: Parser)
    requires Valid(p) && p.offset < |p.raw|
    requires p.stateM == SM_SP3 || p.stateM == SM_LINE_CR
    requires StartStep(p).Go?
    ensures Valid(StartStep(p).next) && Moves(p, StartStep(p).next)
  {
    hide HeadersOk, HeaderLineOk, ChunkOk;
    assert IsChunked(StartStep(p).next) == IsChunked(p);
  }

  /** Where the terminators of a start line go. */
  lemma LineSpans(p: Parser)
    requires Valid(p) && p.stateM == SM_LINE_LF
    ensures Recorded(p, 0) && Recorded(p, 1) && Recorded(p, 2)
    ensures p.server ==> 0 <= p.method_.End() < |p.raw| && 0 <= p.uri.End() < |p.raw|
    ensures !p.server ==> 0 <= p.reason.End() < |p.raw| && 0 <= p.header.value.pos <= p.header.value.End() < |p.raw|
  {
    assert Recorded(p, 0) && Recorded(p, 1) && Recorded(p, 2);
    hide EncodingSettled;
  }

  lemma LineAcceptedValid(p: Parser, version: (int, int))
    requires Valid(p) && p.stateM == SM_LINE_LF
    ensures Valid(LineAccepted(p, version))
  {
    LineSpans(p);
    var q := LineAccepted(p, version);
    assert q.headers == [] && q.transferEncoding == 0 && q.contentLength == -1;
    hide Recorded, Terminate, CString, Atoi, ChunkedAt;
    assert HeaderLineOk(q);
  }

  lemma LineEndValid(p: Parser)
    requires Valid(p) && p.stateM == SM_LINE_LF && LineEnd(p).Go?
    ensures Valid(LineEnd(p).next)
  {
    LineAcceptedValid(p, ScanVersion(p.raw, p.header.name.pos).value);
  }

  lemma StartStepValid(p: Parser)
    requires Valid(p) && p.stateM <= 8 && p.offset < |p.raw|
    requires StartStep(p).Go?
    ensures Valid(StartStep(p).next)
    ensures p.stateM != SM_LINE_LF ==> Moves(p, StartStep(p).next)
  {
    if p.stateM == SM_START_LINE || p.stateM == SM_SP1 || p.stateM == SM_SP2 {
      LineStartValid(p);
    } else if p.stateM == SM_TOKEN1 || p.stateM == SM_TOKEN2 || p.stateM == SM_TOKEN3 {
      LineTokenValid(p);
    } else if p.stateM == SM_LINE_LF {
      LineEndValid(p);
    } else {
      LineTailValid(p);
    }
  }

  /** Writes at or after the terminator of "chunked" do not change whether a body is chunked. */
  lemma ChunkedFrame(raw: seq<byte>, raw': seq<byte>, p: int)
    requires |raw'| >= |raw|
    requires 0 <= p && p + 7 <= |raw| ==> raw'[p..p + 7] == raw[p..p + 7]
    requires p + 7 <= |raw|
    ensures ChunkedAt(raw', p) == ChunkedAt(raw, p)
  {
  }

  /** Overwriting bytes with zeros or spaces cannot spell "chunked". */
  lemma ChunkedNotMade(raw: seq<byte>, raw': seq<byte>, p: int)
    requires |raw'| == |raw|
    requires forall i :: 0 <= i < |raw| ==> raw'[i] == raw[i] || raw'[i] == 0 || raw'[i] == SP
    ensures ChunkedAt(raw', p) ==> ChunkedAt(raw, p)
  {
    if ChunkedAt(raw', p) {
      var word := Ascii("chunked");
      assert forall i :: 0 <= i < 7 ==> Lower(word[i]) != 0 && Lower(word[i]) != SP;
      forall i | 0 <= i < 7
        ensures Lower(raw[p..p + 7][i]) == Lower(word[i])
      {
        assert Lower(raw'[p..p + 7][i]) == Lower(word[i]);
      }
    }
  }

  /** Writing terminators and blanks keeps a settled value settled. */
  lemma SettledFrame(raw: seq<byte>, raw': seq<byte>, at: int, offset: int)
    requires EncodingSettled(raw, at, offset)
    requires |raw| <= |raw'|
    requires forall i :: 0 <= i < offset && i < |raw| ==> raw'[i] == raw[i] || IsStop(raw'[i])
    ensures EncodingSettled(raw', at, offset)
  {
    if 0 < at && offset < at + 7 {
      var i :| at <= i < offset && i < |raw| && IsStop(raw[i]);
      assert IsStop(raw'[i]);
    }
  }

  lemma HeaderStartValid(p: Parser)
    requires Valid(p) && p.stateM == SM_HEADER && p.offset < |p.raw|
    ensures HeaderStep(p).Go? && Valid(HeaderStep(p).next) && Moves(p, HeaderStep(p).next)
  {
    assert IsChunked(HeaderStep(p).next) == IsChunked(p);
  }

  lemma HeaderNameValid(p: Parser)
    requires Valid(p) && p.stateM == SM_HEADER_NAME && p.offset < |p.raw|
    ensures HeaderStep(p).Go? && Valid(HeaderStep(p).next) && Moves(p, HeaderStep(p).next)
  {
    assert IsChunked(HeaderStep(p).next) == IsChunked(p);
  }

  lemma HeaderColonValid(p: Parser)
    requires Valid(p) && (p.stateM == SM_HEADER_SP1 || p.stateM == SM_HEADER_SEPARATOR) && p.offset < |p.raw|
    requires HeaderStep(p).Go?
    ensures Valid(HeaderStep(p).next) && Moves(p, HeaderStep(p).next)
  {
    assert IsChunked(HeaderStep(p).next) == IsChunked(p);
  }

  lemma HeaderValueStartValid(p: Parser)
    requires Valid(p) && p.stateM == SM_HEADER_SP2 && p.offset < |p.raw|
    ensures HeaderStep(p).Go? && Valid(HeaderStep(p).next) && Moves(p, HeaderStep(p).next)
  {
    assert IsChunked(HeaderStep(p).next) == IsChunked(p);
  }

  lemma HeaderValueValid(p: Parser)
    requires Valid(p) && p.stateM == SM_HEADER_VALUE && p.offset < |p.raw|
    ensures HeaderStep(p).Go? && Valid(HeaderStep(p).next) && Moves(p, HeaderStep(p).next)
  {
    assert IsChunked(HeaderStep(p).next) == IsChunked(p);
  }

  lemma HeaderTailValid(p: Parser)
    requires Valid(p) && p.stateM == SM_HEADER_SP3 && p.offset < |p.raw|
    ensures HeaderStep(p).Go? && Valid(HeaderStep(p).next) && Moves(p, HeaderStep(p).next)
  {
    assert IsChunked(HeaderStep(p).next) == IsChunked(p);
  }

  lemma HeaderReturnValid(p: Parser)
    requires Valid(p) && p.stateM == SM_HEADER_CR && p.offset < |p.raw|
    requires HeaderStep(p).Go?
    ensures Valid(HeaderStep(p).next) && Moves(p, HeaderStep(p).next)
  {
    assert IsChunked(HeaderStep(p).next) == IsChunked(p);
  }

  /** What Handle needs and keeps: the header it looks at is the last one, terminated before
      the cursor. */
  lemma HandleValid(p: Parser, h: Header, limit: int)
    requires 0 < h.name.pos && 0 < h.value.pos && 0 <= h.value.len && h.value.End() < limit <= |p.raw|
    requires p.raw[h.value.End()] == 0
    requires IsChunked(p) ==> p.transferEncoding + 7 < limit
    requires -1 <= p.contentLength
    requires EncodingSettled(p.raw, p.transferEncoding, limit - 1)
    requires ChunkedAt(p.raw, h.value.pos) ==> h.value.pos + 7 < |p.raw|
    requires Handle(p, h.name.pos, h.value.pos).Some?
    ensures var q := Handle(p, h.name.pos, h.value.pos).value;
      && (IsChunked(q) ==> q.transferEncoding + 7 < limit)
      && EncodingSettled(q.raw, q.transferEncoding, limit)
      && -1 <= q.contentLength && |q.raw| == |p.raw|
      && q.(contentLength := p.contentLength, connectionClose := p.connectionClose,
            contentEncoding := p.contentEncoding, transferEncoding := p.transferEncoding,
            raw := p.raw, cookie := p.cookie, location := p.location) == p
  {
    hide Handle, ChunkedAt, Terminate, EncodingSettled;
    TerminatedValue(p.raw, h.value);
    HandleShape(p, h.name.pos, h.value.pos);
    var q := Handle(p, h.name.pos, h.value.pos).value;
    HandleWrites(p.raw, q.raw, h.value.pos);
    if IsChunked(q) {
      ChunkedNotMade(p.raw, q.raw, q.transferEncoding);
    }
    SettledFrame(p.raw, q.raw, p.transferEncoding, limit - 1);
    SettledLonger(q.raw, p.transferEncoding, limit - 1);
    SettledByStop(q.raw, h.value.pos, h.value.End(), limit);
  }

  /** What handling a header can change. */
  lemma HandleShape(p: Parser, npos: int, vpos: int)
    requires 0 <= npos && 0 <= vpos && (ChunkedAt(p.raw, vpos) ==> vpos + 7 < |p.raw|)
    requires Handle(p, npos, vpos).Some?
    ensures var q := Handle(p, npos, vpos).value;
      && (q.raw == p.raw || (ChunkedAt(p.raw, vpos) && q.raw == Terminate(p.raw, vpos + 7)))
      && (q.transferEncoding == p.transferEncoding || q.transferEncoding == vpos)
      && (q.contentLength == p.contentLength || 0 <= q.contentLength)
      && q.(contentLength := p.contentLength, connectionClose := p.connectionClose,
            contentEncoding := p.contentEncoding, transferEncoding := p.transferEncoding,
            raw := p.raw, cookie := p.cookie, location := p.location) == p
  {
    hide ChunkedAt, CString, EqNoCase, Ascii, Atoi, IsChunked, Terminate;
  }

  lemma HandleWrites(raw: seq<byte>, raw': seq<byte>, v: int)
    requires raw' == raw || (ChunkedAt(raw, v) && v + 7 < |raw| && raw' == Terminate(raw, v + 7))
    ensures |raw'| == |raw| && forall i :: 0 <= i < |raw| ==> raw'[i] == raw[i] || raw'[i] == 0
  {
  }

  lemma SettledLonger(raw: seq<byte>, at: int, offset: int)
    requires EncodingSettled(raw, at, offset)
    ensures EncodingSettled(raw, at, offset + 1)
  {
    if 0 < at && offset < at + 7 {
      var i :| at <= i < offset && i < |raw| && IsStop(raw[i]);
    }
  }

  lemma SettledByStop(raw: seq<byte>, at: int, z: int, offset: int)
    requires at <= z < offset && 0 <= z < |raw| && IsStop(raw[z])
    ensures EncodingSettled(raw, at, offset)
  {
  }

  lemma StoreValid(p: Parser)
    requires Valid(p) && p.stateM == SM_HEADER_LF && p.header.value.pos != 0 && p.header.name.pos != 0
    requires Store(p).Some?
    ensures var q := Store(p).value;
      && |q.raw| == |p.raw| && HeadersOk(q.headers, p.offset + 1)
      && (IsChunked(q) ==> IsChunked(p)) && q.raw[p.header.value.End()] == 0
  {
    var q := Store(p).value;
    if IsChunked(q) {
      ChunkedNotMade(p.raw, q.raw, q.transferEncoding);
    }
  }

  lemma JoinValid(p: Parser)
    requires Valid(p) && p.stateM == SM_HEADER_LF && p.header.value.pos != 0 && p.header.name.pos == 0
    requires p.headers != []
    ensures var q := Join(p);
      && |q.raw| == |p.raw| && HeadersOk(q.headers, p.offset + 1) && q.headers != []
      && (IsChunked(q) ==> IsChunked(p)) && q.raw[q.headers[|q.headers| - 1].value.End()] == 0
  {
    var q := Join(p);
    if IsChunked(q) {
      ChunkedNotMade(p.raw, q.raw, q.transferEncoding);
    }
  }

  /** What the table's last entry and the rest of the state look like before it is handled. */
  ghost predicate ReadyToHandle(q: Parser, offset: int, size: int) {
    q.chunk == Chunk(0, 0, 0) && q.offset == offset && 0 < offset < |q.raw| &&
    HeadersOk(q.headers, offset + 1) && q.headers != [] &&
    q.raw[q.headers[|q.headers| - 1].value.End()] == 0 &&
    (IsChunked(q) ==> q.transferEncoding + 7 < offset + 1) &&
    EncodingSettled(q.raw, q.transferEncoding, offset) &&
    |q.raw| == size &&
    -1 <= q.contentLength
  }

  lemma StoredValid(p: Parser)
    requires Valid(p) && p.stateM == SM_HEADER_LF && p.header.value.pos != 0 && Stored(p).Some?
    ensures ReadyToHandle(Stored(p).value, p.offset, |p.raw|)
  {
    if p.header.name.pos != 0 {
      StoreValid(p);
    } else {
      JoinValid(p);
    }
    SettledFrame(p.raw, Stored(p).value.raw, p.transferEncoding, p.offset);
  }

  lemma HandledValid(q: Parser, offset: int, size: int)
    requires ReadyToHandle(q, offset, size) && HandleLast(q).Some?
    ensures var r := HandleLast(q).value;
      r.offset == offset && |r.raw| == size && r.chunk == q.chunk
    ensures Valid(HandleLast(q).value.(offset := offset + 1, stateM := SM_HEADER))
  {
    var h := q.headers[|q.headers| - 1];
    assert HeaderOk(h) && h.value.End() < offset + 1;
    TerminatedValue(q.raw, h.value);
    HandleValid(q, h, offset + 1);
    var r := HandleLast(q).value;
    HandledStateValid(r, r.(offset := offset + 1, stateM := SM_HEADER));
  }

  lemma HandledStateValid(r: Parser, v: Parser)
    requires v == r.(offset := v.offset, stateM := SM_HEADER)
    requires r.chunk == Chunk(0, 0, 0) && 0 < v.offset <= |r.raw|
    requires HeadersOk(r.headers, v.offset)
    requires IsChunked(r) ==> r.transferEncoding + 7 < v.offset
    requires EncodingSettled(r.raw, r.transferEncoding, v.offset)
    requires -1 <= r.contentLength
    ensures Valid(v)
  {
    assert IsChunked(v) == IsChunked(r);
  }

  lemma BlankLineValid(p: Parser)
    requires Valid(p) && p.stateM == SM_HEADER_LF && p.header.value.pos == 0
    ensures Valid(p.(stateM := SM_BODY, offset := p.offset + 1))
  {
    var q := p.(stateM := SM_BODY, offset := p.offset + 1);
    assert IsChunked(q) == IsChunked(p);
    assert HeadersOk(q.headers, q.offset);
  }

  lemma HeaderStoredValid(p: Parser)
    requires Valid(p) && p.stateM == SM_HEADER_LF && p.header.value.pos != 0 && HeaderEnd(p).Go?
    ensures Valid(HeaderEnd(p).next)
  {
    StoredValid(p);
    var q := Stored(p).value;
    HandledValid(q, p.offset, |p.raw|);
  }

  lemma HeaderEndValid(p: Parser)
    requires Valid(p) && p.stateM == SM_HEADER_LF && HeaderEnd(p).Go?
    ensures Valid(HeaderEnd(p).next)
  {
    if p.header.value.pos == 0 {
      BlankLineValid(p);
    } else {
      HeaderStoredValid(p);
    }
  }

  lemma HeaderStepValid(p: Parser)
    requires Valid(p) && 100 <= p.stateM <= 108 && p.offset < |p.raw|
    requires HeaderStep(p).Go?
    ensures Valid(HeaderStep(p).next)
    ensures p.stateM != SM_HEADER_LF ==> Moves(p, HeaderStep(p).next)
  {
    if p.stateM == SM_HEADER_LF {
      HeaderEndValid(p);
    } else if p.stateM == SM_HEADER {
      HeaderStartValid(p);
    } else if p.stateM == SM_HEADER_NAME {
      HeaderNameValid(p);
    } else if p.stateM <= SM_HEADER_SEPARATOR {
      HeaderColonValid(p);
    } else if p.stateM == SM_HEADER_SP2 {
      HeaderValueStartValid(p);
    } else if p.stateM == SM_HEADER_VALUE {
      HeaderValueValid(p);
    } else if p.stateM == SM_HEADER_SP3 {
      HeaderTailValid(p);
    } else {
      HeaderReturnValid(p);
    }
  }

  lemma ChunkStepValid(p: Parser)
    requires Valid(p) && IsChunked(p) && 200 <= p.stateM <= 209 && 0 < p.chunk.offset < |p.raw|
    requires ChunkStep(p).Go?
    ensures Valid(ChunkStep(p).next)
    ensures p.chunk.offset < ChunkStep(p).next.chunk.offset
  {
    hide Valid, ChunkData, IsChunked;
    if p.stateM == CHUNK_DATA {
      ChunkDataValid(p);
    } else {
      ChunkByteValid(p);
    }
  }

  /** A step of the chunk decoder that reads one byte. */
  lemma ChunkByteValid(p: Parser)
    requires Valid(p) && IsChunked(p) && 200 <= p.stateM <= 209 && 0 < p.chunk.offset < |p.raw|
    requires p.stateM != CHUNK_DATA && ChunkStep(p).Go?
    ensures Valid(ChunkStep(p).next)
    ensures p.chunk.offset < ChunkStep(p).next.chunk.offset
  {
    hide ChunkData, HeadersOk, EncodingSettled, HeaderLineOk, LineOk, IsBlank;
    assert IsChunked(ChunkStep(p).next) == IsChunked(p);
    hide IsChunked;
  }

  /** The step that moves the data of a chunk down to the decoded bytes. */
  lemma ChunkDataValid(p: Parser)
    requires Valid(p) && IsChunked(p) && p.stateM == CHUNK_DATA && 0 < p.chunk.offset < |p.raw|
    requires ChunkData(p).Go?
    ensures Valid(ChunkData(p).next)
    ensures p.chunk.offset < ChunkData(p).next.chunk.offset
  {
    hide HeadersOk, HeaderLineOk, LineOk;
    var q := ChunkData(p).next;
    var t := p.transferEncoding;
    assert q.raw[t..t + 7] == p.raw[t..t + 7];
    ChunkedFrame(p.raw, q.raw, t);
    SettledFrame(p.raw, q.raw, t, p.offset);
    hide ChunkData, Moved, ChunkedAt, EncodingSettled;
  }

  lemma BodyStepValid(p: Parser)
    requires Valid(p) && 200 <= p.stateM <= 209
    requires BodyStep(p).Go?
    ensures Valid(BodyStep(p).next)
  {
    if IsChunked(p) && p.chunk.offset != 0 {
      ChunkStepValid(p);
    } else {
      var q := BodyStep(p).next;
      assert IsChunked(q) == IsChunked(p);
    }
  }

  /** One iteration keeps the representation invariant: every recorded span lies behind the
      cursor, each header's name ends before its value and each header before the next one,
      and the decoded body never reaches an unread byte. */
  lemma StepValid(p: Parser)
    requires Valid(p) && Step(p).Go?
    ensures Valid(Step(p).next)
  {
    if p.stateM >= SM_BODY {
      BodyStepValid(p);
    } else if p.stateM >= SM_HEADER {
      HeaderStepValid(p);
    } else {
      StartStepValid(p);
    }
  }

  // ---------- termination ----------

  /** The bytes the parser has not used yet. */
  function Unread(p: Parser): (n: nat)
    requires Valid(p)
  {
    if 200 <= p.stateM <= 209 && p.chunk.offset != 0 then |p.raw| - p.chunk.offset
    else if p.stateM == SM_DONE then 0
    else |p.raw| - p.offset
  }

  /** The states that can still follow at the same byte, and the entry into the chunk decoder. */
  function StatesLeft(p: Parser): (n: nat)
    requires Valid(p)
  {
    2 * (SM_DONE - p.stateM) + (if p.contentLength == -1 then 1 else 0)
  }

  /** Although the loops step the cursor back, every iteration uses a byte or moves to a later
      state of the same line. */
  lemma StepProgress(p: Parser)
    requires Valid(p) && Step(p).Go?
    ensures Valid(Step(p).next)
    ensures |Step(p).next.raw| == |p.raw|
    ensures Unread(Step(p).next) < Unread(p) ||
            (Unread(Step(p).next) == Unread(p) && StatesLeft(Step(p).next) < StatesLeft(p))
  {
    hide HeaderStep, StartStep, BodyStep, Valid, Unread, StatesLeft;
    StateRange(p);
    StepValid(p);
    if p.stateM >= SM_BODY {
      BodyProgress(p);
    } else if p.stateM >= SM_HEADER {
      HeaderProgress(p);
    } else {
      StartProgress(p);
    }
  }

  lemma StateRange(p: Parser)
    requires Valid(p)
    ensures 0 <= p.stateM <= 8 || 100 <= p.stateM <= 108 || 200 <= p.stateM <= 209 || p.stateM == SM_DONE
  {
  }

  lemma HeaderProgress(p: Parser)
    requires Valid(p) && 100 <= p.stateM <= 108 && p.offset < |p.raw|
    requires HeaderStep(p).Go? && Valid(HeaderStep(p).next)
    ensures Progress(p, HeaderStep(p).next)
  {
    hide Valid, HeaderEnd, Progress, Moves;
    if p.stateM == SM_HEADER_LF {
      HeaderEndProgress(p);
    } else {
      HeaderStepValid(p);
      MovesProgress(p, HeaderStep(p).next);
    }
  }

  lemma StartProgress(p: Parser)
    requires Valid(p) && p.stateM <= 8 && p.offset < |p.raw|
    requires StartStep(p).Go? && Valid(StartStep(p).next)
    ensures Progress(p, StartStep(p).next)
  {
    hide Valid, LineEnd, Progress, Moves;
    if p.stateM == SM_LINE_LF {
      LineEndProgress(p);
    } else {
      StartStepValid(p);
      MovesProgress(p, StartStep(p).next);
    }
  }

  /** A step either uses bytes, or stays at its byte in a later state. */
  ghost predicate Progress(p: Parser, q: Parser)
    requires Valid(p) && Valid(q)
  {
    |q.raw| == |p.raw| &&
    (Unread(q) < Unread(p) || (Unread(q) == Unread(p) && StatesLeft(q) < StatesLeft(p)))
  }

  lemma MovesProgress(p: Parser, q: Parser)
    requires Valid(p) && Valid(q) && p.stateM < SM_BODY && Moves(p, q)
    ensures Progress(p, q)
  {
  }

  lemma LineEndProgress(p: Parser)
    requires Valid(p) && p.stateM == SM_LINE_LF && LineEnd(p).Go? && Valid(LineEnd(p).next)
    ensures Progress(p, LineEnd(p).next)
  {
  }

  lemma HeaderEndProgress(p: Parser)
    requires Valid(p) && p.stateM == SM_HEADER_LF && HeaderEnd(p).Go? && Valid(HeaderEnd(p).next)
    ensures Progress(p, HeaderEnd(p).next)
    ensures HeaderEnd(p).next.stateM == SM_BODY || HeaderEnd(p).next.stateM == SM_HEADER
    ensures HeaderEnd(p).next.offset == p.offset + 1
  {
    var q := HeaderEnd(p).next;
    if p.header.value.pos != 0 {
      StoredValid(p);
      HandledValid(Stored(p).value, p.offset, |p.raw|);
    }
    assert q.offset == p.offset + 1 && (q.stateM == SM_BODY || q.stateM == SM_HEADER) && q.chunk == p.chunk;
  }

  lemma BodyProgress(p: Parser)
    requires Valid(p) && 200 <= p.stateM <= 209
    requires BodyStep(p).Go? && Valid(BodyStep(p).next)
    ensures Progress(p, BodyStep(p).next)
  {
    if IsChunked(p) && p.chunk.offset != 0 {
      ChunkStepValid(p);
    }
  }

  // ---------- one call's work ----------

  datatype Outcome =
    | NeedMore(state: Parser)
    | Done(state: Parser)
    | Reject

  /** Steps until the bytes run out, the message is complete or an error is found. */
  function Run(p: Parser): (r: Outcome)
    requires Valid(p)
    ensures !r.Reject? ==> Valid(r.state) && |r.state.raw| == |p.raw|
    ensures r.NeedMore? ==> Step(r.state).Wait?
    ensures r.Done? ==> r.state.stateM == SM_DONE
    decreases Unread(p), StatesLeft(p)
  {
    hide Step, Valid;
    match Step(p)
    case Go(q) => StepProgress(p); Run(q)
    case Wait => NeedMore(p)
    case Finish => Done(p)
    case Bad => Reject
  }

  lemma Cursor(p: Parser)
    requires Valid(p)
    ensures 0 <= p.offset <= |p.raw|
  {
  }

  /** A run, one step at a time. */
  lemma RunStep(p: Parser)
    requires Valid(p)
    ensures Step(p).Go? ==> Valid(Step(p).next) && Run(p) == Run(Step(p).next)
    ensures Step(p).Wait? ==> Run(p) == NeedMore(p)
    ensures Step(p).Bad? ==> Run(p) == Reject
  {
    hide Step, Valid;
    if Step(p).Go? {
      StepValid(p);
    }
  }

  /** More bytes arrive behind the ones at hand. */
  function Append(p: Parser, data: seq<byte>): Parser {
    p.(raw := p.raw + data)
  }

  /** New bytes change neither the invariant nor how the body is framed. */
  lemma AppendValid(p: Parser, data: seq<byte>)
    requires Valid(p)
    ensures Valid(Append(p, data))
    ensures IsChunked(Append(p, data)) == IsChunked(p)
  {
    AppendFraming(p, data);
    SettledFrame(p.raw, p.raw + data, p.transferEncoding, p.offset);
    hide IsChunked, EncodingSettled, HeadersOk;
  }

  lemma AppendFraming(p: Parser, data: seq<byte>)
    requires 0 <= p.offset <= |p.raw| && EncodingSettled(p.raw, p.transferEncoding, p.offset)
    ensures IsChunked(Append(p, data)) == IsChunked(p)
  {
    var t, raw := p.transferEncoding, p.raw + data;
    if t > 0 {
      if t + 7 <= |p.raw| {
        assert raw[t..t + 7] == p.raw[t..t + 7];
        ChunkedFrame(p.raw, raw, t);
      } else {
        SettledFrame(p.raw, raw, t, p.offset);
        StoppedWord(raw, t, p.offset);
      }
    }
  }

  lemma StoppedWord(raw: seq<byte>, at: int, offset: int)
    requires EncodingSettled(raw, at, offset) && 0 < at && offset < at + 7
    ensures !ChunkedAt(raw, at)
  {
    var i :| at <= i < offset && i < |raw| && IsStop(raw[i]);
    if at + 7 <= |raw| {
      var word := Ascii("chunked");
      assert forall k :: 0 <= k < 7 ==> Lower(word[k]) != 0 && Lower(word[k]) != SP;
      assert raw[at..at + 7][i - at] == raw[i];
    }
  }
}
