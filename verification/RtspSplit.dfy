/** Splitting does not matter: a message fed in pieces leaves the parser exactly as it would be
    had the message come in one piece. */
module RtspSplit {
  import opened Bytes
  import opened RtspModel
  import opened RtspRun
  import opened Seqs

  // ---------- the version scan ----------

  /** The scan "RTSP/%d.%d" at pos decides before it reaches the end of these bytes. */
  predicate ScanSettled(s: seq<byte>, pos: nat) {
    pos + 5 <= |s| && (PrefixAt(s, pos) ==> NumbersSettled(s, pos + 5))
  }

  predicate NumbersSettled(s: seq<byte>, pos: nat)
    requires pos <= |s|
  {
    ScanIntEnd(s, pos) < |s| && (ScanInt(s, pos).Some? ==> MinorSettled(s, ScanIntEnd(s, pos)))
  }

  predicate MinorSettled(s: seq<byte>, pos: nat)
    requires pos < |s|
  {
    s[pos] != DOT || ScanIntEnd(s, pos + 1) < |s|
  }

  lemma NumbersSettledSame(s: seq<byte>, y: seq<byte>, pos: nat)
    requires pos <= |s| && NumbersSettled(s, pos)
    ensures ScanNumbers(s + y, pos) == ScanNumbers(s, pos)
  {
    ScanIntStable(s, y, pos);
    var e := ScanIntEnd(s, pos);
    if s[e] == DOT && ScanInt(s, pos).Some? {
      ScanIntStable(s, y, e + 1);
    }
  }

  lemma ScanSettledSame(s: seq<byte>, y: seq<byte>, pos: nat)
    requires ScanSettled(s, pos)
    ensures ScanVersion(s + y, pos) == ScanVersion(s, pos)
  {
    assert (s + y)[pos..pos + 5] == s[pos..pos + 5];
    if PrefixAt(s, pos) {
      NumbersSettledSame(s, y, pos + 5);
    }
  }

  // ---------- one step, with more bytes behind it ----------

  /** The step result when x stands behind the bytes at hand. */
  function Later(s: StepResult, x: seq<byte>): StepResult {
    if s.Go? then Go(Append(s.next, x)) else s
  }

  /** The bytes up to and with the line feed of the start line. */
  function LineBytes(p: Parser): (s: seq<byte>)
    requires Valid(p) && p.stateM == SM_LINE_LF
  {
    p.raw[..p.offset + 1]
  }

  /** The major version is read within the line and refused, whatever the minor version is. */
  predicate MajorRefused(s: seq<byte>, pos: nat) {
    PrefixAt(s, pos) && ScanIntEnd(s, pos + 5) < |s| &&
    ScanInt(s, pos + 5).Some? && ScanInt(s, pos + 5).value != 1 && ScanInt(s, pos + 5).value != 2
  }

  /** What the parser decides about the start line does not depend on later bytes: the line
      is refused for its spans, the version is read within the line, or its major number is
      refused. */
  predicate LineSettled(p: Parser)
    requires Valid(p) && p.stateM == SM_LINE_LF
  {
    LineShapeOk(p) ==>
      p.header.name.pos >= 0 &&
      (ScanSettled(LineBytes(p), p.header.name.pos) || MajorRefused(LineBytes(p), p.header.name.pos))
  }

  lemma MajorRefusedStays(s: seq<byte>, y: seq<byte>, pos: nat)
    requires MajorRefused(s, pos)
    ensures !VersionAllowed(ScanVersion(s + y, pos))
  {
    assert (s + y)[pos..pos + 5] == s[pos..pos + 5];
    ScanIntStable(s, y, pos + 5);
  }

  lemma LineEndLater(p: Parser, x: seq<byte>)
    requires Valid(p) && p.stateM == SM_LINE_LF && LineSettled(p)
    requires Valid(Append(p, x))
    ensures LineEnd(Append(p, x)) == Later(LineEnd(p), x)
  {
    hide Valid, ScanVersion, ScanSettled, MajorRefused, LineAccepted;
    if LineShapeOk(p) {
      VersionLater(p, x);
      if VersionAllowed(ScanVersion(p.raw, p.header.name.pos)) {
        LineWritesLater(p, x, ScanVersion(p.raw, p.header.name.pos).value);
      }
    }
  }

  /** The version that a settled line names is what is read with more bytes behind, or both are
      refused. */
  lemma VersionLater(p: Parser, x: seq<byte>)
    requires Valid(p) && p.stateM == SM_LINE_LF && LineShapeOk(p) && LineSettled(p)
    ensures 0 <= p.header.name.pos
    ensures var v, w := ScanVersion(p.raw, p.header.name.pos), ScanVersion(p.raw + x, p.header.name.pos);
      v == w || (!VersionAllowed(v) && !VersionAllowed(w))
  {
    var n := p.header.name.pos;
    var line := LineBytes(p);
    LineFeedAt(p);
    hide Valid, ScanVersion, VersionAllowed, ScanSettled, MajorRefused;
    var more := p.raw[p.offset + 1..];
    assert p.raw == line + more;
    assert p.raw + x == line + (more + x);
    if ScanSettled(line, n) {
      ScanSettledSame(line, more, n);
      ScanSettledSame(line, more + x, n);
    } else {
      MajorRefusedStays(line, more, n);
      MajorRefusedStays(line, more + x, n);
    }
  }

  lemma LineFeedAt(p: Parser)
    requires Valid(p) && p.stateM == SM_LINE_LF
    ensures 0 <= p.offset < |p.raw|
  {
  }

  /** The start line's terminators and the status code read after them. */
  lemma LineWritesLater(p: Parser, x: seq<byte>, version: (int, int))
    requires Valid(p) && p.stateM == SM_LINE_LF && Valid(Append(p, x))
    ensures LineAccepted(Append(p, x), version) == Append(LineAccepted(p, version), x)
  {
    LineSpans(p);
    LineSpans(Append(p, x));
    var a := if p.server then p.method_.End() else p.reason.End();
    var b := if p.server then p.uri.End() else p.header.value.End();
    TerminateLater(p.raw, x, a);
    TerminateLater(Terminate(p.raw, a), x, b);
    hide Valid, Recorded, LineOk;
    if !p.server {
      CStringPrefix(Terminate(Terminate(p.raw, a), b), x, p.header.value.pos, b);
    }
    hide CString, Atoi;
  }

  lemma TerminateLater(raw: seq<byte>, x: seq<byte>, at: int)
    requires 0 <= at < |raw|
    ensures Terminate(raw + x, at) == Terminate(raw, at) + x
  {
  }

  lemma StartStepLater(p: Parser, x: seq<byte>)
    requires Valid(p) && Valid(Append(p, x)) && p.stateM <= 8 && p.offset < |p.raw|
    requires p.stateM == SM_LINE_LF ==> LineSettled(p)
    ensures StartStep(Append(p, x)) == Later(StartStep(p), x)
  {
    hide LineEnd, Valid, Set, Get, IsDelimiter, IsBlank;
    StartState(p);
    if p.stateM == SM_LINE_LF {
      LineEndLater(p, x);
    } else if p.stateM == SM_START_LINE || p.stateM == SM_SP1 || p.stateM == SM_SP2 {
      BlankLater(p, x);
    } else if p.stateM < SM_SP3 {
      TokenLater(p, x);
    } else {
      TailLater(p, x);
    }
  }

  lemma BlankLater(p: Parser, x: seq<byte>)
    requires Valid(p) && Valid(Append(p, x)) && 0 <= p.offset < |p.raw|
    requires p.stateM == SM_START_LINE || p.stateM == SM_SP1 || p.stateM == SM_SP2
    ensures StartStep(Append(p, x)) == Later(StartStep(p), x)
  {
    hide LineEnd, Valid, Set, IsBlank;
    SlotLater(p, x, p.stateM);
  }

  lemma TokenLater(p: Parser, x: seq<byte>)
    requires Valid(p) && Valid(Append(p, x)) && 0 <= p.offset < |p.raw|
    requires p.stateM == SM_TOKEN1 || p.stateM == SM_TOKEN2 || p.stateM == SM_TOKEN3
    ensures StartStep(Append(p, x)) == Later(StartStep(p), x)
  {
    hide LineEnd, Valid, Set, Get, IsDelimiter;
    SlotLater(p, x, p.stateM);
  }

  lemma TailLater(p: Parser, x: seq<byte>)
    requires Valid(p) && Valid(Append(p, x)) && 0 <= p.offset < |p.raw|
    requires p.stateM == SM_SP3 || p.stateM == SM_LINE_CR
    ensures StartStep(Append(p, x)) == Later(StartStep(p), x)
  {
    hide LineEnd, Valid, IsBlank;
  }

  lemma StartState(p: Parser)
    requires Valid(p) && p.stateM <= 8
    ensures 0 <= p.stateM && 0 <= p.offset
  {
  }

  lemma SlotLater(p: Parser, x: seq<byte>, i: int)
    requires 0 <= i < 6
    ensures Get(Append(p, x), i) == Get(p, i) && (i > 0 ==> Get(Append(p, x), i - 1) == Get(p, i - 1))
    ensures forall v :: Set(Append(p, x), i, v) == Append(Set(p, i, v), x)
  {
  }

  lemma StoreLater(p: Parser, x: seq<byte>)
    requires Valid(p) && Valid(Append(p, x)) && p.stateM == SM_HEADER_LF && p.header.value.pos != 0
    ensures Stored(p).None? <==> Stored(Append(p, x)).None?
    ensures Stored(p).Some? ==> Stored(Append(p, x)).value == Append(Stored(p).value, x)
  {
    hide Valid, Store, Join;
    LinePlace(p);
    if p.header.name.pos != 0 {
      NewLater(p, x);
    } else if p.headers != [] {
      JoinLater(p, x);
    }
  }

  /** Where the terminators of a header line go. */
  lemma LinePlace(p: Parser)
    requires Valid(p) && p.stateM == SM_HEADER_LF && p.header.value.pos != 0
    ensures 0 <= p.header.value.len && 0 <= p.header.value.End() < |p.raw|
    ensures p.header.name.pos != 0 ==>
      0 <= p.header.name.pos && 0 <= p.header.name.len && p.header.name.End() < |p.raw|
  {
  }

  lemma NewLater(p: Parser, x: seq<byte>)
    requires 0 <= p.header.name.pos && 0 <= p.header.name.len && p.header.name.End() < |p.raw|
    requires 0 <= p.header.value.End() < |p.raw|
    ensures Store(p).None? <==> Store(Append(p, x)).None?
    ensures Store(p).Some? ==> Store(Append(p, x)).value == Append(Store(p).value, x)
  {
    hide IsToken;
    var n, v := p.header.name, p.header.value;
    assert (p.raw + x)[n.pos..n.End()] == p.raw[n.pos..n.End()];
    TerminateLater(p.raw, x, n.End());
    TerminateLater(Terminate(p.raw, n.End()), x, v.End());
  }

  lemma JoinLater(p: Parser, x: seq<byte>)
    requires p.headers != [] && 0 <= p.header.value.len && 0 <= p.header.value.End() < |p.raw|
    ensures Join(Append(p, x)) == Append(Join(p), x)
  {
    var from, v := p.headers[|p.headers| - 1].value.len, p.header.value;
    BlankedLater(p.raw, x, from, v.pos);
    hide Blanked;
    JoinEnd(p);
    TerminateLater(Blanked(p.raw, from, v.pos), x, v.End());
  }

  /** The value that was joined ends where the continuation line ends. */
  lemma JoinEnd(p: Parser)
    requires p.headers != []
    ensures var h := p.headers[|p.headers| - 1];
      h.value.(len := p.header.value.pos - h.value.pos + p.header.value.len).End() == p.header.value.End()
  {
  }

  lemma BlankedLater(raw: seq<byte>, x: seq<byte>, from: int, to: int)
    requires to <= |raw|
    ensures Blanked(raw + x, from, to) == Blanked(raw, from, to) + x
  {
  }

  lemma HandleSame(q: Parser, x: seq<byte>, h: Header)
    requires 0 <= h.name.pos && 0 <= h.value.pos
    requires CString(q.raw + x, h.name.pos) == CString(q.raw, h.name.pos)
    requires CString(q.raw + x, h.value.pos) == CString(q.raw, h.value.pos)
    requires ChunkedAt(q.raw + x, h.value.pos) == ChunkedAt(q.raw, h.value.pos)
    requires IsChunked(Append(q, x)) == IsChunked(q)
    requires ChunkedAt(q.raw, h.value.pos) ==> h.value.pos + 7 < |q.raw|
    ensures Handle(q, h.name.pos, h.value.pos).None? <==> Handle(Append(q, x), h.name.pos, h.value.pos).None?
    ensures Handle(q, h.name.pos, h.value.pos).Some? ==>
      Handle(Append(q, x), h.name.pos, h.value.pos).value == Append(Handle(q, h.name.pos, h.value.pos).value, x)
  {
    hide ChunkedAt, CString, EqNoCase, Atoi, Terminate, IsChunked, Ascii;
    if ChunkedAt(q.raw, h.value.pos) {
      TerminateLater(q.raw, x, h.value.pos + 7);
    }
  }

  lemma HandleLater(q: Parser, x: seq<byte>, offset: int, size: int)
    requires ReadyToHandle(q, offset, size)
    ensures HandleLast(q).None? <==> HandleLast(Append(q, x)).None?
    ensures HandleLast(q).Some? ==> HandleLast(Append(q, x)).value == Append(HandleLast(q).value, x)
  {
    hide Handle, CString, ChunkedAt, EncodingSettled;
    var h := q.headers[|q.headers| - 1];
    assert HeaderOk(h) && h.value.End() < offset + 1;
    CStringPrefix(q.raw, x, h.name.pos, h.value.End());
    CStringPrefix(q.raw, x, h.value.pos, h.value.End());
    ChunkedLater(q.raw, x, h.value.pos, h.value.End());
    EncodingLater(q, x, offset, size);
    TerminatedValue(q.raw, h.value);
    HandleSame(q, x, h);
  }

  /** A terminated value does not become "chunked" when bytes arrive behind it. */
  lemma ChunkedLater(raw: seq<byte>, x: seq<byte>, at: int, z: int)
    requires 0 < at <= z < |raw| && raw[z] == 0
    ensures ChunkedAt(raw + x, at) == ChunkedAt(raw, at)
  {
    if at + 7 <= |raw| {
      assert (raw + x)[at..at + 7] == raw[at..at + 7];
    } else {
      assert (raw + x)[z] == raw[z] && IsStop(raw[z]);
      StoppedWord(raw + x, at, z + 1);
    }
  }

  lemma EncodingLater(q: Parser, x: seq<byte>, offset: int, size: int)
    requires ReadyToHandle(q, offset, size)
    ensures IsChunked(Append(q, x)) == IsChunked(q)
  {
    var t := q.transferEncoding;
    if t > 0 {
      if t + 7 <= |q.raw| {
        assert (q.raw + x)[t..t + 7] == q.raw[t..t + 7];
      } else {
        SettledFrame(q.raw, q.raw + x, t, offset);
        StoppedWord(q.raw + x, t, offset);
      }
    }
  }

  lemma HeaderEndLater(p: Parser, x: seq<byte>)
    requires Valid(p) && Valid(Append(p, x)) && p.stateM == SM_HEADER_LF
    ensures HeaderEnd(Append(p, x)) == Later(HeaderEnd(p), x)
  {
    if p.header.value.pos != 0 {
      StoreLater(p, x);
      if Stored(p).Some? {
        StoredValid(p);
        HandleLater(Stored(p).value, x, p.offset, |p.raw|);
      }
    }
  }

  lemma HeaderStepLater(p: Parser, x: seq<byte>)
    requires Valid(p) && Valid(Append(p, x)) && 100 <= p.stateM <= 108 && p.offset < |p.raw|
    ensures HeaderStep(Append(p, x)) == Later(HeaderStep(p), x)
  {
    if p.stateM == SM_HEADER_LF {
      HeaderEndLater(p, x);
    }
  }

  lemma ChunkStepLater(p: Parser, x: seq<byte>)
    requires Valid(p) && Valid(Append(p, x)) && 200 <= p.stateM <= 209 && 0 < p.chunk.offset < |p.raw|
    requires !ChunkStep(p).Wait?
    ensures ChunkStep(Append(p, x)) == Later(ChunkStep(p), x)
  {
    if p.stateM == CHUNK_DATA {
      ChunkDataLater(p, x);
    }
    hide ChunkData, HexValue, Valid, IsChunked;
  }

  lemma ChunkDataLater(p: Parser, x: seq<byte>)
    requires Valid(p) && Valid(Append(p, x)) && p.stateM == CHUNK_DATA && p.chunk.offset < |p.raw|
    requires !ChunkData(p).Wait?
    ensures ChunkData(Append(p, x)) == Later(ChunkData(p), x)
  {
    hide Valid, Moved;
    ChunkPlace(p);
    var end := p.chunk.pos + p.chunk.len;
    assert (p.raw + x)[end] == p.raw[end] && (p.raw + x)[end + 1] == p.raw[end + 1];
    MovedLater(p.raw, x, p.offset + p.contentLength, p.chunk.pos, p.chunk.len);
  }

  lemma ChunkPlace(p: Parser)
    requires Valid(p) && p.stateM == CHUNK_DATA
    ensures 0 < p.offset + p.contentLength < p.chunk.pos && 0 < p.chunk.len
  {
  }

  lemma MovedLater(raw: seq<byte>, x: seq<byte>, to: int, at: int, n: int)
    requires 0 <= to < at && 0 <= n && at + n <= |raw|
    ensures Moved(raw + x, to, at, n) == Moved(raw, to, at, n) + x
  {
  }

  /** The step that finds a body complete by its Content-Length. */
  predicate EndsByLength(p: Parser)
    requires Valid(p)
  {
    p.stateM == SM_BODY && !IsChunked(p) && p.contentLength != -1 && |p.raw| == p.offset + p.contentLength
  }

  /** A step that does not wait does the same when more bytes stand behind. */
  lemma StepLater(p: Parser, x: seq<byte>)
    requires Valid(p)
    requires p.stateM == SM_LINE_LF ==> LineSettled(p)
    requires !Step(p).Wait? && !EndsByLength(p)
    ensures Valid(Append(p, x))
    ensures Step(Append(p, x)) == Later(Step(p), x)
  {
    AppendValid(p, x);
    if p.stateM == SM_DONE {
    } else if p.stateM >= SM_BODY {
      if IsChunked(p) && p.chunk.offset != 0 {
        ChunkStepLater(p, x);
      }
    } else if p.stateM >= SM_HEADER {
      HeaderStepLater(p, x);
    } else {
      StartStepLater(p, x);
    }
  }

  // ---------- whole calls ----------

  /** The state at the line feed of the start line, if the run gets there. */
  function AtLineEnd(p: Parser): (r: Option<Parser>)
    requires Valid(p)
    ensures r.Some? ==> Valid(r.value) && r.value.stateM == SM_LINE_LF
    decreases Unread(p), StatesLeft(p)
  {
    if p.stateM == SM_LINE_LF then Some(p)
    else if p.stateM > SM_LINE_LF then None
    else
      match Step(p)
      case Go(q) => StepProgress(p); AtLineEnd(q)
      case _ => None
  }

  /** The start line, if complete, is decided by its own bytes. */
  predicate Settled(p: Parser)
    requires Valid(p)
  {
    AtLineEnd(p).Some? ==> LineSettled(AtLineEnd(p).value)
  }

  /** rtsp_parser_input on bytes that fit: append and run. */
  function Feed(p: Parser, data: seq<byte>): Outcome
    requires Valid(p)
  {
    AppendValid(p, data);
    Run(Append(p, data))
  }

  lemma SettledNext(p: Parser, q: Parser)
    requires Valid(p) && Step(p) == Go(q) && Settled(p)
    ensures Valid(q) && Settled(q)
    ensures p.stateM == SM_LINE_LF ==> LineSettled(p)
  {
    StepValid(p);
    if p.stateM >= SM_LINE_LF {
      StartOnlyOnce(p);
    }
  }

  lemma StartOnlyOnce(p: Parser)
    requires Valid(p) && p.stateM >= SM_LINE_LF && Step(p).Go?
    ensures Step(p).next.stateM > SM_LINE_LF
  {
    if p.stateM == SM_HEADER_LF {
      HeaderEndValid(p);
      HeaderEndProgress(p);
    }
  }

  /** A run that needs more bytes goes on, when they come, as if they had been there before. */
  lemma {:induction false} RunLater(p: Parser, x: seq<byte>)
    requires Valid(p) && Settled(p) && Run(p).NeedMore?
    ensures Feed(p, x) == Feed(Run(p).state, x)
    decreases Unread(p), StatesLeft(p)
  {
    if Step(p).Go? {
      var q := Step(p).next;
      StepProgress(p);
      SettledNext(p, q);
      assert !EndsByLength(p);
      StepLater(p, x);
      RunLater(q, x);
    }
  }

  /** What is rejected stays rejected whatever follows. */
  lemma {:induction false} RejectLater(p: Parser, x: seq<byte>)
    requires Valid(p) && Settled(p) && Run(p).Reject?
    ensures Feed(p, x).Reject?
    decreases Unread(p), StatesLeft(p)
  {
    if p.stateM == SM_LINE_LF {
      assert AtLineEnd(p) == Some(p);
    }
    assert !EndsByLength(p);
    StepLater(p, x);
    if Step(p).Go? {
      var q := Step(p).next;
      StepProgress(p);
      SettledNext(p, q);
      RejectLater(q, x);
    }
  }

  /** The last step before completion found the body as long as its Content-Length. */
  predicate ByLength(p: Parser)
    requires Valid(p)
    decreases Unread(p), StatesLeft(p)
  {
    match Step(p)
    case Go(q) => StepProgress(p); EndsByLength(p) || ByLength(q)
    case _ => false
  }

  /** A complete message stays complete and keeps the surplus behind it, unless its end came
      from a Content-Length: then surplus bytes make the same call reject it. */
  lemma {:induction false} DoneLater(p: Parser, x: seq<byte>)
    requires Valid(p) && Settled(p) && Run(p).Done?
    ensures Feed(p, x) == if ByLength(p) && x != [] then Reject else Done(Append(Run(p).state, x))
    decreases Unread(p), StatesLeft(p)
  {
    hide Step, Valid, EndsByLength;
    if EndsByLength(p) {
      EndLater(p, x);
    } else {
      if p.stateM == SM_LINE_LF {
        assert AtLineEnd(p) == Some(p);
      }
      hide AtLineEnd, LineSettled;
      StepLater(p, x);
      if Step(p).Go? {
        StepProgress(p);
        SettledNext(p, Step(p).next);
        DoneLater(Step(p).next, x);
      }
    }
  }

  lemma EndLater(p: Parser, x: seq<byte>)
    requires Valid(p) && EndsByLength(p)
    ensures Run(p).Done? && Step(p).Go? && Feed(p, x) == if x != [] then Reject else Done(Append(Run(p).state, x))
  {
    EndsDone(p);
    AppendValid(p, x);
    if x == [] {
      assert Append(p, x) == p;
      assert Append(Run(p).state, x) == Run(p).state;
    }
  }

  // ---------- any number of pieces ----------

  lemma {:induction false} AtLineEndLater(p: Parser, x: seq<byte>)
    requires Valid(p) && AtLineEnd(p).Some?
    ensures Valid(Append(p, x))
    ensures AtLineEnd(Append(p, x)) == Some(Append(AtLineEnd(p).value, x))
    decreases Unread(p), StatesLeft(p)
  {
    AppendValid(p, x);
    if p.stateM < SM_LINE_LF {
      StepProgress(p);
      StepLater(p, x);
      AtLineEndLater(Step(p).next, x);
    }
  }

  /** If the start line of the longer input is settled, so is that of the shorter. */
  lemma SettledEarlier(p: Parser, x: seq<byte>)
    requires Valid(p) && Valid(Append(p, x)) && Settled(Append(p, x))
    ensures Settled(p)
  {
    if AtLineEnd(p).Some? {
      AtLineEndLater(p, x);
      var q := AtLineEnd(p).value;
      assert LineBytes(Append(q, x)) == LineBytes(q);
    }
  }

  /** The start line that is settled at the beginning is settled wherever the run pauses. */
  lemma {:induction false} SettledAtPause(p: Parser, x: seq<byte>)
    requires Valid(p) && Valid(Append(p, x)) && Settled(Append(p, x)) && Run(p).NeedMore?
    ensures Valid(Append(Run(p).state, x)) && Settled(Append(Run(p).state, x))
    decreases Unread(p), StatesLeft(p)
  {
    SettledEarlier(p, x);
    GoesOn(p);
    if Step(p).Go? {
      hide Step, Valid, Settled, Run, EndsByLength;
      var q := Step(p).next;
      SettledNext(p, q);
      StepLater(p, x);
      SettledNext(Append(p, x), Append(q, x));
      SettledAtPause(q, x);
    }
  }

  /** A run that ends for want of bytes does not find the body complete. */
  lemma GoesOn(p: Parser)
    requires Valid(p) && Run(p).NeedMore?
    ensures !EndsByLength(p)
    ensures Step(p).Go? ==>
      var q := Step(p).next;
      && Valid(q) && Run(q) == Run(p) && (Unread(q) < Unread(p) ||
        (Unread(q) == Unread(p) && StatesLeft(q) < StatesLeft(p)))
    ensures !Step(p).Go? ==> Run(p) == NeedMore(p)
  {
    hide Step, Valid, EndsByLength;
    if EndsByLength(p) {
      EndsDone(p);
    }
    if Step(p).Go? {
      StepProgress(p);
    }
  }

  lemma EndsDone(p: Parser)
    requires Valid(p) && EndsByLength(p)
    ensures Run(p).Done?
  {
    var q := Step(p).next;
    RunStep(p);
    RunStep(q);
    hide Run;
  }

  /** The pieces fed one after the other, for as long as more is needed. */
  function FeedAll(p: Parser, pieces: seq<seq<byte>>): Outcome
    requires Valid(p) && pieces != []
    decreases |pieces|
  {
    var r := Feed(p, pieces[0]);
    if |pieces| == 1 || !r.NeedMore? then r else FeedAll(r.state, pieces[1..])
  }

  /** Some of the pieces, but not all, already complete the message. */
  predicate DoneEarly(p: Parser, pieces: seq<seq<byte>>)
    requires Valid(p) && pieces != []
    decreases |pieces|
  {
    var r := Feed(p, pieces[0]);
    |pieces| > 1 && (r.Done? || (r.NeedMore? && DoneEarly(r.state, pieces[1..])))
  }

  predicate SettledWith(p: Parser, data: seq<byte>)
    requires Valid(p)
  {
    AppendValid(p, data);
    Settled(Append(p, data))
  }

  lemma AppendTwice(p: Parser, first: seq<byte>, x: seq<byte>)
    ensures Append(Append(p, first), x) == Append(p, first + x)
  {
    assert p.raw + (first + x) == p.raw + first + x;
  }

  lemma FeedIs(p: Parser, data: seq<byte>)
    requires Valid(p)
    ensures Valid(Append(p, data)) && Feed(p, data) == Run(Append(p, data))
  {
    hide Run, Valid;
    AppendValid(p, data);
  }

  lemma SettledWhole(p: Parser, first: seq<byte>, x: seq<byte>)
    requires Valid(p) && Valid(Append(p, first)) && Valid(Append(Append(p, first), x)) &&
      Settled(Append(Append(p, first), x))
    ensures SettledWith(p, first + x)
  {
    hide Settled, Valid;
    AppendTwice(p, first, x);
  }

  lemma FeedTwice(p: Parser, first: seq<byte>, rest: seq<byte>)
    requires Valid(p) && SettledWith(p, first + rest) && !Feed(p, first).Done?
    ensures Feed(p, first).NeedMore? ==>
      Feed(p, first + rest) == Feed(Feed(p, first).state, rest) && SettledWith(Feed(p, first).state, rest)
    ensures Feed(p, first).Reject? ==> Feed(p, first + rest).Reject?
  {
    AppendValid(p, first);
    var q := Append(p, first);
    AppendValid(q, rest);
    assert p.raw + (first + rest) == p.raw + first + rest;
    assert Append(p, first + rest) == Append(q, rest);
    SettledEarlier(q, rest);
    if Run(q).NeedMore? {
      RunLater(q, rest);
      SettledAtPause(q, rest);
    } else {
      RejectLater(q, rest);
    }
  }

  /** Whether bytes come at once or in pieces, the result, the state, the cursor, the header
      table and every byte of the buffer are the same. */
  lemma {:induction false} SplitAnywhere(p: Parser, pieces: seq<seq<byte>>)
    requires Valid(p) && pieces != [] && !DoneEarly(p, pieces)
    requires SettledWith(p, Concat(pieces))
    ensures FeedAll(p, pieces) == Feed(p, Concat(pieces))
    decreases |pieces|
  {
    if |pieces| == 1 {
      assert Concat(pieces) == pieces[0];
    } else {
      FeedTwice(p, pieces[0], Concat(pieces[1..]));
      if Feed(p, pieces[0]).NeedMore? {
        SplitAnywhere(Feed(p, pieces[0]).state, pieces[1..]);
      }
    }
  }
}
