/** The parser as the program keeps it: a struct whose loops move cursors, record spans and write
    terminators and decoded bytes into its own buffer. Each loop is proved against Run. */
module RtspParser {
  import opened Bytes
  import opened RtspModel
  import opened RtspRun

  const KB := 1024
  const MB := 1024 * 1024

  const INPUT_NEEDMORE := 1
  const INPUT_DONE := 0

  datatype Room =
    | Fits               // there is room for the data and more than a terminator
    | Grows(extra: nat)  // a larger buffer is allocated first
    | TooBig             // E2BIG
    | TooTight           // the assertion behind the allocation fails

  /** By how much a buffer of this capacity grows at least. */
  function GrowthUnit(capacity: nat): nat {
    if capacity > 4 * MB then 50 * MB else if capacity > 16 * KB then 2 * MB else 8 * KB
  }

  /** How rtsp_rawdata makes room for n bytes behind size bytes in a buffer of this capacity. */
  function MakeRoom(capacity: nat, size: nat, n: nat): (r: Room)
    requires size <= capacity
    ensures r.Grows? ==> capacity + r.extra - size > n + 1
    ensures r.Fits? ==> capacity - size > n + 1
  {
    if capacity - size < n + 1 then
      if capacity + n > 64 * MB then TooBig
      else
        var unit := GrowthUnit(capacity);
        var extra := if n + 1 > unit then n + 1 else unit;
        if capacity + extra - size > n + 1 then Grows(extra) else TooTight
    else if capacity - size > n + 1 then Fits
    else TooTight
  }

  /** When an append is refused: its assertion fails if the data and one terminator fill the
      buffer exactly, or a full buffer would grow by no more than that; and a buffer that has to
      grow must stay within 64 MB. */
  lemma RefusedExactly(capacity: nat, size: nat, n: nat)
    requires size <= capacity
    ensures MakeRoom(capacity, size, n) == TooTight <==>
      capacity - size == n + 1 || (size == capacity && capacity + n <= 64 * MB && n + 1 >= GrowthUnit(capacity))
    ensures MakeRoom(capacity, size, n) == TooBig <==> capacity - size < n + 1 && capacity + n > 64 * MB
  {
  }

  /** A parser without a buffer takes a first input if and only if it is shorter than 8191 bytes. */
  lemma FirstInputExactly(n: nat)
    ensures MakeRoom(0, 0, n).Fits? || MakeRoom(0, 0, n).Grows? <==> n < 8191
    ensures n < 8191 ==> MakeRoom(0, 0, n) == Grows(8 * KB)
  {
  }

  class RtspParser {
    var raw: array<byte>
    var rawSize: nat
    var serverMode: bool
    var stateM: int
    var offset: int
    var header: Header
    var chunk: Chunk
    var vermajor: int
    var verminor: int
    var method_: Span
    var uri: Span
    var code: int
    var reason: Span
    var headers: seq<Header>
    var contentLength: int
    var connectionClose: int
    var contentEncoding: int
    var transferEncoding: int
    var cookie: int
    var location: int

    /** The parser's state as a value. */
    ghost function State(): Parser
      requires rawSize <= raw.Length
      reads this, raw
    {
      Parser(raw[..rawSize], serverMode, stateM, offset, header, chunk, vermajor, verminor,
             method_, uri, code, reason, headers, contentLength, connectionClose,
             contentEncoding, transferEncoding, cookie, location)
    }

    ghost predicate Ok()
      reads this, raw
    {
      rawSize <= raw.Length && Valid(State())
    }

    /** rtsp_parser_create. */
    constructor (server: bool)
      ensures Ok() && fresh(raw) && rawSize == 0
      ensures State().server == server && State().stateM == SM_START_LINE && State().headers == []
    {
      raw := new byte[0];
      rawSize := 0;
      serverMode := server;
      stateM, offset := SM_START_LINE, 0;
      header := RtspModel.Header(Span(0, 0), Span(0, 0));
      chunk := RtspModel.Chunk(0, 0, 0);
      vermajor, verminor, code := 0, 0, 0;
      method_, uri, reason := Span(0, 0), Span(0, 0), Span(0, 0);
      headers := [];
      contentLength, connectionClose := -1, -1;
      contentEncoding, transferEncoding, cookie, location := 0, 0, 0, 0;
    }

    /** rtsp_parser_clear: ready for the next message; the version and the spans of the header
        line keep what they were. */
    method Clear()
      requires Ok()
      modifies this
      ensures raw == old(raw) && rawSize == 0 && Ok()
      ensures State() == old(State()).(raw := [], stateM := SM_START_LINE, offset := 0,
                chunk := RtspModel.Chunk(0, 0, 0), method_ := Span(0, 0), uri := Span(0, 0), code := 0,
                reason := Span(0, 0), headers := [], contentLength := -1, connectionClose := -1,
                contentEncoding := 0, transferEncoding := 0, cookie := 0, location := 0)
    {
      hide Valid;
      ClearMessage();
      ClearBuffer();
      ClearHeaders();
      ClearedValid(State());
    }

    /** u.req, u.reply and chunk, set to zero. */
    method ClearMessage()
      modifies this`method_, this`uri, this`code, this`reason, this`chunk
      ensures method_ == uri == reason == Span(0, 0) && code == 0 && chunk == RtspModel.Chunk(0, 0, 0)
    {
      method_, uri, reason := Span(0, 0), Span(0, 0), Span(0, 0);
      code := 0;
      chunk := RtspModel.Chunk(0, 0, 0);
    }

    method ClearBuffer()
      modifies this`stateM, this`offset, this`rawSize
      ensures stateM == SM_START_LINE && offset == 0 && rawSize == 0
    {
      stateM, offset, rawSize := SM_START_LINE, 0, 0;
    }

    method ClearHeaders()
      modifies this`headers, this`contentLength, this`connectionClose, this`contentEncoding, this`transferEncoding,
        this`cookie, this`location
      ensures headers == [] && contentLength == -1 && connectionClose == -1
      ensures contentEncoding == 0 && transferEncoding == 0 && cookie == 0 && location == 0
    {
      headers := [];
      contentLength, connectionClose := -1, -1;
      contentEncoding, transferEncoding, cookie, location := 0, 0, 0, 0;
    }

    /** rtsp_rawdata: append to the buffer, growing it first if it is too small. */
    method RawData(data: seq<byte>) returns (ok: bool)
      requires Ok()
      modifies this`raw, this`rawSize, raw
      ensures raw == old(raw) || fresh(raw)
      ensures ok <==>
        MakeRoom(old(raw.Length), old(rawSize), |data|).Fits? || MakeRoom(old(raw.Length), old(rawSize), |data|).Grows?
      ensures rawSize <= raw.Length
      ensures ok ==> State() == Append(old(State()), data) && raw.Length - rawSize > 1
      ensures !ok ==> State() == old(State())
    {
      hide Valid;
      if raw.Length - rawSize < |data| + 1 {
        if raw.Length + |data| > 64 * MB {
          return false;
        }
        var capacity := if raw.Length > 4 * MB then 50 * MB else if raw.Length > 16 * KB then 2 * MB else 8 * KB;
        capacity := if |data| + 1 > capacity then |data| + 1 else capacity;
        Realloc(raw.Length + capacity);
      }
      if raw.Length - rawSize <= |data| + 1 {
        return false;
      }
      AppendBytes(data);
      ok := true;
    }

    /** realloc(raw, size). */
    method Realloc(size: nat)
      requires rawSize <= raw.Length <= size
      modifies this`raw
      ensures fresh(raw) && raw.Length == size && State() == old(State())
    {
      var p := new byte[size];
      forall i | 0 <= i < raw.Length {
        p[i] := raw[i];
      }
      assert p[..rawSize] == raw[..rawSize];
      raw := p;
    }

    /** memmove(raw + raw_size, data, bytes) and a terminator behind the data. */
    method AppendBytes(data: seq<byte>)
      requires rawSize <= raw.Length && raw.Length - rawSize > |data| + 1
      modifies this`rawSize, raw
      ensures rawSize <= raw.Length && rawSize == old(rawSize) + |data|
      ensures State() == Append(old(State()), data)
    {
      forall i | 0 <= i < |data| {
        raw[rawSize + i] := data[i];
      }
      rawSize := rawSize + |data|;
      raw[rawSize] := 0;
      assert raw[..rawSize] == old(raw[..rawSize]) + data;
    }

    // ---------- the start line ----------

    /** *v[i] of the start-line loops. */
    function Slot(i: int): (x: int)
      requires 0 <= i < 6 && rawSize <= raw.Length
      reads this, raw
      ensures x == Get(State(), i)
    {
      var s := if serverMode then
                 if i < 2 then method_ else if i < 4 then uri else header.name
               else
                 if i < 2 then header.name else if i < 4 then header.value else reason;
      if i % 2 == 0 then s.pos else s.len
    }

    /** *v[i] = x. */
    method SetSlot(i: int, x: int)
      requires 0 <= i < 6 && rawSize <= raw.Length
      modifies this`method_, this`uri, this`header, this`reason
      ensures State() == Set(old(State()), i, x)
    {
      if serverMode {
        if i < 2 {
          method_ := if i % 2 == 0 then method_.(pos := x) else method_.(len := x);
        } else if i < 4 {
          uri := if i % 2 == 0 then uri.(pos := x) else uri.(len := x);
        } else {
          header := header.(name := if i % 2 == 0 then header.name.(pos := x) else header.name.(len := x));
        }
      } else {
        if i < 2 {
          header := header.(name := if i % 2 == 0 then header.name.(pos := x) else header.name.(len := x));
        } else if i < 4 {
          header := header.(value := if i % 2 == 0 then header.value.(pos := x) else header.value.(len := x));
        } else {
          reason := if i % 2 == 0 then reason.(pos := x) else reason.(len := x);
        }
      }
    }

    /** raw[at] = 0. */
    method Zero(at: int)
      requires rawSize <= raw.Length && 0 <= at < rawSize
      modifies raw
      ensures State() == old(State()).(raw := Terminate(old(State()).raw, at))
    {
      raw[at] := 0;
      assert raw[..rawSize] == old(raw[..rawSize])[at := 0];
    }

    /** SM_REQUEST_LF and SM_STATUS_LF. */
    method LineEndByte() returns (ok: bool)
      requires Ok() && stateM == SM_LINE_LF && offset < rawSize
      modifies this, raw
      ensures raw == old(raw) && rawSize == old(rawSize)
      ensures ok ==> Step(old(State())) == Go(State())
      ensures !ok ==> Step(old(State())).Bad?
    {
      hide Atoi, CString, ScanVersion, ChunkedAt, HeaderStep, StartStep, BodyStep;
      ghost var p := State();
      assert Step(p) == LineEnd(p) by { LineEndStep(p); }
      assert Recorded(p, 0) && Recorded(p, 1) && Recorded(p, 2);
      if header.name.len < 8 ||
         (if serverMode then method_.len < 1 || uri.len < 1 else header.value.len != 3 || reason.len < 1)
      {
        return false;
      }
      var version := ScanVersion(raw[..rawSize], header.name.pos);
      if !VersionAllowed(version) {
        return false;
      }
      AcceptLine(version.value.0, version.value.1);
      ok := true;
    }

    /** The start line is accepted: its tokens are terminated, a reply's code is read. */
    method AcceptLine(major: int, minor: int)
      requires Ok() && stateM == SM_LINE_LF && offset < rawSize
      modifies this`code, this`vermajor, this`verminor, this`stateM, this`offset, raw
      ensures State() == LineAccepted(old(State()), (major, minor))
    {
      hide Atoi, CString, Valid, LineTerminated;
      LineSpans(State());
      TerminateLine();
      SetLine(major, minor, if serverMode then code else Atoi(CString(raw[..rawSize], header.value.pos)));
      stateM := SM_HEADER;
      offset := offset + 1;
    }

    /** What the start line says besides its spans. */
    method SetLine(major: int, minor: int, status: int)
      requires rawSize <= raw.Length
      modifies this`code, this`vermajor, this`verminor
      ensures State() == old(State()).(vermajor := major, verminor := minor, code := status)
    {
      vermajor, verminor, code := major, minor, status;
    }

    /** The tokens of the start line that are read as C strings are terminated. */
    method TerminateLine()
      requires Ok() && stateM == SM_LINE_LF
      modifies raw
      ensures State() == old(State()).(raw := LineTerminated(old(State())))
    {
      hide Valid, Terminate;
      LineSpans(State());
      if serverMode {
        ZeroBoth(method_.End(), uri.End());
      } else {
        ZeroBoth(reason.End(), header.value.End());
      }
    }

    method ZeroBoth(a: int, b: int)
      requires 0 <= a < rawSize <= raw.Length && 0 <= b < rawSize
      modifies raw
      ensures State() == old(State()).(raw := Terminate(Terminate(old(State()).raw, a), b))
    {
      Zero(a);
      Zero(b);
    }

    /** One iteration of rtsp_parse_request_line and rtsp_parse_status_line: the switch on the
        state and the increment of the for loop. */
    method StartByte() returns (ok: bool)
      requires Ok() && stateM < SM_LINE_LF && offset < rawSize
      modifies this`stateM, this`offset, this`method_, this`uri, this`header, this`reason
      ensures ok ==> Step(old(State())) == Go(State())
      ensures !ok ==> Step(old(State())).Bad?
    {
      hide Valid, Step, StartStep;
      StartIs(State());
      var c := raw[offset];
      assert c == State().raw[offset];
      if stateM == SM_START_LINE || stateM == SM_SP1 || stateM == SM_SP2 {
        BlankByte(c);
        ok := true;
      } else if stateM == SM_TOKEN1 || stateM == SM_TOKEN2 || stateM == SM_TOKEN3 {
        TokenByte(c);
        ok := true;
      } else {
        ok := LineTailByte(c);
      }
    }

    /** Blanks in front of a token. */
    method BlankByte(c: byte)
      requires Ok() && (stateM == SM_START_LINE || stateM == SM_SP1 || stateM == SM_SP2)
      requires 0 <= offset < rawSize && c == raw[offset]
      modifies this`stateM, this`offset, this`method_, this`uri, this`header, this`reason
      ensures StartStep(old(State())) == Go(State())
    {
      hide Valid, Set, LineEnd, IsBlank;
      assert c == State().raw[offset];
      if !IsBlank(c) {
        Mark(offset);
      }
      offset := offset + 1;
    }

    /** The bytes of a token, and the delimiter behind it. */
    method TokenByte(c: byte)
      requires Ok() && (stateM == SM_TOKEN1 || stateM == SM_TOKEN2 || stateM == SM_TOKEN3)
      requires 0 <= offset < rawSize && c == raw[offset]
      modifies this`stateM, this`offset, this`method_, this`uri, this`header, this`reason
      ensures StartStep(old(State())) == Go(State())
    {
      hide Valid, Set, Get, LineEnd, IsDelimiter;
      assert c == State().raw[offset];
      if IsDelimiter(c) {
        Mark(offset - Slot(stateM - 1));
      }
      offset := offset + 1;
    }

    /** The byte that ends or starts a token is recorded and read again in the next state. */
    method Mark(x: int)
      requires rawSize <= raw.Length && 0 <= stateM < 6
      modifies this`stateM, this`offset, this`method_, this`uri, this`header, this`reason
      ensures var p := old(State()); State() == Set(p, p.stateM, x).(stateM := p.stateM + 1, offset := p.offset - 1)
      ensures var p := old(State()); Set(p, p.stateM, x).offset == p.offset
    {
      SlotElsewhere(State(), stateM, x);
      hide Set;
      SetSlot(stateM, x);
      stateM := stateM + 1;
      offset := offset - 1;
    }

    /** The states behind the last token of the start line. */
    method LineTailByte(c: byte) returns (ok: bool)
      requires Ok() && (stateM == SM_SP3 || stateM == SM_LINE_CR) && 0 <= offset < rawSize && c == raw[offset]
      modifies this`stateM, this`offset
      ensures ok ==> StartStep(old(State())) == Go(State())
      ensures !ok ==> StartStep(old(State())).Bad?
    {
      hide Valid, LineEnd;
      assert c == State().raw[offset];
      if stateM == SM_SP3 {
        if c == CR {
          stateM := SM_LINE_CR;
        } else if c == LF {
          stateM := SM_LINE_LF;
          offset := offset - 1;
        } else if !IsBlank(c) {
          stateM := SM_TOKEN3;
        }
      } else {
        if c != LF {
          return false;
        }
        stateM := SM_LINE_LF;
        offset := offset - 1;
      }
      offset := offset + 1;
      ok := true;
    }

    /** rtsp_parse_request_line and rtsp_parse_status_line, which differ in their table v[] and in
        their last state. */
    method ParseStartLine() returns (ok: bool)
      requires Ok() && stateM <= SM_LINE_LF
      modifies this, raw
      ensures raw == old(raw) && rawSize == old(rawSize)
      ensures ok ==> Ok() && Run(old(State())) == Run(State())
      ensures ok ==> stateM == SM_HEADER || (stateM <= SM_LINE_LF && offset == rawSize)
      ensures !ok ==> Run(old(State())).Reject?
    {
      hide Step;
      while offset < rawSize
        invariant raw == old(raw) && rawSize == old(rawSize)
        invariant Ok() && stateM <= SM_LINE_LF
        invariant Run(old(State())) == Run(State())
        decreases rawSize - offset, SM_LINE_LF - stateM
      {
        ghost var p := State();
        if stateM == SM_LINE_LF {
          ok := LineEndByte();
          if ok {
            StepProgress(p);
            LineEndMoves(p);
          }
          return;
        }
        ok := StartByte();
        if !ok {
          return;
        }
        StepProgress(p);
        StartMoves(p);
      }
      ok := true;
    }

    // ---------- header lines ----------

    /** A Content-Length, which must not stand beside a chunked coding. */
    method HandleLength(length: int) returns (ok: bool)
      requires rawSize <= raw.Length
      modifies this`contentLength
      ensures ok <==> !IsChunked(old(State())) && length >= 0
      ensures State() == if ok then old(State()).(contentLength := length) else old(State())
    {
      hide ChunkedAt;
      if (transferEncoding > 0 && ChunkedAt(raw[..rawSize], transferEncoding)) || length < 0 {
        return false;  // in the first case content_length is -1, which the assertion refuses
      }
      contentLength := length;
      ok := true;
    }

    /** A Transfer-Encoding, which must not stand beside a length if it is chunked. */
    method HandleCoding(vpos: nat) returns (ok: bool)
      requires rawSize <= raw.Length
      requires ChunkedAt(State().raw, vpos) ==> vpos + 7 < rawSize
      modifies this`transferEncoding, raw
      ensures var p := old(State());
        && (ok <==> !ChunkedAt(p.raw, vpos) || p.contentLength == -1)
        && (ok ==> State() == p.(transferEncoding := vpos,
                                 raw := if ChunkedAt(p.raw, vpos) then Terminate(p.raw, vpos + 7) else p.raw))
    {
      hide ChunkedAt, Terminate;
      if ChunkedAt(raw[..rawSize], vpos) {
        if contentLength != -1 {
          return false;
        }
        Zero(vpos + 7);
      }
      transferEncoding := vpos;
      ok := true;
    }

    /** rtsp_header_handler on the last header of the table. */
    method HeaderHandler(npos: nat, vpos: nat) returns (ok: bool)
      requires rawSize <= raw.Length
      requires ChunkedAt(State().raw, vpos) ==> vpos + 7 < rawSize
      modifies this`contentLength, this`connectionClose, this`contentEncoding, this`transferEncoding, this`cookie,
        this`location, raw
      ensures ok <==> Handle(old(State()), npos, vpos).Some?
      ensures ok ==> State() == Handle(old(State()), npos, vpos).value
    {
      hide CString, EqNoCase, ChunkedAt, Atoi, Ascii, Terminate;
      var buffer := raw[..rawSize];
      var name, value := CString(buffer, npos), CString(buffer, vpos);
      if EqNoCase(Ascii("Content-Length"), name) {
        ok := HandleLength(Atoi(value));
        return;
      } else if EqNoCase(Ascii("Connection"), name) {
        connectionClose := if EqNoCase(Ascii("close"), value) then 1 else 0;
      } else if EqNoCase(Ascii("Content-Encoding"), name) {
        contentEncoding := vpos;
      } else if EqNoCase(Ascii("Transfer-Encoding"), name) {
        ok := HandleCoding(vpos);
        return;
      } else if EqNoCase(Ascii("Set-Cookie"), name) {
        cookie := vpos;
      } else if EqNoCase(Ascii("Location"), name) {
        location := vpos;
      }
      ok := true;
    }

    /** rtsp_header_add. */
    method HeaderAdd() returns (ok: bool)
      requires Ok() && stateM == SM_HEADER_LF && header.name.pos != 0 && header.value.pos != 0
      modifies this`headers, raw
      ensures raw == old(raw) && rawSize == old(rawSize)
      ensures ok <==> Store(old(State())).Some?
      ensures ok ==> State() == Store(old(State())).value
    {
      if header.name.len < 1 || !IsToken(raw[header.name.pos..header.name.End()]) {
        assert State().raw[header.name.pos..header.name.End()] == raw[header.name.pos..header.name.End()];
        return false;
      }
      assert State().raw[header.name.pos..header.name.End()] == raw[header.name.pos..header.name.End()];
      Zero(header.name.End());
      Zero(header.value.End());
      headers := headers + [header];
      ok := true;
    }

    /** A continuation line: the line break before it is blanked and the last value grows. */
    method HeaderJoin()
      requires Ok() && stateM == SM_HEADER_LF && header.value.pos != 0 && headers != []
      requires header.name.pos == 0
      modifies this`headers, raw
      ensures raw == old(raw) && rawSize == old(rawSize)
      ensures State() == Join(old(State()))
    {
      var h := headers[|headers| - 1];
      JoinPlace(State());
      hide Valid;
      Blank(h.value.len, header.value.pos);
      h := h.(value := h.value.(len := header.value.pos - h.value.pos + header.value.len));
      headers := headers[..|headers| - 1] + [h];
      hide Blanked;
      Zero(h.value.End());
    }

    /** The loop that blanks the line break in front of a continuation line. */
    method Blank(from: nat, to: nat)
      requires to <= rawSize <= raw.Length
      modifies raw
      ensures raw[..rawSize] == Blanked(old(raw[..rawSize]), from, to)
    {
      ghost var before := raw[..rawSize];
      var i := from;
      while i < to
        invariant from <= i && (i <= to || i == from)
        invariant raw[..rawSize] == Blanked(before, from, i)
      {
        raw[i] := SP;
        i := i + 1;
        assert raw[..rawSize] == Blanked(before, from, i);
      }
      assert raw[..rawSize] == Blanked(before, from, to);
    }

    /** SM_HEADER_LF. */
    method HeaderEndByte() returns (ok: bool)
      requires Ok() && stateM == SM_HEADER_LF && offset < rawSize
      modifies this, raw
      ensures raw == old(raw) && rawSize == old(rawSize)
      ensures ok ==> Step(old(State())) == Go(State())
      ensures !ok ==> Step(old(State())).Bad?
    {
      hide Step, Handle, Stored, Valid, ReadyToHandle;
      ghost var p := State();
      HeaderEndStep(p);
      if header.value.pos == 0 {
        stateM := SM_BODY;
      } else {
        ok := StoreLine();
        if !ok {
          return;
        }
        StoredValid(p);
        ReadyLast(State(), p.offset, |p.raw|);
        var h := headers[|headers| - 1];
        ok := HeaderHandler(h.name.pos, h.value.pos);
        if !ok {
          return;
        }
        stateM := SM_HEADER;
      }
      offset := offset + 1;
      ok := true;
    }

    /** The header line goes into the table, or is joined to the last entry. */
    method StoreLine() returns (ok: bool)
      requires Ok() && stateM == SM_HEADER_LF && header.value.pos != 0
      modifies this`headers, raw
      ensures ok <==> Stored(old(State())).Some?
      ensures ok ==> State() == Stored(old(State())).value
    {
      hide Valid, Store, Join;
      if header.name.pos == 0 {
        if headers == [] {
          return false;
        }
        HeaderJoin();
        ok := true;
      } else {
        ok := HeaderAdd();
      }
    }

    /** One iteration of rtsp_parse_header_line in front of the line feed. */
    method HeaderByte() returns (ok: bool)
      requires Ok() && 100 <= stateM < SM_HEADER_LF && offset < rawSize
      modifies this`stateM, this`offset, this`header
      ensures ok ==> Step(old(State())) == Go(State())
      ensures !ok ==> Step(old(State())).Bad?
    {
      hide Valid, Step, HeaderEnd, IsDelimiter;
      HeaderIs(State());
      var c := raw[offset];
      assert c == State().raw[offset];
      if stateM == SM_HEADER {
        HeaderFirstByte(c);
      } else if stateM == SM_HEADER_SP1 || stateM == SM_HEADER_SP2 {
        if !IsBlank(c) {
          if stateM == SM_HEADER_SP2 {
            header := header.(value := header.value.(pos := offset));
          }
          stateM := stateM + 1;
          offset := offset - 1;
        }
      } else if stateM == SM_HEADER_NAME || stateM == SM_HEADER_VALUE {
        if IsDelimiter(c) || (c == COLON && stateM == SM_HEADER_NAME) {
          if stateM == SM_HEADER_NAME {
            header := header.(name := header.name.(len := offset - header.name.pos));
          } else {
            header := header.(value := header.value.(len := offset - header.value.pos));
          }
          stateM := stateM + 1;
          offset := offset - 1;
        }
      } else if stateM == SM_HEADER_SEPARATOR {
        if c != COLON {
          return false;
        }
        stateM := stateM + 1;
      } else if stateM == SM_HEADER_SP3 {
        if c == CR {
          stateM := SM_HEADER_CR;
        } else if c == LF {
          stateM := SM_HEADER_LF;
          offset := offset - 1;
        } else if !IsBlank(c) {
          stateM := SM_HEADER_VALUE;
        }
      } else {
        if c != LF {
          return false;
        }
        stateM := SM_HEADER_LF;
        offset := offset - 1;
      }
      offset := offset + 1;
      ok := true;
    }

    /** SM_HEADER: a name, a continuation line or the blank line. */
    method HeaderFirstByte(c: byte)
      requires Ok() && stateM == SM_HEADER && 0 <= offset < rawSize && c == raw[offset]
      modifies this`stateM, this`offset, this`header
      ensures HeaderStep(old(State())) == Go(State().(offset := State().offset + 1))
    {
      hide Valid, HeaderEnd;
      assert c == State().raw[offset];
      if IsBlank(c) {
        header := header.(name := header.name.(pos := 0));
        stateM := SM_HEADER_SP2;
      } else if c == CR {
        header := header.(value := header.value.(pos := 0));
        stateM := SM_HEADER_CR;
      } else if c == LF {
        header := header.(value := header.value.(pos := 0));
        stateM := SM_HEADER_LF;
        offset := offset - 1;
      } else {
        header := header.(name := header.name.(pos := offset));
        stateM := stateM + 1;
        offset := offset - 1;
      }
    }

    /** rtsp_parse_header_line. */
    method ParseHeaderLine() returns (ok: bool)
      requires Ok() && 100 <= stateM <= SM_HEADER_LF
      modifies this, raw
      ensures raw == old(raw) && rawSize == old(rawSize)
      ensures ok ==> Ok() && Run(old(State())) == Run(State())
      ensures ok ==> stateM == SM_BODY || (100 <= stateM <= SM_HEADER_LF && offset == rawSize)
      ensures !ok ==> Run(old(State())).Reject?
    {
      hide Step;
      while offset < rawSize
        invariant raw == old(raw) && rawSize == old(rawSize)
        invariant Ok() && 100 <= stateM <= SM_HEADER_LF
        invariant Run(old(State())) == Run(State())
        decreases rawSize - offset, SM_HEADER_LF - stateM
      {
        ghost var p := State();
        if stateM == SM_HEADER_LF {
          ok := HeaderEndByte();
          if !ok {
            return;
          }
          StepProgress(p);
          HeaderEndMoves(p);
          if stateM == SM_BODY {
            return;
          }
        } else {
          ok := HeaderByte();
          if !ok {
            return;
          }
          StepProgress(p);
          HeaderMoves(p);
        }
      }
      ok := true;
    }

    // ---------- the chunked body ----------

    /** What CHUNK_START and CHUNK_SIZE share: the value of a hexadecimal digit, -1 for other bytes. */
    static function Nibble(c: byte): (d: int)
      ensures IsHex(c) <==> d >= 0
      ensures IsHex(c) ==> d == HexValue(c)
    {
      if 48 <= c <= 57 then c as int - 48
      else if 97 <= c <= 102 then c as int - 97 + 10
      else if 65 <= c <= 70 then c as int - 65 + 10
      else -1
    }

    /** memmove(raw + to, raw + from, n) and the terminator behind it. */
    method Move(to: nat, from: nat, n: nat)
      requires rawSize <= raw.Length && to < from && from + n <= rawSize
      modifies raw
      ensures State() == old(State()).(raw := Moved(old(State()).raw, to, from, n))
    {
      forall i | 0 <= i < n {
        raw[to + i] := raw[from + i];
      }
      raw[to + n] := 0;
      ghost var before := old(raw[..rawSize]);
      assert raw[..rawSize] == Moved(before, to, from, n);
    }

    /** The moved bytes belong to the body; the cursor goes behind the chunk's line end. */
    method TakeChunk()
      requires rawSize <= raw.Length
      modifies this`contentLength, this`stateM, this`chunk
      ensures var p := old(State());
        State() == p.(contentLength := p.contentLength + p.chunk.len,
                      chunk := RtspModel.Chunk(p.chunk.offset + p.chunk.len + 2, 0, 0), stateM := SM_BODY)
    {
      contentLength := contentLength + chunk.len;
      stateM := SM_BODY;
      chunk := RtspModel.Chunk(chunk.offset + chunk.len + 1, 0, 0);
      chunk := chunk.(offset := chunk.offset + 1);
    }

    /** CHUNK_DATA; wait means that the chunk is not complete yet. */
    method ChunkDataByte() returns (ok: bool, wait: bool)
      requires Ok() && stateM == CHUNK_DATA && 0 < chunk.offset < rawSize
      modifies this`contentLength, this`stateM, this`chunk, raw
      ensures raw == old(raw) && rawSize == old(rawSize)
      ensures ok ==> ChunkStep(old(State())) == if wait then Wait else Go(State())
      ensures ok && wait ==> State() == old(State())
      ensures !ok ==> ChunkStep(old(State())).Bad?
    {
      hide ChunkStep, Moved, ChunkedAt;
      ghost var p := State();
      ChunkDataStep(p);
      assert ChunkOk(p);
      wait := false;
      if chunk.pos + chunk.len + 2 > rawSize {
        return true, true;
      }
      if raw[chunk.pos + chunk.len] != CR || raw[chunk.pos + chunk.len + 1] != LF {
        return false, false;
      }
      Move(offset + contentLength, chunk.pos, chunk.len);
      TakeChunk();
      ok := true;
    }

    /** One iteration of rtsp_parse_chunked outside the data of a chunk. */
    method ChunkByte() returns (ok: bool)
      requires Ok() && 200 <= stateM <= 209 && stateM != CHUNK_DATA && 0 < chunk.offset < rawSize
      modifies this`stateM, this`chunk
      ensures ok ==> ChunkStep(old(State())) == Go(State())
      ensures !ok ==> ChunkStep(old(State())).Bad?
    {
      hide Valid;
      var c := raw[chunk.offset];
      var lineEnd := if chunk.len == 0 then CHUNK_TRAILER_START else CHUNK_DATA;
      if stateM == SM_BODY {
        if Nibble(c) < 0 {
          return false;
        }
        chunk := chunk.(len := Nibble(c));
        stateM := CHUNK_SIZE;
      } else if stateM == CHUNK_SIZE {
        if Nibble(c) >= 0 {
          chunk := chunk.(len := chunk.len * 16 + Nibble(c));
        } else if c == HT || c == SP || c == SEMICOLON {
          stateM := CHUNK_EXTENSION;
        } else if c == CR {
          stateM := CHUNK_EXTENSION_CR;
        } else if c == LF {
          chunk := chunk.(pos := chunk.offset + 1);
          stateM := lineEnd;
        } else {
          return false;
        }
      } else if stateM == CHUNK_EXTENSION {
        if c == CR {
          stateM := CHUNK_EXTENSION_CR;
        } else if c == LF {
          chunk := chunk.(pos := chunk.offset + 1);
          stateM := lineEnd;
        }
      } else if stateM == CHUNK_EXTENSION_CR {
        if c != LF {
          return false;
        }
        chunk := chunk.(pos := chunk.offset + 1);
        stateM := lineEnd;
      } else {
        ok := TrailerByte(c);
        return;
      }
      chunk := chunk.(offset := chunk.offset + 1);
      ok := true;
    }

    /** The states behind the last chunk. */
    method TrailerByte(c: byte) returns (ok: bool)
      requires Ok() && CHUNK_TRAILER_START <= stateM <= CHUNK_END_CR && 0 < chunk.offset < rawSize
      requires c == raw[chunk.offset]
      modifies this`stateM, this`chunk
      ensures ok ==> ChunkStep(old(State())) == Go(State())
      ensures !ok ==> ChunkStep(old(State())).Bad?
    {
      if stateM == CHUNK_TRAILER_START || stateM == CHUNK_END {
        if c == CR {
          stateM := CHUNK_END_CR;
        } else if c == LF {
          stateM := SM_DONE;
        } else if stateM == CHUNK_END {
          return false;
        } else {
          stateM := CHUNK_TRAILER;
        }
      } else if stateM == CHUNK_TRAILER {
        if c == CR {
          stateM := CHUNK_TRAILER_CR;
        } else if c == LF {
          stateM := CHUNK_TRAILER_START;
        }
      } else {
        if c != LF {
          return false;
        }
        stateM := if stateM == CHUNK_TRAILER_CR then CHUNK_TRAILER_START else SM_DONE;
      }
      chunk := chunk.(offset := chunk.offset + 1);
      ok := true;
    }

    /** rtsp_parse_chunked. */
    method ParseChunked() returns (ok: bool)
      requires Ok() && 200 <= stateM <= 209 && IsChunked(State())
      modifies this, raw
      ensures raw == old(raw) && rawSize == old(rawSize)
      ensures ok ==> Ok() && stateM >= SM_BODY && (stateM == SM_DONE || Step(State()).Wait?)
      ensures ok ==> Run(old(State())) == Run(State())
      ensures !ok ==> Run(old(State())).Reject?
    {
      hide ChunkStep, HeaderStep, StartStep;
      if chunk.offset == 0 {
        if contentLength != -1 {
          return false;
        }
        chunk := chunk.(offset := offset);
        contentLength := 0;
        assert Step(old(State())) == Go(State());
        StepProgress(old(State()));
      }
      while chunk.offset < rawSize && stateM != SM_DONE
        invariant raw == old(raw) && rawSize == old(rawSize)
        invariant Ok() && chunk.offset != 0 && (stateM == SM_DONE || (200 <= stateM <= 209 && IsChunked(State())))
        invariant Run(old(State())) == Run(State())
        decreases rawSize - chunk.offset
      {
        ghost var p := State();
        assert Step(p) == ChunkStep(p);
        if stateM == CHUNK_DATA {
          var wait;
          ok, wait := ChunkDataByte();
          if !ok || wait {
            return;
          }
        } else {
          ok := ChunkByte();
          if !ok {
            return;
          }
        }
        StepProgress(p);
        ChunkStepValid(p);
        ChunkStays(p);
      }
      ok := true;
    }

    // ---------- one call ----------

    /** rtsp_parser_input: 1 when more bytes are needed, 0 when the message is complete (rest is
        then the number of bytes behind it by the announced length), negative when it is refused. */
    method Input(data: seq<byte>) returns (r: int, rest: int)
      requires Ok()
      modifies this, raw
      ensures raw == old(raw) || fresh(raw)
      ensures !MakeRoom(old(raw.Length), old(rawSize), |data|).Fits? &&
        !MakeRoom(old(raw.Length), old(rawSize), |data|).Grows?
        ==> r < 0 && Ok() && State() == old(State())
      ensures MakeRoom(old(raw.Length), old(rawSize), |data|).Fits? ||
        MakeRoom(old(raw.Length), old(rawSize), |data|).Grows?
        ==> Valid(Append(old(State()), data)) &&
            match Run(Append(old(State()), data))
            case NeedMore(q) => r == INPUT_NEEDMORE && Ok() && State() == q && rest == 0
            case Done(q) => r == INPUT_DONE && Ok() && State() == q && rest == |q.raw| - q.offset - q.contentLength
            case Reject => r < 0
    {
      hide Step, Valid;
      rest := 0;
      AppendValid(State(), data);
      var ok := RawData(data);
      if !ok {
        return -1, 0;
      }
      ok := ParseAll();
      if !ok {
        return -1, 0;
      }
      if stateM == SM_DONE {
        DoneAtOnce(State());
        rest := rawSize - offset - (if contentLength >= 0 then contentLength else 0);
        return INPUT_DONE, rest;
      }
      WaitAtOnce(State());
      r := INPUT_NEEDMORE;
    }

    /** The three stages of rtsp_parser_input: start line, headers, body. */
    method ParseAll() returns (ok: bool)
      requires Ok()
      modifies this, raw
      ensures raw == old(raw) && rawSize == old(rawSize)
      ensures ok ==> Ok() && Run(State()) == Run(old(State())) && (stateM == SM_DONE || Step(State()).Wait?)
      ensures !ok ==> Run(old(State())).Reject?
    {
      hide Step, Valid, Run;
      StateRange(State());
      ok := true;
      if SM_START_LINE <= stateM < SM_HEADER {
        ok := ParseStartLine();
      }
      if ok && SM_HEADER <= stateM < SM_BODY {
        StateRange(State());
        ok := ParseHeaderLine();
      }
      if ok {
        StateRange(State());
        if stateM < SM_BODY {
          WaitAtEnd(State());
        } else if stateM < SM_DONE {
          ok := ParseBody();
        }
      }
    }

    /** The part of rtsp_parser_input behind the headers. */
    method ParseBody() returns (ok: bool)
      requires Ok() && 200 <= stateM <= 209
      modifies this, raw
      ensures raw == old(raw) && rawSize == old(rawSize)
      ensures ok ==> Ok() && stateM >= SM_BODY && (stateM == SM_DONE || Step(State()).Wait?)
      ensures ok ==> Run(old(State())) == Run(State())
      ensures !ok ==> Run(old(State())).Reject?
    {
      ghost var p := State();
      if transferEncoding > 0 && ChunkedAt(raw[..rawSize], transferEncoding) {
        ok := ParseChunked();
        return;
      }
      if contentLength == -1 {
        contentLength := 0;
        stateM := SM_DONE;
        assert Step(p) == Go(State());
        StepProgress(p);
      } else {
        if rawSize > offset + contentLength {
          return false;
        }
        if rawSize >= offset + contentLength {
          stateM := SM_DONE;
          assert Step(p) == Go(State());
          StepProgress(p);
        }
      }
      ok := true;
    }

    // ---------- reading the result ----------

    /** rtsp_get_header: the name and the value of the idx-th header as C strings, if there is one. */
    method GetHeader(idx: int) returns (r: Option<(seq<byte>, seq<byte>)>)
      requires Ok() && stateM >= SM_BODY
      ensures forall k :: 0 <= k < |headers| ==> 0 < headers[k].name.pos && 0 < headers[k].value.pos
      ensures r == if 0 <= idx < |headers| then
                     Some((CString(State().raw, headers[idx].name.pos), CString(State().raw, headers[idx].value.pos)))
                   else None
    {
      assert HeadersOk(State().headers, offset);
      assert forall k :: 0 <= k < |headers| ==> HeaderOk(headers[k]);
      if idx < 0 || idx >= |headers| {
        return None;
      }
      var h := headers[idx];
      r := Some((CString(raw[..rawSize], h.name.pos), CString(raw[..rawSize], h.value.pos)));
    }

    /** rtsp_get_header_by_name: the value of the first header with this name. */
    method GetHeaderByName(name: seq<byte>) returns (r: Option<seq<byte>>)
      requires Ok() && stateM >= SM_BODY
      ensures forall k :: 0 <= k < |headers| ==> 0 < headers[k].name.pos && 0 < headers[k].value.pos
      ensures r == match FindHeader(State(), name, 0)
                   case None => None
                   case Some(i) => Some(CString(State().raw, headers[i].value.pos))
    {
      assert HeadersOk(State().headers, offset);
      var i := 0;
      while i < |headers|
        invariant i <= |headers|
        invariant FindHeader(State(), name, 0) == FindHeader(State(), name, i)
      {
        assert HeaderOk(State().headers[i]);
        if EqNoCase(CString(raw[..rawSize], headers[i].name.pos), name) {
          return Some(CString(raw[..rawSize], headers[i].value.pos));
        }
        i := i + 1;
      }
      r := None;
    }
  }

  // ---------- how far one step of a line moves ----------

  lemma StartMoves(p: Parser)
    requires Valid(p) && p.stateM < SM_LINE_LF && p.offset < |p.raw| && Step(p).Go?
    ensures var q := Step(p).next;
      q.stateM <= SM_LINE_LF && (q.offset == p.offset + 1 || (q.offset == p.offset && q.stateM > p.stateM))
  {
    StartStepValid(p);
  }

  lemma LineEndMoves(p: Parser)
    requires Valid(p) && p.stateM == SM_LINE_LF && p.offset < |p.raw| && Step(p).Go?
    ensures Step(p).next.stateM == SM_HEADER
  {
  }

  lemma ClearedValid(p: Parser)
    requires p.raw == [] && p.stateM == SM_START_LINE && p.offset == 0 && p.chunk == Chunk(0, 0, 0)
    requires p.headers == [] && p.contentLength == -1 && p.transferEncoding == 0
    ensures Valid(p)
  {
  }

  lemma ChunkDataStep(p: Parser)
    requires Valid(p) && p.stateM == CHUNK_DATA && 0 < p.chunk.offset < |p.raw|
    ensures ChunkStep(p) == ChunkData(p)
  {
  }

  lemma LineEndStep(p: Parser)
    requires Valid(p) && p.stateM == SM_LINE_LF
    ensures Step(p) == LineEnd(p)
  {
  }

  lemma SlotElsewhere(p: Parser, i: int, x: int)
    requires 0 <= i < 6
    ensures Set(p, i, x).offset == p.offset
  {
  }

  lemma StartIs(p: Parser)
    requires Valid(p) && p.stateM < SM_LINE_LF && p.offset < |p.raw|
    ensures 0 <= p.stateM && 0 <= p.offset && Step(p) == StartStep(p)
  {
    hide StartStep;
  }

  lemma HeaderIs(p: Parser)
    requires Valid(p) && 100 <= p.stateM <= SM_HEADER_LF && p.offset < |p.raw|
    ensures 0 <= p.offset && Step(p) == HeaderStep(p)
  {
    hide HeaderStep;
  }

  /** Where the blanks and the terminator of a continuation line go. */
  lemma JoinPlace(p: Parser)
    requires Valid(p) && p.stateM == SM_HEADER_LF && p.header.value.pos != 0 && p.header.name.pos == 0 &&
      p.headers != []
    ensures 0 <= p.headers[|p.headers| - 1].value.len && 0 <= p.header.value.pos && 0 <= p.header.value.End() < |p.raw|
    ensures p.header.value.pos <= |p.raw|
  {
    assert HeaderOk(p.headers[|p.headers| - 1]);
  }

  /** The last entry of the table is terminated where the handler looks at it. */
  lemma ReadyLast(q: Parser, offset: int, size: int)
    requires ReadyToHandle(q, offset, size)
    ensures q.headers != [] && var h := q.headers[|q.headers| - 1];
      && 0 < h.name.pos && 0 < h.value.pos && 0 <= h.value.len && h.value.End() < |q.raw| && q.raw[h.value.End()] == 0
      && (ChunkedAt(q.raw, h.value.pos) ==> h.value.pos + 7 < |q.raw|)
  {
    var h := q.headers[|q.headers| - 1];
    assert HeaderOk(h);
    TerminatedValue(q.raw, h.value);
  }

  lemma HeaderEndStep(p: Parser)
    requires Valid(p) && p.stateM == SM_HEADER_LF
    ensures Step(p) == HeaderEnd(p)
  {
  }

  lemma HeaderMoves(p: Parser)
    requires Valid(p) && 100 <= p.stateM < SM_HEADER_LF && p.offset < |p.raw| && Step(p).Go?
    ensures var q := Step(p).next;
      100 <= q.stateM <= SM_HEADER_LF && (q.offset == p.offset + 1 || (q.offset == p.offset && q.stateM > p.stateM))
  {
    HeaderStepValid(p);
  }

  lemma HeaderEndMoves(p: Parser)
    requires Valid(p) && p.stateM == SM_HEADER_LF && p.offset < |p.raw| && Step(p).Go?
    ensures var q := Step(p).next; (q.stateM == SM_BODY || q.stateM == SM_HEADER) && q.offset == p.offset + 1
  {
    hide HeaderEnd, Step;
    HeaderEndStep(p);
    HeaderEndValid(p);
    HeaderEndProgress(p);
  }

  lemma ChunkStays(p: Parser)
    requires Valid(p) && IsChunked(p) && 200 <= p.stateM <= 209 && 0 < p.chunk.offset < |p.raw|
    requires ChunkStep(p).Go?
    ensures var q := ChunkStep(p).next;
      q.stateM == SM_DONE || (200 <= q.stateM <= 209 && IsChunked(q))
  {
    ChunkStepValid(p);
    var q := ChunkStep(p).next;
    assert q.chunk.offset != 0;
  }

  // ---------- where a run stops ----------

  lemma DoneAtOnce(p: Parser)
    requires Valid(p) && p.stateM == SM_DONE
    ensures Run(p) == Done(p)
    ensures 0 <= p.contentLength <= |p.raw| - p.offset
  {
  }

  lemma WaitAtOnce(p: Parser)
    requires Valid(p) && Step(p).Wait?
    ensures Run(p) == NeedMore(p)
  {
  }

  lemma WaitAtEnd(p: Parser)
    requires Valid(p) && p.stateM < SM_BODY && p.offset == |p.raw|
    ensures Step(p).Wait?
  {
  }
}
