/** The incremental RTSP message parser as a state machine on values: the parser's state, the
    representation invariant, one loop iteration (Step) and the whole of one call's work (Run).
    The class in RtspParser is proved against Run; everything the parser promises is proved
    about Run. A failing assertion and a negative return are one outcome, Reject. */
module RtspModel {
  import opened Bytes

  datatype Span = Span(pos: int, len: int) {
    function End(): int { pos + len }
  }

  datatype Header = Header(name: Span, value: Span)

  datatype Chunk = Chunk(offset: int, len: int, pos: int)

  /** The fields of the parser that decide its behaviour; raw holds the first raw_size bytes. */
  datatype Parser = Parser(
    raw: seq<byte>, server: bool, stateM: int, offset: int,
    header: Header, chunk: Chunk, vermajor: int, verminor: int,
    method_: Span, uri: Span, code: int, reason: Span,
    headers: seq<Header>, contentLength: int, connectionClose: int,
    contentEncoding: int, transferEncoding: int, cookie: int, location: int)

  // States of the start line. A request line reads method, URI and version as its three tokens,
  // a status line reads version, code and reason.
  const SM_START_LINE := 0
  const SM_TOKEN1 := 1
  const SM_SP1 := 2
  const SM_TOKEN2 := 3
  const SM_SP2 := 4
  const SM_TOKEN3 := 5
  const SM_SP3 := 6
  const SM_LINE_CR := 7
  const SM_LINE_LF := 8
  // States of a header line.
  const SM_HEADER := 100
  const SM_HEADER_NAME := 101
  const SM_HEADER_SP1 := 102
  const SM_HEADER_SEPARATOR := 103
  const SM_HEADER_SP2 := 104
  const SM_HEADER_VALUE := 105
  const SM_HEADER_SP3 := 106
  const SM_HEADER_CR := 107
  const SM_HEADER_LF := 108
  // States of a chunked body.
  const SM_BODY := 200
  const CHUNK_SIZE := 201
  const CHUNK_EXTENSION := 202
  const CHUNK_EXTENSION_CR := 203
  const CHUNK_DATA := 204
  const CHUNK_TRAILER_START := 205
  const CHUNK_TRAILER := 206
  const CHUNK_TRAILER_CR := 207
  const CHUNK_END := 208
  const CHUNK_END_CR := 209
  const SM_DONE := 300

  predicate IsBlank(c: byte) { c == SP || c == HT }

  predicate IsDelimiter(c: byte) { IsBlank(c) || c == CR || c == LF }

  /** The separators of a token, "()<>@,;:\"/[]?={} and the two blanks. */
  predicate IsSeparator(c: byte) {
    c in Ascii("()<>@,;:\\\"/[]?={} \t")
  }

  predicate IsTokenChar(c: byte) {
    31 < c < 127 && !IsSeparator(c)
  }

  predicate IsToken(s: seq<byte>) {
    forall i :: 0 <= i < |s| ==> IsTokenChar(s[i])
  }

  // ---------- the representation invariant ----------

  /** strncasecmp("chunked", raw + p, 7) == 0 on a buffer whose end is a terminator. */
  predicate ChunkedAt(raw: seq<byte>, p: int) {
    0 <= p && p + 7 <= |raw| && EqNoCase(raw[p..p + 7], Ascii("chunked"))
  }

  predicate IsChunked(p: Parser) {
    p.transferEncoding > 0 && ChunkedAt(p.raw, p.transferEncoding)
  }

  /** The Transfer-Encoding value is complete: either the whole word could be compared, or a
      terminator or blank before the cursor ends the value early. */
  ghost predicate EncodingSettled(raw: seq<byte>, at: int, offset: int) {
    0 < at && offset < at + 7 ==> exists i :: at <= i < offset && i < |raw| && IsStop(raw[i])
  }

  /** The bytes the parser itself writes into the buffer: terminators and blanks. */
  predicate IsStop(c: byte) { c == 0 || c == SP }

  /** The target table v[] of the start-line loops: slot i is a position (even) or a length (odd). */
  function Get(p: Parser, i: int): int
    requires 0 <= i < 6
  {
    var s := Token(p, i / 2);
    if i % 2 == 0 then s.pos else s.len
  }

  function Token(p: Parser, k: int): Span
    requires 0 <= k < 3
  {
    if p.server then
      if k == 0 then p.method_ else if k == 1 then p.uri else p.header.name
    else
      if k == 0 then p.header.name else if k == 1 then p.header.value else p.reason
  }

  function SetToken(p: Parser, k: int, s: Span): Parser
    requires 0 <= k < 3
  {
    if p.server then
      if k == 0 then p.(method_ := s) else if k == 1 then p.(uri := s) else p.(header := p.header.(name := s))
    else
      if k == 0 then p.(header := p.header.(name := s))
      else if k == 1 then p.(header := p.header.(value := s))
      else p.(reason := s)
  }

  function Set(p: Parser, i: int, x: int): Parser
    requires 0 <= i < 6
  {
    var s := Token(p, i / 2);
    SetToken(p, i / 2, if i % 2 == 0 then s.(pos := x) else s.(len := x))
  }

  /** The k-th token was recorded completely, after the one before it. */
  ghost predicate Recorded(p: Parser, k: int)
    requires 0 <= k < 3
  {
    0 <= Token(p, k).pos && 0 <= Token(p, k).len &&
    (k > 0 ==> Token(p, k - 1).End() <= Token(p, k).pos)
  }

  ghost predicate LineOk(p: Parser)
    requires 0 <= p.stateM <= 8
  {
    (p.stateM >= 1 ==> 0 <= Token(p, 0).pos <= p.offset) &&
    (p.stateM >= 2 ==> Recorded(p, 0) && Token(p, 0).End() <= p.offset) &&
    (p.stateM >= 3 ==> Token(p, 0).End() <= Token(p, 1).pos <= p.offset) &&
    (p.stateM >= 4 ==> Recorded(p, 1) && Token(p, 1).End() <= p.offset) &&
    (p.stateM >= 5 ==> Token(p, 1).End() <= Token(p, 2).pos <= p.offset) &&
    (p.stateM >= 6 ==> Recorded(p, 2) && Token(p, 2).End() <= p.offset) &&
    (p.stateM == 8 ==> p.offset < |p.raw| && p.raw[p.offset] == LF) &&
    p.headers == []
  }

  /** A stored header: a non-empty name that ends before its value starts. */
  ghost predicate HeaderOk(h: Header) {
    0 < h.name.pos && 0 < h.name.len && h.name.End() < h.value.pos && 0 <= h.value.len
  }

  /** The stored headers lie one after the other, all of them before position limit. */
  ghost predicate HeadersOk(hs: seq<Header>, limit: int) {
    (forall i :: 0 <= i < |hs| ==> HeaderOk(hs[i]) && hs[i].value.End() < limit) &&
    (forall i, j :: 0 <= i < j < |hs| ==> hs[i].value.End() < hs[j].name.pos)
  }

  /** The header line being read: its spans so far lie behind the cursor and after all
      stored headers. A name at position 0 marks a continuation line, a value at position 0
      the blank line that ends the headers. */
  ghost predicate HeaderLineOk(p: Parser)
    requires 100 <= p.stateM <= 108
  {
    var n, v, s := p.header.name, p.header.value, p.stateM;
    (s == 100 ==> HeadersOk(p.headers, p.offset)) &&
    (101 <= s <= 103 ==> 0 < n.pos <= p.offset && HeadersOk(p.headers, n.pos)) &&
    (102 <= s <= 103 ==> 0 <= n.len && n.End() <= p.offset) &&
    (s >= 104 && n.pos != 0 && !(s >= 107 && v.pos == 0) ==> 0 < n.pos && 0 <= n.len && HeadersOk(p.headers, n.pos)) &&
    (s == 104 ==> if n.pos == 0 then HeadersOk(p.headers, p.offset) else n.End() < p.offset) &&
    (s >= 105 && !(s >= 107 && v.pos == 0) ==>
      0 < v.pos <= p.offset && if n.pos == 0 then HeadersOk(p.headers, v.pos) else n.End() < v.pos) &&
    (s >= 106 && !(s >= 107 && v.pos == 0) ==> 0 <= v.len && v.End() <= p.offset) &&
    (s >= 107 && v.pos == 0 ==> HeadersOk(p.headers, p.offset)) &&
    (s == 108 ==> 0 <= p.offset < |p.raw| && p.raw[p.offset] == LF)
  }

  /** The chunk decoder's room: the decoded bytes end before the byte it reads next. */
  ghost predicate ChunkOk(p: Parser)
    requires 200 <= p.stateM <= 209
  {
    if p.chunk.offset == 0 then
      p.stateM == SM_BODY && p.chunk.len == 0 && -1 <= p.contentLength
    else
      IsChunked(p) && 0 <= p.contentLength &&
      0 < p.offset + p.contentLength <= p.chunk.offset <= |p.raw| &&
      (p.stateM == SM_BODY ==> p.chunk.len == 0) &&
      (p.stateM != SM_BODY ==> p.offset + p.contentLength < p.chunk.offset && 0 <= p.chunk.len) &&
      (p.stateM == CHUNK_DATA ==> 0 < p.chunk.len && p.chunk.pos == p.chunk.offset)
  }

  ghost predicate Valid(p: Parser) {
    0 <= p.offset <= |p.raw| &&
    (0 <= p.stateM <= 8 || 100 <= p.stateM <= 108 || 200 <= p.stateM <= 209 || p.stateM == 300) &&
    (p.stateM >= 100 ==> 0 < p.offset) &&
    (p.stateM < 200 ==> p.chunk == Chunk(0, 0, 0)) &&
    -1 <= p.contentLength &&
    (p.stateM <= 8 ==> LineOk(p) && p.transferEncoding == 0 && p.contentLength == -1) &&
    (100 <= p.stateM <= 108 ==> HeaderLineOk(p)) &&
    (p.stateM >= 200 ==> HeadersOk(p.headers, p.offset)) &&
    (IsChunked(p) ==> p.transferEncoding + 7 < p.offset) &&
    EncodingSettled(p.raw, p.transferEncoding, p.offset) &&
    (200 <= p.stateM <= 209 ==> ChunkOk(p)) &&
    (p.stateM == 300 ==> 0 <= p.contentLength && p.offset + p.contentLength <= |p.raw|)
  }

  /** A parser before its first byte. */
  ghost predicate Fresh(p: Parser) {
    Valid(p) && p.stateM == SM_START_LINE && p.offset == 0 && p.raw == []
  }

  // ---------- one loop iteration ----------

  datatype StepResult =
    | Go(next: Parser)  // the cursor moved, or the state changed at the same byte
    | Wait              // every byte at hand was used
    | Finish            // the message is complete
    | Bad               // malformed

  /** The for loop's increment after a body that did not go back. */
  function Advance(p: Parser): StepResult {
    Go(p.(offset := p.offset + 1))
  }

  // Start line

  /** sscanf(raw + pos, "RTSP/%d.%d", ...) == 2. */
  function ScanVersion(raw: seq<byte>, pos: nat): Option<(int, int)>
  {
    if PrefixAt(raw, pos) then ScanNumbers(raw, pos + 5) else None
  }

  predicate PrefixAt(raw: seq<byte>, pos: nat) {
    pos + 5 <= |raw| && raw[pos..pos + 5] == Ascii("RTSP/")
  }

  function ScanNumbers(raw: seq<byte>, pos: nat): Option<(int, int)>
    requires pos <= |raw|
  {
    match ScanInt(raw, pos)
    case None => None
    case Some(major) => ScanMinor(raw, ScanIntEnd(raw, pos), major)
  }

  function ScanMinor(raw: seq<byte>, pos: nat, major: int): Option<(int, int)>
    requires pos <= |raw|
  {
    if pos == |raw| || raw[pos] != DOT then None
    else
      match ScanInt(raw, pos + 1)
      case None => None
      case Some(minor) => Some((major, minor))
  }

  predicate VersionAllowed(v: Option<(int, int)>) {
    v.Some? && (v.value.0 == 1 || v.value.0 == 2) && (v.value.1 == 1 || v.value.1 == 0)
  }

  function Terminate(raw: seq<byte>, at: int): seq<byte>
    requires 0 <= at < |raw|
  {
    raw[at := 0]
  }

  /** The tests of SM_REQUEST_LF and SM_STATUS_LF on the recorded spans. */
  predicate LineShapeOk(p: Parser) {
    p.header.name.len >= 8 &&
    (if p.server then p.method_.len >= 1 && p.uri.len >= 1
     else p.header.value.len == 3 && p.reason.len >= 1)
  }

  /** The buffer with terminators behind two tokens of the start line. */
  function LineTerminated(p: Parser): (raw: seq<byte>)
    requires Valid(p) && p.stateM == SM_LINE_LF
    ensures |raw| == |p.raw|
  {
    assert Recorded(p, 0) && Recorded(p, 1) && Recorded(p, 2);
    var raw1 := Terminate(p.raw, if p.server then p.method_.End() else p.reason.End());
    Terminate(raw1, if p.server then p.uri.End() else p.header.value.End())
  }

  /** The start line is accepted: two terminators, the version, and a reply's status code. */
  function LineAccepted(p: Parser, version: (int, int)): Parser
    requires Valid(p) && p.stateM == SM_LINE_LF
  {
    assert Recorded(p, 1);
    var raw := LineTerminated(p);
    p.(raw := raw, vermajor := version.0, verminor := version.1,
       code := if p.server then p.code else Atoi(CString(raw, p.header.value.pos)),
       stateM := SM_HEADER, offset := p.offset + 1)
  }

  function LineEnd(p: Parser): StepResult
    requires Valid(p) && p.stateM == SM_LINE_LF
  {
    assert Recorded(p, 0) && Recorded(p, 1) && Recorded(p, 2);
    if !LineShapeOk(p) then Bad
    else
      var version := ScanVersion(p.raw, p.header.name.pos);
      if VersionAllowed(version) then Go(LineAccepted(p, version.value)) else Bad
  }

  function StartStep(p: Parser): StepResult
    requires Valid(p) && p.stateM <= 8 && p.offset < |p.raw|
  {
    var c := p.raw[p.offset];
    if p.stateM == SM_START_LINE || p.stateM == SM_SP1 || p.stateM == SM_SP2 then
      if IsBlank(c) then Advance(p)
      else Go(Set(p, p.stateM, p.offset).(stateM := p.stateM + 1))
    else if p.stateM == SM_TOKEN1 || p.stateM == SM_TOKEN2 || p.stateM == SM_TOKEN3 then
      if IsDelimiter(c) then
        Go(Set(p, p.stateM, p.offset - Get(p, p.stateM - 1)).(stateM := p.stateM + 1))
      else Advance(p)
    else if p.stateM == SM_SP3 then
      if IsBlank(c) then Advance(p)
      else if c == CR then Advance(p.(stateM := SM_LINE_CR))
      else if c == LF then Go(p.(stateM := SM_LINE_LF))
      else Advance(p.(stateM := SM_TOKEN3))
    else if p.stateM == SM_LINE_CR then
      if c != LF then Bad else Go(p.(stateM := SM_LINE_LF))
    else LineEnd(p)
  }

  // Header lines

  /** rtsp_header_handler: what a header means to the parser itself. None is a failed assertion. */
  function Handle(p: Parser, npos: int, vpos: int): Option<Parser>
    requires 0 <= npos && 0 <= vpos
    requires ChunkedAt(p.raw, vpos) ==> vpos + 7 < |p.raw|
  {
    var name := CString(p.raw, npos);
    var value := CString(p.raw, vpos);
    if EqNoCase(Ascii("Content-Length"), name) then
      if IsChunked(p) || Atoi(value) < 0 then None
      else Some(p.(contentLength := Atoi(value)))
    else if EqNoCase(Ascii("Connection"), name) then
      Some(p.(connectionClose := if EqNoCase(Ascii("close"), value) then 1 else 0))
    else if EqNoCase(Ascii("Content-Encoding"), name) then
      Some(p.(contentEncoding := vpos))
    else if EqNoCase(Ascii("Transfer-Encoding"), name) then
      if ChunkedAt(p.raw, vpos) then
        if p.contentLength != -1 then None
        else Some(p.(transferEncoding := vpos, raw := Terminate(p.raw, vpos + 7)))
      else Some(p.(transferEncoding := vpos))
    else if EqNoCase(Ascii("Set-Cookie"), name) then
      Some(p.(cookie := vpos))
    else if EqNoCase(Ascii("Location"), name) then
      Some(p.(location := vpos))
    else Some(p)
  }

  /** rtsp_header_add: None when the name is empty or not a token. */
  function Store(p: Parser): Option<Parser>
    requires 0 <= p.header.name.pos && 0 <= p.header.name.len && p.header.name.End() < |p.raw|
    requires 0 <= p.header.value.End() < |p.raw|
  {
    var n, v := p.header.name, p.header.value;
    if n.len < 1 || !IsToken(p.raw[n.pos..n.End()]) then None
    else Some(p.(raw := Terminate(Terminate(p.raw, n.End()), v.End()), headers := p.headers + [p.header]))
  }

  /** The blanking loop of a continuation line: raw[from..to) becomes spaces. */
  function Blanked(raw: seq<byte>, from: int, to: int): (r: seq<byte>)
    ensures |r| == |raw|
  {
    seq(|raw|, i requires 0 <= i < |raw| => if from <= i < to then SP else raw[i])
  }

  /** A continuation line joined to the header before it. The loop that blanks the line break
      starts at the length of the old value, not at its end. */
  function Join(p: Parser): Parser
    requires p.headers != []
    requires 0 <= p.header.value.End() < |p.raw|
  {
    var h := p.headers[|p.headers| - 1];
    var v := h.value.(len := p.header.value.pos - h.value.pos + p.header.value.len);
    p.(raw := Terminate(Blanked(p.raw, h.value.len, p.header.value.pos), v.End()),
       headers := p.headers[..|p.headers| - 1] + [h.(value := v)])
  }

  /** The header line that ends here goes into the table, by itself or joined to the last entry. */
  function Stored(p: Parser): Option<Parser>
    requires Valid(p) && p.stateM == SM_HEADER_LF && p.header.value.pos != 0
  {
    if p.header.name.pos != 0 then Store(p)
    else if p.headers == [] then None
    else Some(Join(p))
  }

  /** The last header of the table, handled. */
  function HandleLast(p: Parser): Option<Parser>
    requires p.headers != []
    requires var v := p.headers[|p.headers| - 1].value;
      0 <= v.pos && 0 <= v.len && v.End() < |p.raw| && p.raw[v.End()] == 0
    requires 0 <= p.headers[|p.headers| - 1].name.pos
  {
    var h := p.headers[|p.headers| - 1];
    TerminatedValue(p.raw, h.value);
    Handle(p, h.name.pos, h.value.pos)
  }

  function HeaderEnd(p: Parser): StepResult
    requires Valid(p) && p.stateM == SM_HEADER_LF
  {
    if p.header.value.pos == 0 then Advance(p.(stateM := SM_BODY))
    else
      match Stored(p)
      case None => Bad
      case Some(q) =>
        match HandleLast(q)
        case None => Bad
        case Some(r) => Advance(r.(stateM := SM_HEADER))
  }

  /** A terminated value that starts with "chunked" has room for the terminator of that word. */
  lemma TerminatedValue(raw: seq<byte>, v: Span)
    requires 0 <= v.pos && 0 <= v.len && v.End() < |raw| && raw[v.End()] == 0
    ensures ChunkedAt(raw, v.pos) ==> v.pos + 7 <= v.End()
  {
    var word := Ascii("chunked");
    assert forall i :: 0 <= i < 7 ==> Lower(word[i]) != 0;
    if v.End() < v.pos + 7 <= |raw| {
      assert raw[v.pos..v.pos + 7][v.len] == 0;
    }
  }

  function HeaderStep(p: Parser): StepResult
    requires Valid(p) && 100 <= p.stateM <= 108 && p.offset < |p.raw|
  {
    var c := p.raw[p.offset];
    if p.stateM == SM_HEADER then
      if IsBlank(c) then
        Advance(p.(header := p.header.(name := p.header.name.(pos := 0)), stateM := SM_HEADER_SP2))
      else if c == CR then
        Advance(p.(header := p.header.(value := p.header.value.(pos := 0)), stateM := SM_HEADER_CR))
      else if c == LF then
        Go(p.(header := p.header.(value := p.header.value.(pos := 0)), stateM := SM_HEADER_LF))
      else
        Go(p.(header := p.header.(name := p.header.name.(pos := p.offset)), stateM := SM_HEADER_NAME))
    else if p.stateM == SM_HEADER_NAME then
      if IsDelimiter(c) || c == COLON then
        Go(p.(header := p.header.(name := p.header.name.(len := p.offset - p.header.name.pos)),
              stateM := SM_HEADER_SP1))
      else Advance(p)
    else if p.stateM == SM_HEADER_SP1 then
      if IsBlank(c) then Advance(p) else Go(p.(stateM := SM_HEADER_SEPARATOR))
    else if p.stateM == SM_HEADER_SEPARATOR then
      if c != COLON then Bad else Advance(p.(stateM := SM_HEADER_SP2))
    else if p.stateM == SM_HEADER_SP2 then
      if IsBlank(c) then Advance(p)
      else
        Go(p.(header := p.header.(value := p.header.value.(pos := p.offset)), stateM := SM_HEADER_VALUE))
    else if p.stateM == SM_HEADER_VALUE then
      if IsDelimiter(c) then
        Go(p.(header := p.header.(value := p.header.value.(len := p.offset - p.header.value.pos)),
              stateM := SM_HEADER_SP3))
      else Advance(p)
    else if p.stateM == SM_HEADER_SP3 then
      if IsBlank(c) then Advance(p)
      else if c == CR then Advance(p.(stateM := SM_HEADER_CR))
      else if c == LF then Go(p.(stateM := SM_HEADER_LF))
      else Advance(p.(stateM := SM_HEADER_VALUE))
    else if p.stateM == SM_HEADER_CR then
      if c != LF then Bad else Go(p.(stateM := SM_HEADER_LF))
    else HeaderEnd(p)
  }

  // Chunked body

  function Chunk1(p: Parser, stateM: int): StepResult {
    Go(p.(chunk := p.chunk.(offset := p.chunk.offset + 1), stateM := stateM))
  }

  /** The end of a chunk-size line. */
  function ChunkLineEnd(p: Parser): StepResult {
    Go(p.(chunk := p.chunk.(offset := p.chunk.offset + 1, pos := p.chunk.offset + 1),
          stateM := if p.chunk.len == 0 then CHUNK_TRAILER_START else CHUNK_DATA))
  }

  /** memmove within the buffer, and a terminator after the moved bytes. */
  function Moved(raw: seq<byte>, to: int, from: int, n: int): (r: seq<byte>)
    requires 0 <= to < from && 0 <= n && from + n <= |raw|
    ensures |r| == |raw|
  {
    raw[..to] + raw[from..from + n] + [0] + raw[to + n + 1..]
  }

  function ChunkData(p: Parser): StepResult
    requires Valid(p) && p.stateM == CHUNK_DATA && p.chunk.offset < |p.raw|
  {
    var end := p.chunk.pos + p.chunk.len;
    if end + 2 > |p.raw| then Wait
    else if p.raw[end] != CR || p.raw[end + 1] != LF then Bad
    else
      Go(p.(raw := Moved(p.raw, p.offset + p.contentLength, p.chunk.pos, p.chunk.len),
            contentLength := p.contentLength + p.chunk.len,
            chunk := Chunk(p.chunk.offset + p.chunk.len + 2, 0, 0),
            stateM := SM_BODY))
  }

  function ChunkStep(p: Parser): StepResult
    requires Valid(p) && 200 <= p.stateM <= 209 && 0 < p.chunk.offset < |p.raw|
  {
    var c := p.raw[p.chunk.offset];
    if p.stateM == SM_BODY then
      if IsHex(c) then Chunk1(p.(chunk := p.chunk.(len := HexValue(c))), CHUNK_SIZE) else Bad
    else if p.stateM == CHUNK_SIZE then
      if IsHex(c) then Chunk1(p.(chunk := p.chunk.(len := p.chunk.len * 16 + HexValue(c))), CHUNK_SIZE)
      else if IsBlank(c) || c == SEMICOLON then Chunk1(p, CHUNK_EXTENSION)
      else if c == CR then Chunk1(p, CHUNK_EXTENSION_CR)
      else if c == LF then ChunkLineEnd(p)
      else Bad
    else if p.stateM == CHUNK_EXTENSION then
      if c == CR then Chunk1(p, CHUNK_EXTENSION_CR)
      else if c == LF then ChunkLineEnd(p)
      else Chunk1(p, CHUNK_EXTENSION)
    else if p.stateM == CHUNK_EXTENSION_CR then
      if c != LF then Bad else ChunkLineEnd(p)
    else if p.stateM == CHUNK_DATA then ChunkData(p)
    else if p.stateM == CHUNK_TRAILER_START then
      if c == CR then Chunk1(p, CHUNK_END_CR)
      else if c == LF then Chunk1(p, SM_DONE)
      else Chunk1(p, CHUNK_TRAILER)
    else if p.stateM == CHUNK_TRAILER then
      if c == CR then Chunk1(p, CHUNK_TRAILER_CR)
      else if c == LF then Chunk1(p, CHUNK_TRAILER_START)
      else Chunk1(p, CHUNK_TRAILER)
    else if p.stateM == CHUNK_TRAILER_CR then
      if c != LF then Bad else Chunk1(p, CHUNK_TRAILER_START)
    else if p.stateM == CHUNK_END then
      if c == CR then Chunk1(p, CHUNK_END_CR)
      else if c == LF then Chunk1(p, SM_DONE)
      else Bad
    else
      if c != LF then Bad else Chunk1(p, SM_DONE)
  }

  /** The body, by its framing: chunked, to the end of the headers, or by Content-Length. */
  function BodyStep(p: Parser): StepResult
    requires Valid(p) && 200 <= p.stateM <= 209
  {
    if IsChunked(p) then
      if p.chunk.offset == 0 then
        if p.contentLength != -1 then Bad
        else Go(p.(chunk := p.chunk.(offset := p.offset), contentLength := 0))
      else if p.chunk.offset < |p.raw| then ChunkStep(p)
      else Wait
    else if p.contentLength == -1 then Go(p.(contentLength := 0, stateM := SM_DONE))
    else if |p.raw| > p.offset + p.contentLength then Bad
    else if |p.raw| == p.offset + p.contentLength then Go(p.(stateM := SM_DONE))
    else Wait
  }

  function Step(p: Parser): StepResult
    requires Valid(p)
  {
    if p.stateM == SM_DONE then Finish
    else if p.stateM >= SM_BODY then BodyStep(p)
    else if p.offset >= |p.raw| then Wait
    else if p.stateM >= SM_HEADER then HeaderStep(p)
    else StartStep(p)
  }

  // ---------- looking up headers ----------

  /** rtsp_get_header_by_name: the first header from i on with this name, in any case. */
  function FindHeader(p: Parser, name: seq<byte>, i: nat): (r: Option<nat>)
    requires i <= |p.headers|
    requires forall k :: 0 <= k < |p.headers| ==> 0 <= p.headers[k].name.pos
    ensures r.Some? ==> i <= r.value < |p.headers| && EqNoCase(CString(p.raw, p.headers[r.value].name.pos), name)
    ensures forall k :: i <= k < (if r.Some? then r.value else |p.headers|) ==>
      !EqNoCase(CString(p.raw, p.headers[k].name.pos), name)
    decreases |p.headers| - i
  {
    if i == |p.headers| then None
    else if EqNoCase(CString(p.raw, p.headers[i].name.pos), name) then Some(i)
    else FindHeader(p, name, i + 1)
  }
}
