/** A request rendered as section 6 of RFC 2326 describes, fed to a server's parser in any pieces,
    gives back its request line, its headers in order and its body. */
module RtspRequest {
  import opened Bytes
  import opened RtspChunked
  import opened RtspModel
  import opened RtspRender
  import opened RtspRoundTrip
  import opened RtspRun
  import opened RtspSettled
  import opened RtspSplit
  import opened Seqs

  datatype Request = Request(method_: seq<byte>, uri: seq<byte>, major: int, minor: int,
                             fields: seq<Field>, body: seq<byte>)

  /** Bytes without delimiters and terminators. */
  predicate IsWord(t: seq<byte>) {
    t != [] && forall i :: 0 <= i < |t| ==> !IsDelimiter(t[i]) && t[i] != 0
  }

  /** What can be written as a request line of any version with single digits. */
  predicate IsLineText(r: Request) {
    IsWord(r.method_) && IsWord(r.uri) && 0 <= r.major < 10 && 0 <= r.minor < 10
  }

  /** A request whose body has the length that its fields announce, or a coding. */
  predicate IsRequest(r: Request) {
    IsLineText(r) && IsVersion(r.major, r.minor) && IsFields(r.fields, UNFRAMED) &&
    var f := FramedAll(r.fields, UNFRAMED);
    f.coded || |r.body| == if f.length == -1 then 0 else f.length
  }

  /** Request-Line = Method SP Request-URI SP RTSP-Version CRLF. */
  function RequestLine(r: Request): seq<byte>
    requires IsLineText(r)
  {
    r.method_ + [SP] + r.uri + [SP] + VersionText(r.major, r.minor) + [CR, LF]
  }

  function RenderRequest(r: Request): seq<byte>
    requires IsLineText(r)
  {
    RequestLine(r) + RenderFields(r.fields) + [CR, LF] + r.body
  }

  // ---------- the request line ----------

  function UriAt(r: Request): nat {
    |r.method_| + 1
  }

  function VersionAt(r: Request): nat {
    UriAt(r) + |r.uri| + 1
  }

  lemma LineParts(raw: seq<byte>, r: Request)
    requires IsLineText(r) && Has(raw, 0, RequestLine(r))
    ensures var u, v := UriAt(r), VersionAt(r);
      && v + 9 < |raw| && |RequestLine(r)| == v + 10
      && Has(raw, 0, r.method_) && raw[u - 1] == SP && Has(raw, u, r.uri) && raw[v - 1] == SP
      && Has(raw, v, VersionText(r.major, r.minor)) && raw[v + 8] == CR && raw[v + 9] == LF
  {
    var u, v, version := UriAt(r), VersionAt(r), VersionText(r.major, r.minor);
    assert |version| == 8;
    HasParts(raw, 0, r.method_ + [SP] + r.uri + [SP] + version, [CR, LF]);
    HasParts(raw, 0, r.method_ + [SP] + r.uri + [SP], version);
    HasParts(raw, 0, r.method_ + [SP] + r.uri, [SP]);
    HasParts(raw, 0, r.method_ + [SP], r.uri);
    HasParts(raw, 0, r.method_, [SP]);
    HasTwo(raw, v + 8, CR, LF);
    assert raw[u - 1 + 0] == [SP][0] && raw[v - 1 + 0] == [SP][0];
  }

  lemma WordBytes(raw: seq<byte>, n: nat, t: seq<byte>)
    requires Has(raw, n, t) && IsWord(t)
    ensures n + |t| <= |raw|
    ensures forall i :: n <= i < n + |t| ==> raw[i] == t[i - n] && !IsDelimiter(raw[i]) && raw[i] != 0
  {
    forall i | n <= i < n + |t|
      ensures raw[i] == t[i - n]
    {
      assert raw[n + (i - n)] == t[i - n];
    }
  }

  /** The bytes of a version, wherever it stands. */
  lemma VersionThere(raw: seq<byte>, n: nat, major: int, minor: int)
    requires 0 <= major < 10 && 0 <= minor < 10 && Has(raw, n, VersionText(major, minor))
    ensures n + 8 <= |raw| && PrefixAt(raw, n)
    ensures raw[n + 5] == 48 + major && raw[n + 6] == DOT && raw[n + 7] == 48 + minor
    ensures forall i :: n <= i < n + 8 ==> !IsDelimiter(raw[i])
  {
    assert |VersionText(major, minor)| == 8;
    hide Ascii;
    HasSlice(raw, n, VersionText(major, minor));
    var s := raw[n..n + 8];
    VersionBytes(s, major, minor);
    hide VersionText, Has;
    assert s[0..5] == raw[n..n + 5];
    assert forall i :: 0 <= i < 8 ==> s[i] == raw[n + i];
    forall i | n <= i < n + 8
      ensures !IsDelimiter(raw[i])
    {
      assert !IsDelimiter(s[i - n]);
    }
  }

  /** The parser at the line feed of the rendered request line. */
  function AtRequestEnd(p: Parser, r: Request): Parser {
    p.(method_ := Span(0, |r.method_|), uri := Span(UriAt(r), |r.uri|),
       header := p.header.(name := Span(VersionAt(r), 8)), offset := VersionAt(r) + 9, stateM := SM_LINE_LF)
  }

  lemma RequestScanned(p: Parser, r: Request)
    requires Valid(p) && p.server && p.stateM == SM_START_LINE && p.offset == 0
    requires IsLineText(r) && Has(p.raw, 0, RequestLine(r))
    ensures Valid(AtRequestEnd(p, r)) && AtLineEnd(p) == Some(AtRequestEnd(p, r))
  {
    hide AtLineEnd, Valid, Step, RequestLine, VersionText, Has, IsWord;
    var u, v := UriAt(r), VersionAt(r);
    LineParts(p.raw, r);
    WordBytes(p.raw, 0, r.method_);
    WordBytes(p.raw, u, r.uri);
    VersionThere(p.raw, v, r.major, r.minor);
    WordLength(r);
    TokenPart(p, u - 1);
    var s1 := AfterToken(p, u - 1);
    BlankPart(s1);
    RestScanned(s1.(offset := u), r);
  }

  /** From the second token on. */
  lemma RestScanned(p: Parser, r: Request)
    requires IsLineText(r) && Valid(p) && p.server && p.stateM == SM_SP1 && p.offset == UriAt(r)
    requires p.method_ == Span(0, |r.method_|) && Has(p.raw, 0, RequestLine(r))
    ensures Valid(AtRequestEnd(p, r)) && AtLineEnd(p) == Some(AtRequestEnd(p, r))
  {
    hide AtLineEnd, Valid, Step, RequestLine, VersionText, Has, IsWord;
    var u, v := UriAt(r), VersionAt(r);
    LineParts(p.raw, r);
    WordBytes(p.raw, u, r.uri);
    VersionThere(p.raw, v, r.major, r.minor);
    WordLength(r);
    TokenPart(p, v - 1);
    var s3 := AfterToken(p, v - 1);
    BlankPart(s3);
    var s4 := s3.(offset := v);
    TokenPart(s4, v + 8);
    var s5 := AfterToken(s4, v + 8);
    ReturnPart(s5);
    EndIs(s5.(offset := v + 9, stateM := SM_LINE_LF));
  }

  lemma WordLength(r: Request)
    requires IsLineText(r)
    ensures |r.method_| > 0 && |r.uri| > 0
  {
  }

  lemma EndIs(q: Parser)
    requires Valid(q) && q.stateM == SM_LINE_LF
    ensures AtLineEnd(q) == Some(q)
  {
  }

  /** The line's end. */
  lemma ReturnPart(p: Parser)
    requires Valid(p) && p.stateM == SM_SP3 && 0 <= p.offset && p.offset + 1 < |p.raw|
    requires p.raw[p.offset] == CR && p.raw[p.offset + 1] == LF
    ensures var q := p.(offset := p.offset + 1, stateM := SM_LINE_LF); Valid(q) && AtLineEnd(p) == AtLineEnd(q)
  {
    hide AtLineEnd;
    var s := p.(offset := p.offset + 1, stateM := SM_LINE_CR);
    Towards(p, s);
    Towards(s, s.(stateM := SM_LINE_LF));
  }

  /** The version is read from the line, and nothing behind it. */
  lemma RequestVersion(raw: seq<byte>, r: Request)
    requires IsLineText(r) && Has(raw, 0, RequestLine(r))
    ensures ScanVersion(raw, VersionAt(r)) == Some((r.major, r.minor)) && ScanSettled(raw, VersionAt(r))
  {
    hide ScanInt, ScanIntEnd, RequestLine, VersionText;
    LineParts(raw, r);
    var v := VersionAt(r);
    VersionThere(raw, v, r.major, r.minor);
    ScanDigit(raw, v + 5, r.major);
    ScanDigit(raw, v + 7, r.minor);
  }

  lemma RequestSettled(p: Parser, r: Request)
    requires IsLineText(r) && Valid(p) && p.stateM == SM_LINE_LF && p == AtRequestEnd(p, r)
    requires Has(p.raw, 0, RequestLine(r))
    ensures LineSettled(p)
  {
    LineParts(p.raw, r);
    var s := LineBytes(p);
    assert Has(s, 0, RequestLine(r));
    RequestVersion(s, r);
    hide ScanSettled, RequestLine, Valid, Has;
  }

  lemma RequestReads(raw: seq<byte>, r: Request)
    requires IsLineText(r) && Has(raw, 0, RequestLine(r))
    ensures VersionAt(r) < |raw|
    ensures var raw' := Terminate(Terminate(raw, |r.method_|), VersionAt(r) - 1);
      SpanReads(raw', Span(0, |r.method_|), r.method_) && SpanReads(raw', Span(UriAt(r), |r.uri|), r.uri)
  {
    hide IsWord, Has, RequestLine, SpanReads;
    LineParts(raw, r);
    WordLength(r);
    var raw1 := Terminate(raw, |r.method_|);
    var raw2 := Terminate(raw1, VersionAt(r) - 1);
    WordReads(raw, raw2, Span(0, |r.method_|), r.method_);
    WordReads(raw, raw2, Span(UriAt(r), |r.uri|), r.uri);
  }

  /** A word with a terminator behind it. */
  lemma WordReads(raw: seq<byte>, raw': seq<byte>, s: Span, t: seq<byte>)
    requires 0 <= s.pos && Has(raw, s.pos, t) && IsWord(t) && s.len == |t| && s.End() < |raw'| == |raw|
    requires raw'[s.End()] == 0 && forall i :: s.pos <= i < s.End() ==> raw'[i] == raw[i]
    ensures SpanReads(raw', s, t)
  {
    WordBytes(raw, s.pos, t);
    hide IsWord, Has, SpanReads;
    TextReads(raw', s, t);
  }

  /** The request line is accepted with what it says, if its version is one that the parser takes. */
  lemma RequestAccepted(s: Parser, r: Request)
    requires IsLineText(r) && Valid(s) && s.server && s.stateM == SM_LINE_LF && s == AtRequestEnd(s, r)
    requires Has(s.raw, 0, RequestLine(r))
    ensures LineEnd(s).Go? <==> IsVersion(r.major, r.minor)
    ensures IsVersion(r.major, r.minor) ==> LineEnd(s).next == LineAccepted(s, (r.major, r.minor))
    ensures !IsVersion(r.major, r.minor) ==> LineEnd(s).Bad?
  {
    RequestVersion(s.raw, r);
    WordLength(r);
    hide ScanVersion, ScanSettled, RequestLine, Has, CString, Atoi;
  }

  /** What a server's parser knows of a request line. */
  ghost predicate LineReads(q: Parser, r: Request) {
    q.vermajor == r.major && q.verminor == r.minor && SpanReads(q.raw, q.method_, r.method_) &&
    SpanReads(q.raw, q.uri, r.uri)
  }

  /** From the first byte to the first header line. */
  lemma RequestRun(p: Parser, r: Request) returns (q: Parser)
    requires Valid(p) && p.server && p.stateM == SM_START_LINE && p.offset == 0
    requires IsLineText(r) && IsVersion(r.major, r.minor) && Has(p.raw, 0, RequestLine(r))
    ensures AtLine(q) && Run(p) == Run(q)
    ensures q.headers == [] && q.offset == |RequestLine(r)| && |q.raw| == |p.raw|
    ensures forall i :: q.offset <= i < |q.raw| ==> q.raw[i] == p.raw[i]
    ensures LineReads(q, r) && q.method_.End() < q.offset && q.uri.End() < q.offset
    ensures FramingOf(q) == UNFRAMED && SameNotes(p, q)
  {
    hide Run, AtLineEnd, RequestLine, SpanReads, CString, Atoi, Has;
    RequestScanned(p, r);
    RunThroughLine(p);
    var s := AtRequestEnd(p, r);
    LineParts(p.raw, r);
    RequestReads(p.raw, r);
    RequestAccepted(s, r);
    q := LineEnd(s).next;
    Next(s, q);
  }

  /** A request line of any other version is rejected. */
  lemma RequestRefused(p: Parser, r: Request)
    requires Valid(p) && p.server && p.stateM == SM_START_LINE && p.offset == 0
    requires IsLineText(r) && Has(p.raw, 0, RequestLine(r)) && !IsVersion(r.major, r.minor)
    ensures Run(p).Reject?
  {
    hide Run, AtLineEnd, LineEnd, RequestLine, Has;
    RequestScanned(p, r);
    RunThroughLine(p);
    var s := AtRequestEnd(p, r);
    RequestAccepted(s, r);
    RunStep(s);
  }

  // ---------- the whole request ----------

  /** Request line and headers of the request are in the parser's fields and in its table. */
  ghost predicate RequestHead(q: Parser, r: Request) {
    LineReads(q, r) && Table(q, r.fields)
  }

  lemma RequestRenderParts(raw: seq<byte>, r: Request)
    requires IsLineText(r) && raw == RenderRequest(r)
    ensures var n := |RequestLine(r)|; var m := n + |RenderFields(r.fields)|;
      && Has(raw, 0, RequestLine(r)) && Has(raw, n, RenderFields(r.fields)) && Has(raw, m, [CR, LF])
      && Has(raw, m + 2, r.body) && |raw| == m + 2 + |r.body|
  {
    hide RequestLine, RenderFields;
    var line, lines := RequestLine(r), RenderFields(r.fields);
    assert Has(raw, 0, line + lines + [CR, LF] + r.body);
    HasParts(raw, 0, line + lines + [CR, LF], r.body);
    HasParts(raw, 0, line + lines, [CR, LF]);
    HasParts(raw, 0, line, lines);
  }

  /** From the first byte to the blank line. */
  lemma RequestLines(p: Parser, r: Request) returns (q: Parser)
    requires Valid(p) && p.server && p.stateM == SM_START_LINE && p.offset == 0
    requires IsRequest(r) && p.raw == RenderRequest(r)
    ensures AtLine(q) && Run(p) == Run(q) && RequestHead(q, r)
    ensures q.method_.End() < q.offset && q.uri.End() < q.offset
    ensures FramingOf(q) == FramedAll(r.fields, UNFRAMED) && Notes(p, q, 0, r.fields)
    ensures Has(q.raw, q.offset, [CR, LF]) && Has(q.raw, q.offset + 2, r.body) && |q.raw| == q.offset + 2 + |r.body|
  {
    hide Run, Step, Valid, EqNoCase, RenderField, Framed, FramingOf, Marked, Closings, ValuePlaces, RequestLine;
    RequestRenderParts(p.raw, r);
    var s := RequestRun(p, r);
    HasLater(p.raw, s.raw, s.offset, RenderFields(r.fields));
    q := FieldsRun(s, r.fields);
    SpanKept(s.raw, q.raw, s.method_, r.method_);
    SpanKept(s.raw, q.raw, s.uri, r.uri);
    assert q.headers[|s.headers|..] == q.headers;
    HasLater(p.raw, q.raw, q.offset, [CR, LF]);
    HasLater(p.raw, q.raw, q.offset + 2, r.body);
  }

  lemma RequestHeadSame(p: Parser, q: Parser, r: Request)
    requires RequestHead(p, r) && q.raw == p.raw && q.method_ == p.method_ && q.uri == p.uri && q.headers == p.headers
    requires q.vermajor == p.vermajor && q.verminor == p.verminor
    ensures RequestHead(q, r)
  {
    hide Reads, SpanReads;
  }

  /** From the first byte to the body. */
  lemma RequestHeadRun(p: Parser, r: Request) returns (q: Parser)
    requires Fresh(p) && p.server && IsRequest(r)
    ensures Valid(q) && Valid(Append(p, RenderRequest(r))) && Run(Append(p, RenderRequest(r))) == Run(q)
    ensures q.stateM == SM_BODY && 0 <= q.offset <= |q.raw| && RequestHead(q, r)
    ensures q.method_.End() < q.offset && q.uri.End() < q.offset
    ensures FramingOf(q) == FramedAll(r.fields, UNFRAMED) && q.chunk == Chunk(0, 0, 0) && Notes(p, q, 0, r.fields)
    ensures q.raw[q.offset..] == r.body && Has(q.raw, q.offset, r.body)
  {
    hide Run, Step, RenderRequest, RequestLine, RenderFields, FramedAll, RequestHead, Marked, Closings, ValuePlaces;
    AppendValid(p, RenderRequest(r));
    var s := Append(p, RenderRequest(r));
    assert s.raw == RenderRequest(r);
    var t := RequestLines(s, r);
    BlankRun(t);
    q := AfterBlank(t);
    RequestHeadSame(t, q, r);
    HasSlice(t.raw, t.offset + 2, r.body);
  }

  /** What was rendered is read back: the call completes, the request line, every header in order,
      what the headers say to the parser, the lookup by name and the body are those of the request. */
  lemma RequestRoundTrip(p: Parser, r: Request, name: seq<byte>) returns (q: Parser)
    requires Fresh(p) && p.server && IsRequest(r) && !FramedAll(r.fields, UNFRAMED).coded
    ensures Valid(Append(p, RenderRequest(r))) && Run(Append(p, RenderRequest(r))) == Done(q) && RequestHead(q, r)
    ensures Notes(p, q, 0, r.fields)
    ensures FieldNamed(r.fields, name, 0) ==
      match FindHeader(q, name, 0) { case None => None case Some(i) => Some(CString(q.raw, q.headers[i].value.pos)) }
    ensures q.contentLength == |r.body| && 0 <= q.offset && |q.raw| == q.offset + q.contentLength &&
      q.raw[q.offset..] == r.body
  {
    hide Run, Step, Valid, RenderRequest, RequestLine, FramedAll, FieldNamed, FindHeader, Reads, SpanReads, IsChunked,
      Marked, Closings, ValuePlaces;
    var t := RequestHeadRun(p, r);
    BodyEnd(t);
    q := Run(t).state;
    RequestHeadSame(t, q, r);
    FoundByName(q, r.fields, name, 0);
  }

  /** Request line and headers are read the same after bytes behind them were moved. */
  lemma RequestHeadKept(p: Parser, q: Parser, r: Request)
    requires Valid(p) && p.stateM == SM_BODY && 0 <= p.offset <= |p.raw| && RequestHead(p, r)
    requires p.method_.End() < p.offset && p.uri.End() < p.offset
    requires KeepsHead(p, q) && |q.raw| >= p.offset && q.raw[..p.offset] == p.raw[..p.offset]
    ensures RequestHead(q, r)
  {
    hide Reads, SpanReads, Valid;
    TableKept(p, q, r.fields);
    SpanParts(p.raw, p.method_, r.method_);
    SpanParts(p.raw, p.uri, r.uri);
    forall i | 0 <= i < p.offset
      ensures q.raw[i] == p.raw[i]
    {
      assert q.raw[..p.offset][i] == p.raw[..p.offset][i];
    }
    SpanKept(p.raw, q.raw, p.method_, r.method_);
    SpanKept(p.raw, q.raw, p.uri, r.uri);
  }

  /** A request with Transfer-Encoding: chunked and an encoded body. */
  lemma ChunkedRequest(p: Parser, r: Request, b: Coded, name: seq<byte>) returns (q: Parser)
    requires Fresh(p) && p.server && IsRequest(r) && FramedAll(r.fields, UNFRAMED).coded
    requires r.body == Encode(b) && IsCoded(b)
    ensures Valid(Append(p, RenderRequest(r))) && Run(Append(p, RenderRequest(r))) == Done(q) && RequestHead(q, r)
    ensures Notes(p, q, 0, r.fields)
    ensures FieldNamed(r.fields, name, 0) ==
      match FindHeader(q, name, 0) { case None => None case Some(i) => Some(CString(q.raw, q.headers[i].value.pos)) }
    ensures q.contentLength == |Joined(b.chunks)| && 0 <= q.offset && q.offset + q.contentLength <= |q.raw|
    ensures q.raw[q.offset..q.offset + q.contentLength] == Joined(b.chunks) && q.chunk.offset == |q.raw|
  {
    hide *;
    var t := RequestHeadRun(p, r);
    CodedRequest(r);
    FramingIs(t);
    DecodeEncoded(t.raw, t.offset, b);
    ChunkedBody(t);
    q := Run(t).state;
    BodyKeeps(t);
    RequestHeadKept(t, q, r);
    NotesKept(p, t, q, r.fields);
    RequestTable(q, r);
    FoundByName(q, r.fields, name, 0);
  }

  lemma RequestTable(q: Parser, r: Request)
    requires RequestHead(q, r)
    ensures Table(q, r.fields)
  {
  }

  lemma CodedRequest(r: Request)
    requires IsRequest(r) && FramedAll(r.fields, UNFRAMED).coded
    ensures FramedAll(r.fields, UNFRAMED).length == -1
  {
    CodedLength(r.fields, UNFRAMED);
  }

  // ---------- a request in pieces ----------

  lemma RequestSettledWith(p: Parser, r: Request)
    requires Fresh(p) && p.server && IsLineText(r)
    ensures SettledWith(p, RenderRequest(r))
  {
    hide Valid, AtLineEnd, LineSettled, RequestLine, AtRequestEnd;
    FreshInside(p);
    AppendValid(p, RenderRequest(r));
    var s := Append(p, RenderRequest(r));
    assert s.raw == RenderRequest(r);
    RequestRenderParts(s.raw, r);
    RequestScanned(s, r);
    RequestEndSame(s, r);
    RequestSettled(AtRequestEnd(s, r), r);
  }

  lemma RequestEndSame(p: Parser, r: Request)
    ensures var q := AtRequestEnd(p, r); q == AtRequestEnd(q, r) && q.raw == p.raw && q.stateM == SM_LINE_LF
  {
  }

  /** A rendered request whose bytes all belong to the message, fed in any non-empty pieces, comes to
      what one call makes of it. */
  lemma RequestPieces(p: Parser, r: Request, pieces: seq<seq<byte>>, q: Parser)
    requires Fresh(p) && p.server && IsRequest(r)
    requires Valid(Append(p, RenderRequest(r))) && Run(Append(p, RenderRequest(r))) == Done(q)
    requires q.offset + q.contentLength == |q.raw| || q.chunk.offset == |q.raw|
    requires Concat(pieces) == RenderRequest(r) && pieces != [] && forall i :: 0 <= i < |pieces| ==> pieces[i] != []
    ensures FeedAll(p, pieces) == Done(q)
  {
    RequestIsText(r);
    RequestSettledWith(p, r);
    FreshInside(p);
    FeedIs(p, RenderRequest(r));
    Used(q);
    hide *;
    NoneEarly(p, pieces);
    SplitAnywhere(p, pieces);
  }

  lemma RequestIsText(r: Request)
    requires IsRequest(r)
    ensures IsLineText(r)
  {
  }
}
