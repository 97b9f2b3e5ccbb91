/** A response rendered as section 7.1 of RFC 2326 describes, fed to a client-mode parser, gives
    back its status line, its headers in order and its body. */
module RtspRender {
  import opened Bytes
  import opened RtspModel
  import opened RtspRun

  datatype Field = Field(name: seq<byte>, value: seq<byte>)

  /** Text of one line without white space at its ends and without terminators inside. */
  predicate IsTrimmed(s: seq<byte>) {
    (forall i :: 0 <= i < |s| ==> s[i] != CR && s[i] != LF && s[i] != 0) &&
    (s != [] ==> !IsBlank(s[0]) && !IsBlank(s[|s| - 1]))
  }

  /** What can be scanned as one header line, whether its name is a token or not. */
  predicate IsWritten(f: Field) {
    f.name != [] && IsTrimmed(f.value) &&
    forall i :: 0 <= i < |f.name| ==> !IsDelimiter(f.name[i]) && f.name[i] != COLON
  }

  /** What can be written as one header line. */
  predicate IsLine(f: Field) {
    f.name != [] && IsToken(f.name) && IsTrimmed(f.value)
  }

  predicate Named(f: Field, name: string) {
    EqNoCase(Ascii(name), f.name)
  }

  predicate IsLength(f: Field) {
    Named(f, "Content-Length")
  }

  predicate IsCoding(f: Field) {
    Named(f, "Transfer-Encoding")
  }

  /** How the fields so far say where the body ends: the last Content-Length, -1 without one, and
      whether there was a Transfer-Encoding. */
  datatype Framing = Framing(length: int, coded: bool)

  /** The only coding is chunked, and a body has either a length or a coding. */
  predicate IsField(f: Field, before: Framing) {
    IsLine(f) &&
    (IsLength(f) ==> Atoi(f.value) >= 0 && !before.coded) &&
    (IsCoding(f) ==> EqNoCase(Ascii("chunked"), f.value) && before.length == -1)
  }

  function Framed(f: Field, before: Framing): Framing {
    if IsLength(f) then before.(length := Atoi(f.value))
    else if IsCoding(f) then before.(coded := true)
    else before
  }

  predicate IsFields(fs: seq<Field>, before: Framing) {
    fs == [] || (IsField(fs[0], before) && IsFields(fs[1..], Framed(fs[0], before)))
  }

  function FramedAll(fs: seq<Field>, before: Framing): Framing {
    if fs == [] then before else FramedAll(fs[1..], Framed(fs[0], before))
  }

  const UNFRAMED := Framing(-1, false)

  function RenderField(f: Field): seq<byte> {
    f.name + [COLON, SP] + f.value + [CR, LF]
  }

  function RenderFields(fs: seq<Field>): seq<byte> {
    if fs == [] then [] else RenderField(fs[0]) + RenderFields(fs[1..])
  }

  // ---------- what the headers say to the parser ----------

  predicate Unnamed(fs: seq<Field>, name: string) {
    forall i :: 0 <= i < |fs| ==> !Named(fs[i], name)
  }

  /** Field i is the last one with this name in any case. */
  predicate LastNamed(fs: seq<Field>, name: string, i: nat) {
    i < |fs| && Named(fs[i], name) && forall j :: i < j < |fs| ==> !Named(fs[j], name)
  }

  /** What is recorded for a name is the mark of the last field with it, and stays as it was if
      there is none. */
  ghost predicate Marked(fs: seq<Field>, name: string, marks: seq<int>, before: int, after: int)
    requires |marks| == |fs|
  {
    (Unnamed(fs, name) ==> after == before) && forall i: nat :: LastNamed(fs, name, i) ==> after == marks[i]
  }

  /** The connection is to be closed if and only if its header says close. */
  function Closings(fs: seq<Field>): (marks: seq<int>)
    ensures |marks| == |fs|
  {
    seq(|fs|, i requires 0 <= i < |fs| => if EqNoCase(Ascii("close"), fs[i].value) then 1 else 0)
  }

  /** Where the values of the headers stand in the buffer. */
  function ValuePlaces(hs: seq<Header>): (marks: seq<int>)
    ensures |marks| == |hs|
  {
    seq(|hs|, i requires 0 <= i < |hs| => hs[i].value.pos)
  }

  /** What the parser records of the fields from header n on. */
  ghost predicate Notes(p: Parser, q: Parser, n: nat, fs: seq<Field>) {
    n + |fs| <= |q.headers| &&
    var places := ValuePlaces(q.headers[n..n + |fs|]);
    Marked(fs, "Connection", Closings(fs), p.connectionClose, q.connectionClose) &&
    Marked(fs, "Content-Encoding", places, p.contentEncoding, q.contentEncoding) &&
    Marked(fs, "Set-Cookie", places, p.cookie, q.cookie) &&
    Marked(fs, "Location", places, p.location, q.location)
  }

  predicate SameNotes(p: Parser, q: Parser) {
    q.connectionClose == p.connectionClose && q.contentEncoding == p.contentEncoding &&
    q.cookie == p.cookie && q.location == p.location
  }

  /** One field. */
  ghost predicate NotesOne(p: Parser, q: Parser, f: Field, place: int) {
    q.connectionClose ==
      (if !Named(f, "Connection") then p.connectionClose else if EqNoCase(Ascii("close"), f.value) then 1 else 0) &&
    q.contentEncoding == (if Named(f, "Content-Encoding") then place else p.contentEncoding) &&
    q.cookie == (if Named(f, "Set-Cookie") then place else p.cookie) &&
    q.location == (if Named(f, "Location") then place else p.location)
  }

  /** Marking the first field and then the others marks all of them. */
  lemma MarkedJoin(fs: seq<Field>, name: string, marks: seq<int>, before: int, between: int, after: int)
    requires fs != [] && |marks| == |fs| && Marked(fs[1..], name, marks[1..], between, after)
    requires between == if Named(fs[0], name) then marks[0] else before
    ensures Marked(fs, name, marks, before, after)
  {
    hide Named;
    var rest := fs[1..];
    forall i: nat | LastNamed(fs, name, i)
      ensures after == marks[i]
    {
      if i > 0 {
        assert LastNamed(rest, name, i - 1);
      } else {
        assert Unnamed(rest, name);
      }
    }
    if Unnamed(fs, name) {
      assert !Named(fs[0], name) && Unnamed(rest, name);
    }
  }

  lemma MarkedNone(name: string, x: int)
    ensures Marked([], name, [], x, x)
  {
  }

  lemma NotesNone(p: Parser)
    ensures Notes(p, p, |p.headers|, [])
  {
    MarkedNone("Connection", p.connectionClose);
    MarkedNone("Content-Encoding", p.contentEncoding);
    MarkedNone("Set-Cookie", p.cookie);
    MarkedNone("Location", p.location);
    hide Marked;
    assert ValuePlaces([]) == [] == Closings([]);
  }

  lemma NotesJoin(p: Parser, q1: Parser, q: Parser, n: nat, fs: seq<Field>)
    requires fs != [] && n < |q.headers| && NotesOne(p, q1, fs[0], q.headers[n].value.pos)
    requires Notes(q1, q, n + 1, fs[1..])
    ensures Notes(p, q, n, fs)
  {
    hide Named, Marked, EqNoCase, Ascii;
    var places := ValuePlaces(q.headers[n..n + |fs|]);
    assert places[1..] == ValuePlaces(q.headers[n + 1..n + 1 + |fs[1..]|]);
    assert Closings(fs)[1..] == Closings(fs[1..]);
    MarkedJoin(fs, "Connection", Closings(fs), p.connectionClose, q1.connectionClose, q.connectionClose);
    MarkedJoin(fs, "Content-Encoding", places, p.contentEncoding, q1.contentEncoding, q.contentEncoding);
    MarkedJoin(fs, "Set-Cookie", places, p.cookie, q1.cookie, q.cookie);
    MarkedJoin(fs, "Location", places, p.location, q1.location, q.location);
  }

  /** The names the parser knows are different ones. */
  lemma NamesDiffer(f: Field)
    ensures Named(f, "Content-Length") ==> !Named(f, "Connection") && !Named(f, "Content-Encoding")
    ensures Named(f, "Content-Length") ==> !Named(f, "Set-Cookie") && !Named(f, "Location")
    ensures Named(f, "Connection") ==> !Named(f, "Content-Encoding") && !Named(f, "Set-Cookie")
    ensures Named(f, "Location") ==> !Named(f, "Connection") && !Named(f, "Content-Encoding") && !Named(f, "Set-Cookie")
    ensures Named(f, "Content-Encoding") ==> !Named(f, "Set-Cookie")
    ensures Named(f, "Transfer-Encoding") ==> !Named(f, "Content-Length") && !Named(f, "Connection")
    ensures Named(f, "Transfer-Encoding") ==> !Named(f, "Content-Encoding") && !Named(f, "Set-Cookie")
    ensures Named(f, "Transfer-Encoding") ==> !Named(f, "Location")
  {
    assert |Ascii("Content-Length")| == 14 && |Ascii("Connection")| == 10 && |Ascii("Content-Encoding")| == 16;
    assert |Ascii("Set-Cookie")| == 10 && |Ascii("Location")| == 8 && |Ascii("Transfer-Encoding")| == 17;
    assert Ascii("Connection")[0] == 67 && Ascii("Set-Cookie")[0] == 83;
    assert Named(f, "Connection") ==> |f.name| == 10 && Lower(f.name[0]) == 99;
    assert Named(f, "Set-Cookie") ==> |f.name| == 10 && Lower(f.name[0]) == 115;
  }

  // ---------- running through a line ----------

  lemma Next(p: Parser, q: Parser)
    requires Valid(p) && Step(p) == Go(q)
    ensures Valid(q) && Run(p) == Run(q)
  {
    StepValid(p);
  }

  /** A header name up to its delimiter. */
  lemma {:induction false} NameRun(p: Parser, e: nat)
    requires Valid(p) && p.stateM == SM_HEADER_NAME && p.offset <= e < |p.raw|
    requires forall i :: p.offset <= i < e ==> !IsDelimiter(p.raw[i]) && p.raw[i] != COLON
    ensures Valid(p.(offset := e)) && Run(p) == Run(p.(offset := e))
    decreases e - p.offset
  {
    if p.offset < e {
      var q := p.(offset := p.offset + 1);
      Next(p, q);
      NameRun(q, e);
    }
  }

  /** The step inside a header value, in front of its end. */
  function ValueNext(p: Parser): Parser
    requires 0 <= p.offset < |p.raw|
  {
    var c := p.raw[p.offset];
    if p.stateM == SM_HEADER_VALUE && (IsBlank(c) || c == CR) then
      p.(header := p.header.(value := p.header.value.(len := p.offset - p.header.value.pos)), stateM := SM_HEADER_SP3)
    else
      p.(offset := p.offset + 1, stateM := if IsBlank(c) then SM_HEADER_SP3 else SM_HEADER_VALUE)
  }

  lemma ValueStep(p: Parser)
    requires Valid(p) && p.offset < |p.raw| && p.raw[p.offset] != LF
    requires p.stateM == SM_HEADER_VALUE || (p.stateM == SM_HEADER_SP3 && p.raw[p.offset] != CR)
    ensures Valid(ValueNext(p)) && Run(p) == Run(ValueNext(p))
  {
    assert Step(p) == Go(ValueNext(p));
    StepValid(p);
  }

  /** A header value with its inner blanks, up to the carriage return behind it. */
  lemma {:induction false} ValueRun(p: Parser, e: nat)
    requires Valid(p) && p.offset <= e < |p.raw| && p.raw[e] == CR
    requires p.stateM == SM_HEADER_VALUE || (p.stateM == SM_HEADER_SP3 && p.offset < e)
    requires forall i :: p.offset <= i < e ==> p.raw[i] != CR && p.raw[i] != LF
    requires p.offset < e ==> !IsBlank(p.raw[e - 1])
    ensures Valid(ValueEnd(p, e)) && Run(p) == Run(ValueEnd(p, e))
    decreases e - p.offset, p.stateM == SM_HEADER_VALUE
  {
    hide Run, Step, Valid;
    Cursor(p);
    ValueStep(p);
    var q := ValueNext(p);
    ValueForward(p, e);
    hide ValueNext, ValueEnd;
    if q.offset < e || q.stateM == SM_HEADER_VALUE {
      ValueRun(q, e);
    }
  }

  /** A step inside a header value goes on, or the value is recorded. */
  lemma ValueForward(p: Parser, e: nat)
    requires 0 <= p.offset <= e < |p.raw| && p.raw[e] == CR
    requires p.stateM == SM_HEADER_VALUE || (p.stateM == SM_HEADER_SP3 && p.offset < e)
    requires forall i :: p.offset <= i < e ==> p.raw[i] != CR && p.raw[i] != LF
    requires p.offset < e ==> !IsBlank(p.raw[e - 1])
    ensures var q := ValueNext(p);
      && q.raw == p.raw && p.offset <= q.offset <= e && ValueEnd(q, e) == ValueEnd(p, e)
      && (q.offset == p.offset ==> p.stateM == SM_HEADER_VALUE && q.stateM == SM_HEADER_SP3)
      && (q.stateM == SM_HEADER_VALUE || (q.stateM == SM_HEADER_SP3 && (q.offset < e || q == ValueEnd(p, e))))
  {
  }

  /** The header value that ends before byte e is recorded. */
  function ValueEnd(p: Parser, e: int): Parser {
    p.(offset := e, header := Header(p.header.name, Span(p.header.value.pos, e - p.header.value.pos)),
       stateM := SM_HEADER_SP3)
  }

  /** The parser at the start of a header line: a Transfer-Encoding so far is chunked. */
  ghost predicate AtLine(p: Parser) {
    Valid(p) && 0 <= p.offset && p.stateM == SM_HEADER && (p.transferEncoding == 0 || IsChunked(p))
  }

  /** What the parser took from the fields so far. */
  function FramingOf(p: Parser): Framing {
    Framing(p.contentLength, IsChunked(p))
  }

  /** A header line up to its colon. */
  lemma NamePart(p: Parser, f: Field)
    requires AtLine(p) && IsWritten(f) && Has(p.raw, p.offset, RenderField(f))
    ensures var n := p.offset; var c := n + |f.name|;
      var q := p.(header := Header(Span(n, |f.name|), p.header.value), offset := c, stateM := SM_HEADER_SP1);
      Valid(q) && Run(p) == Run(q)
  {
    var n, c := p.offset, p.offset + |f.name|;
    hide Run, Step, IsField, RenderField, Has;
    FieldBytes(p.raw, n, f);
    NameBegins(p);
    var s1 := p.(header := Header(Span(n, p.header.name.len), p.header.value), stateM := SM_HEADER_NAME);
    NameRun(s1, c);
    NameEnds(s1.(offset := c));
  }

  lemma NameBegins(p: Parser)
    requires Valid(p) && p.stateM == SM_HEADER && 0 <= p.offset < |p.raw| && !IsDelimiter(p.raw[p.offset])
    ensures var q := p.(header := Header(Span(p.offset, p.header.name.len), p.header.value), stateM := SM_HEADER_NAME);
      Valid(q) && Run(p) == Run(q)
  {
    hide Run;
    Next(p, p.(header := Header(Span(p.offset, p.header.name.len), p.header.value), stateM := SM_HEADER_NAME));
  }

  lemma NameEnds(p: Parser)
    requires Valid(p) && p.stateM == SM_HEADER_NAME && 0 <= p.offset < |p.raw| && p.raw[p.offset] == COLON
    ensures var q := p.(header := Header(Span(p.header.name.pos, p.offset - p.header.name.pos), p.header.value),
      stateM := SM_HEADER_SP1);
      Valid(q) && Run(p) == Run(q)
  {
    hide Run;
    Next(p, p.(header := Header(Span(p.header.name.pos, p.offset - p.header.name.pos), p.header.value),
      stateM := SM_HEADER_SP1));
  }

  /** The colon and the space behind it. */
  lemma ColonPart(p: Parser)
    requires Valid(p) && p.stateM == SM_HEADER_SP1 && p.offset + 2 <= |p.raw|
    requires p.raw[p.offset] == COLON && p.raw[p.offset + 1] == SP
    ensures var q := p.(offset := p.offset + 2, stateM := SM_HEADER_SP2);
      Valid(q) && Run(p) == Run(q)
  {
    var s1 := p.(stateM := SM_HEADER_SEPARATOR);
    Next(p, s1);
    var s2 := p.(offset := p.offset + 1, stateM := SM_HEADER_SP2);
    Next(s1, s2);
    Next(s2, p.(offset := p.offset + 2, stateM := SM_HEADER_SP2));
  }

  /** The bytes of a rendered header line. */
  lemma FieldBytes(raw: seq<byte>, n: nat, f: Field)
    requires IsWritten(f) && Has(raw, n, RenderField(f))
    ensures var c := n + |f.name|; var v := c + 2; var e := v + |f.value|;
      && e + 1 < |raw| && Has(raw, n, f.name) && raw[c] == COLON && raw[c + 1] == SP && Has(raw, v, f.value)
      && raw[e] == CR && raw[e + 1] == LF
      && (forall i :: n <= i < c ==> !IsDelimiter(raw[i]) && raw[i] != COLON)
      && (forall i :: v <= i < e ==> raw[i] != CR && raw[i] != LF && raw[i] != 0)
      && (v < e ==> !IsBlank(raw[v]) && !IsBlank(raw[e - 1]))
  {
    hide IsToken, IsTrimmed, IsDelimiter, IsBlank, Has;
    FieldParts(raw, n, f);
    NameBytes(raw, n, f.name);
    TrimmedBytes(raw, n + |f.name| + 2, f.value);
  }

  lemma FieldParts(raw: seq<byte>, n: nat, f: Field)
    requires Has(raw, n, RenderField(f))
    ensures var c := n + |f.name|; var v := c + 2; var e := v + |f.value|;
      e + 1 < |raw| && Has(raw, n, f.name) && raw[c] == COLON && raw[c + 1] == SP && Has(raw, v, f.value) &&
      raw[e] == CR && raw[e + 1] == LF
  {
    var c := n + |f.name|;
    var e := c + 2 + |f.value|;
    HasParts(raw, n, f.name + [COLON, SP] + f.value, [CR, LF]);
    HasParts(raw, n, f.name + [COLON, SP], f.value);
    HasParts(raw, n, f.name, [COLON, SP]);
    HasTwo(raw, c, COLON, SP);
    HasTwo(raw, e, CR, LF);
    hide Has;
  }

  lemma HasTwo(raw: seq<byte>, p: nat, a: byte, b: byte)
    requires Has(raw, p, [a, b])
    ensures p + 2 <= |raw| && raw[p] == a && raw[p + 1] == b
  {
    assert raw[p + 0] == [a, b][0] && raw[p + 1] == [a, b][1];
  }

  lemma NameBytes(raw: seq<byte>, n: nat, t: seq<byte>)
    requires Has(raw, n, t) && forall i :: 0 <= i < |t| ==> !IsDelimiter(t[i]) && t[i] != COLON
    ensures forall i :: n <= i < n + |t| ==> !IsDelimiter(raw[i]) && raw[i] != COLON
  {
    forall i | n <= i < n + |t|
      ensures !IsDelimiter(raw[i]) && raw[i] != COLON
    {
      assert raw[n + (i - n)] == t[i - n];
    }
  }

  lemma LineWritten(f: Field)
    requires IsLine(f)
    ensures IsWritten(f)
  {
    hide IsTrimmed;
    forall i | 0 <= i < |f.name|
      ensures !IsDelimiter(f.name[i]) && f.name[i] != COLON
    {
      TokenChar(f.name[i]);
    }
  }

  lemma TrimmedBytes(raw: seq<byte>, v: nat, t: seq<byte>)
    requires Has(raw, v, t) && IsTrimmed(t)
    ensures forall i :: v <= i < v + |t| ==> raw[i] != CR && raw[i] != LF && raw[i] != 0
    ensures t != [] ==> !IsBlank(raw[v]) && !IsBlank(raw[v + |t| - 1])
  {
    forall i | v <= i < v + |t|
      ensures raw[i] == t[i - v]
    {
      assert raw[v + (i - v)] == t[i - v];
    }
  }

  lemma TokenChar(c: byte)
    requires IsTokenChar(c)
    ensures c != COLON && !IsDelimiter(c) && c != 0
  {
    var separators := "()<>@,;:\\\"/[]?={} \t";
    assert separators[7] == ':' && separators[17] == ' ';
    assert Ascii(separators)[7] == COLON && Ascii(separators)[17] == SP;
  }

  /** The value and the line end: the parser stands at the line feed with the header's spans. */
  lemma ValuePart(p: Parser, e: nat)
    requires Valid(p) && p.stateM == SM_HEADER_SP2 && p.offset <= e && e + 1 < |p.raw|
    requires p.raw[e] == CR && p.raw[e + 1] == LF
    requires forall i :: p.offset <= i < e ==> p.raw[i] != CR && p.raw[i] != LF
    requires p.offset < e ==> !IsBlank(p.raw[p.offset]) && !IsBlank(p.raw[e - 1])
    ensures var q := p.(header := Header(p.header.name, Span(p.offset, e - p.offset)), offset := e + 1,
      stateM := SM_HEADER_LF);
      Valid(q) && Run(p) == Run(q)
  {
    hide Run;
    var s1 := p.(header := Header(p.header.name, Span(p.offset, p.header.value.len)), stateM := SM_HEADER_VALUE);
    Next(p, s1);
    ValueRun(s1, e);
    LineFeedPart(ValueEnd(s1, e));
  }

  /** The line end behind a recorded value. */
  lemma LineFeedPart(p: Parser)
    requires Valid(p) && p.stateM == SM_HEADER_SP3 && p.offset + 1 < |p.raw|
    requires p.raw[p.offset] == CR && p.raw[p.offset + 1] == LF
    ensures var q := p.(offset := p.offset + 1, stateM := SM_HEADER_LF);
      Valid(q) && Run(p) == Run(q)
  {
    hide Run;
    var s := p.(offset := p.offset + 1, stateM := SM_HEADER_CR);
    Next(p, s);
    Next(s, s.(stateM := SM_HEADER_LF));
  }

  /** The parser at the line feed of a rendered header line. */
  function AtFieldEnd(p: Parser, f: Field): Parser {
    var v := p.offset + |f.name| + 2;
    p.(header := Header(Span(p.offset, |f.name|), Span(v, |f.value|)), offset := v + |f.value| + 1,
      stateM := SM_HEADER_LF)
  }

  /** The parser at the first byte of the value of a rendered header line. */
  function AfterColon(p: Parser, f: Field): Parser {
    p.(header := Header(Span(p.offset, |f.name|), p.header.value), offset := p.offset + |f.name| + 2,
      stateM := SM_HEADER_SP2)
  }

  lemma ToValue(p: Parser, f: Field)
    requires AtLine(p) && IsWritten(f) && Has(p.raw, p.offset, RenderField(f))
    ensures Valid(AfterColon(p, f)) && Run(p) == Run(AfterColon(p, f))
  {
    hide *;
    LineOffset(p);
    FieldColon(p.raw, p.offset, f);
    NamePart(p, f);
    var s := p.(header := Header(Span(p.offset, |f.name|), p.header.value), offset := p.offset + |f.name|,
      stateM := SM_HEADER_SP1);
    ColonPart(s);
    AfterColonIs(p, s, f);
  }

  lemma LineOffset(p: Parser)
    requires AtLine(p)
    ensures 0 <= p.offset
  {
  }

  lemma AfterColonIs(p: Parser, s: Parser, f: Field)
    requires s == p.(header := Header(Span(p.offset, |f.name|), p.header.value), offset := p.offset + |f.name|,
      stateM := SM_HEADER_SP1)
    ensures AfterColon(p, f) == s.(offset := s.offset + 2, stateM := SM_HEADER_SP2)
  {
  }

  lemma FieldColon(raw: seq<byte>, n: nat, f: Field)
    requires IsWritten(f) && Has(raw, n, RenderField(f))
    ensures var c := n + |f.name|; c + 2 <= |raw| && raw[c] == COLON && raw[c + 1] == SP
  {
    FieldBytes(raw, n, f);
    hide *;
  }

  lemma FromValue(p: Parser, f: Field)
    requires 0 <= p.offset && IsWritten(f) && Has(p.raw, p.offset, RenderField(f)) && Valid(AfterColon(p, f))
    ensures Valid(AtFieldEnd(p, f)) && Run(AfterColon(p, f)) == Run(AtFieldEnd(p, f))
  {
    hide Run, Step, Valid, IsLine, Has, RenderField;
    FieldBytes(p.raw, p.offset, f);
    ValuePart(AfterColon(p, f), p.offset + |f.name| + 2 + |f.value|);
  }

  lemma FieldScanned(p: Parser, f: Field)
    requires AtLine(p) && IsWritten(f) && Has(p.raw, p.offset, RenderField(f))
    ensures Valid(AtFieldEnd(p, f)) && Run(p) == Run(AtFieldEnd(p, f))
  {
    assert 0 <= p.offset;
    hide *;
    ToValue(p, f);
    FromValue(p, f);
  }

  // ---------- what a header leaves behind ----------

  /** The span is a C string with this text and its terminator right behind it. */
  ghost predicate SpanReads(raw: seq<byte>, s: Span, text: seq<byte>) {
    0 <= s.pos && s.len == |text| && s.End() < |raw| && raw[s.End()] == 0 && CString(raw, s.pos) == text
  }

  /** A stored header whose name and value can be read as C strings. */
  ghost predicate Reads(raw: seq<byte>, h: Header, f: Field) {
    SpanReads(raw, h.name, f.name) && SpanReads(raw, h.value, f.value)
  }

  lemma SpanKept(raw: seq<byte>, raw': seq<byte>, s: Span, text: seq<byte>)
    requires SpanReads(raw, s, text) && s.End() < |raw'|
    requires forall i :: s.pos <= i <= s.End() ==> raw'[i] == raw[i]
    ensures SpanReads(raw', s, text)
  {
    CStringSame(raw, raw', s.pos, s.End());
  }

  /** The parser after a rendered header line: only the two terminators were written, the header
      is last in the table and the framing is taken over. */
  ghost predicate AfterField(p: Parser, q: Parser, f: Field) {
    AtLine(q) && SameBefore(p, q) && q.offset == p.offset + |RenderField(f)| &&
    |q.headers| == |p.headers| + 1 && q.headers[..|p.headers|] == p.headers &&
    FramingOf(q) == Framed(f, FramingOf(p)) && Reads(q.raw, q.headers[|p.headers|], f) &&
    NotesOne(p, q, f, q.headers[|p.headers|].value.pos)
  }

  /** Nothing but the bytes from p's cursor to q's, the table and what headers set has changed. */
  ghost predicate SameBefore(p: Parser, q: Parser) {
    |q.raw| == |p.raw| && 0 <= p.offset <= q.offset &&
    (forall i :: 0 <= i < |p.raw| && !(p.offset <= i < q.offset) ==> q.raw[i] == p.raw[i]) &&
    q.server == p.server && q.code == p.code && q.reason == p.reason &&
    q.vermajor == p.vermajor && q.verminor == p.verminor && q.method_ == p.method_ && q.uri == p.uri
  }

  /** A rendered header line in the table: two terminators were written behind the line's start. */
  ghost predicate FieldStoredAs(p: Parser, s: Parser, f: Field)
    requires Valid(s) && s.stateM == SM_HEADER_LF && s.header.value.pos != 0
  {
    Stored(s).Some? && var t := Stored(s).value;
    Reads(t.raw, s.header, f) && t == s.(raw := t.raw, headers := p.headers + [s.header]) && |t.raw| == |p.raw| &&
    forall i :: 0 <= i < |p.raw| && !(p.offset <= i <= s.offset) ==> t.raw[i] == p.raw[i]
  }

  lemma FieldStored(p: Parser, f: Field)
    requires AtLine(p) && IsLine(f) && Has(p.raw, p.offset, RenderField(f))
    requires Valid(AtFieldEnd(p, f))
    ensures FieldStoredAs(p, AtFieldEnd(p, f), f)
  {
    assert 0 <= p.offset;
    LineWritten(f);
    hide IsToken, Valid, IsTrimmed, RenderField;
    var s := AtFieldEnd(p, f);
    var n, v := s.header.name, s.header.value;
    FieldBytes(p.raw, p.offset, f);
    HasSlice(p.raw, n.pos, f.name);
    assert Stored(s) == Store(s);
    FieldReads(p.raw, Terminate(Terminate(p.raw, n.End()), v.End()), s.header, f);
  }

  lemma FieldReads(old_: seq<byte>, raw: seq<byte>, h: Header, f: Field)
    requires IsLine(f) && 0 <= h.name.pos && h.name.len == |f.name| && h.value.len == |f.value|
    requires h.name.End() < h.value.pos && h.value.End() < |old_|
    requires Has(old_, h.name.pos, f.name) && Has(old_, h.value.pos, f.value)
    requires raw == old_[h.name.End() := 0][h.value.End() := 0]
    ensures Reads(raw, h, f)
  {
    hide IsToken, IsTrimmed, Has, SpanReads;
    TokenText(old_, h.name.pos, f.name);
    TrimmedText(old_, h.value.pos, f.value);
    assert forall i :: 0 <= i < |raw| && i != h.name.End() && i != h.value.End() ==> raw[i] == old_[i];
    TextReads(raw, h.name, f.name);
    TextReads(raw, h.value, f.value);
  }

  lemma TokenText(raw: seq<byte>, n: nat, t: seq<byte>)
    requires Has(raw, n, t) && IsToken(t)
    ensures n + |t| <= |raw| && forall i :: n <= i < n + |t| ==> raw[i] == t[i - n] && raw[i] != 0
  {
    forall i | n <= i < n + |t|
      ensures raw[i] == t[i - n] && raw[i] != 0
    {
      assert raw[n + (i - n)] == t[i - n];
      TokenChar(t[i - n]);
    }
  }

  lemma TrimmedText(raw: seq<byte>, n: nat, t: seq<byte>)
    requires Has(raw, n, t) && IsTrimmed(t)
    ensures n + |t| <= |raw| && forall i :: n <= i < n + |t| ==> raw[i] == t[i - n] && raw[i] != 0
  {
    forall i | n <= i < n + |t|
      ensures raw[i] == t[i - n]
    {
      assert raw[n + (i - n)] == t[i - n];
    }
  }

  /** Text with a terminator behind it reads as a C string. */
  lemma TextReads(raw: seq<byte>, s: Span, t: seq<byte>)
    requires 0 <= s.pos && s.len == |t| && s.End() < |raw| && raw[s.End()] == 0
    requires forall i :: s.pos <= i < s.End() ==> raw[i] == t[i - s.pos] && raw[i] != 0
    ensures SpanReads(raw, s, t)
  {
    CStringIs(raw, s.pos, s.len);
    assert raw[s.pos..s.End()] == t;
  }

  /** Handling a stored header of this kind changes no byte and takes the framing over. */
  lemma FieldHandled(q: Parser, f: Field, offset: int, size: int)
    requires ReadyToHandle(q, offset, size) && (q.transferEncoding == 0 || IsChunked(q))
    requires IsField(f, FramingOf(q)) && Reads(q.raw, q.headers[|q.headers| - 1], f)
    ensures HandleLast(q).Some?
    ensures HandledAs(q, HandleLast(q).value, f)
  {
    var h := q.headers[|q.headers| - 1];
    assert HeaderOk(h) && h.value.End() < offset + 1;
    TerminatedValue(q.raw, h.value);
    if IsCoding(f) {
      CodingHandled(q, f, h);
    } else {
      NamesDiffer(f);
      hide ChunkedAt, CString, EqNoCase, Atoi, Terminate, Ascii;
    }
  }

  /** What handling changes. */
  ghost predicate HandledAs(q: Parser, r: Parser, f: Field) {
    q.headers != [] &&
    r == q.(contentLength := r.contentLength, connectionClose := r.connectionClose,
            contentEncoding := r.contentEncoding, transferEncoding := r.transferEncoding, cookie := r.cookie,
            location := r.location) &&
    FramingOf(r) == Framed(f, FramingOf(q)) && (r.transferEncoding == 0 || IsChunked(r)) &&
    NotesOne(q, r, f, q.headers[|q.headers| - 1].value.pos)
  }

  /** The value chunked ends where the parser would cut it off. */
  lemma CodingHandled(q: Parser, f: Field, h: Header)
    requires IsField(f, FramingOf(q)) && IsCoding(f) && Reads(q.raw, h, f) && 0 < h.value.pos
    requires q.headers != [] && h == q.headers[|q.headers| - 1]
    requires ChunkedAt(q.raw, h.value.pos) ==> h.value.pos + 7 < |q.raw|
    ensures Handle(q, h.name.pos, h.value.pos).Some?
    ensures HandledAs(q, Handle(q, h.name.pos, h.value.pos).value, f)
  {
    NamesDiffer(f);
    var v := h.value.pos;
    CStringBytes(q.raw, v, h.value.End());
    assert |f.value| == 7;
    assert q.raw[v..v + 7] == f.value;
    assert q.raw[v + 7] == 0;
    assert Terminate(q.raw, v + 7) == q.raw;
    hide CString, EqNoCase, Atoi, Ascii;
  }

  /** One rendered header line, from line start to line start. */
  lemma FieldRun(p: Parser, f: Field) returns (q: Parser)
    requires AtLine(p) && IsField(f, FramingOf(p)) && Has(p.raw, p.offset, RenderField(f))
    ensures AfterField(p, q, f) && Run(p) == Run(q)
  {
    assert 0 <= p.offset;
    hide Run, Step, Valid, Has, IsField, IsLine, IsWritten, Framed, FramingOf, Reads, IsChunked, HandledAs, AfterField,
      Stored, RenderField;
    FieldLine(f, FramingOf(p));
    FieldScanned(p, f);
    FieldStored(p, f);
    var s := AtFieldEnd(p, f);
    var r;
    r, q := FieldEnd(p, s, f);
    Next(s, q);
    FieldDone(p, s, Stored(s).value, r, q, f);
  }

  lemma FieldLine(f: Field, before: Framing)
    requires IsField(f, before)
    ensures IsLine(f) && IsWritten(f)
  {
    LineWritten(f);
  }

  /** The step at the line feed of a rendered header line. */
  lemma FieldEnd(p: Parser, s: Parser, f: Field) returns (r: Parser, q: Parser)
    requires AtLine(p) && IsField(f, FramingOf(p)) && Valid(s) && s == AtFieldEnd(p, f) && FieldStoredAs(p, s, f)
    ensures q == r.(offset := s.offset + 1, stateM := SM_HEADER) && Valid(q) && Step(s) == Go(q)
    ensures HandledAs(Stored(s).value, r, f) && FramingOf(Stored(s).value) == FramingOf(p)
  {
    hide Handle, IsField, Framed, Has, HandledAs, Reads, ReadyToHandle, Stored, HandleLast, Step, Valid, IsChunked;
    var t := Stored(s).value;
    StoredValid(s);
    FramingKept(p, t);
    FieldHandled(t, f, s.offset, |s.raw|);
    HandledStep(s, t);
    r := HandleLast(t).value;
    q := r.(offset := s.offset + 1, stateM := SM_HEADER);
  }

  lemma HandledStep(p: Parser, t: Parser)
    requires Valid(p) && p.stateM == SM_HEADER_LF && p.header.value.pos != 0 && Stored(p) == Some(t)
    requires ReadyToHandle(t, p.offset, |p.raw|) && HandleLast(t).Some?
    ensures var q := HandleLast(t).value.(offset := p.offset + 1, stateM := SM_HEADER); Valid(q) && Step(p) == Go(q)
  {
    hide Handle, Stored, IsChunked, EncodingSettled;
    HandledValid(t, p.offset, |p.raw|);
  }

  lemma FieldDone(p: Parser, s: Parser, t: Parser, r: Parser, q: Parser, f: Field)
    requires AtLine(p) && Valid(s) && s == AtFieldEnd(p, f) && FieldStoredAs(p, s, f) && t == Stored(s).value
    requires HandledAs(t, r, f) && FramingOf(t) == FramingOf(p)
    requires q == r.(offset := s.offset + 1, stateM := SM_HEADER) && Valid(q)
    ensures AfterField(p, q, f)
  {
    assert 0 <= p.offset;
    assert IsChunked(q) == IsChunked(r);
    hide Valid, Reads, IsChunked, Framed, Stored;
  }

  /** Writes behind the cursor of a header line do not touch an earlier Transfer-Encoding. */
  lemma FramingKept(p: Parser, q: Parser)
    requires AtLine(p) && q.transferEncoding == p.transferEncoding && q.contentLength == p.contentLength
    requires |q.raw| == |p.raw| && forall i :: 0 <= i < p.offset ==> q.raw[i] == p.raw[i]
    ensures FramingOf(q) == FramingOf(p)
  {
    if p.transferEncoding > 0 {
      ChunkedFrame(p.raw, q.raw, p.transferEncoding);
    }
  }

  /** All rendered header lines: the table holds each name and value, in order. */
  ghost predicate AfterFields(p: Parser, q: Parser, fs: seq<Field>) {
    AtLine(q) && SameBefore(p, q) && q.offset == p.offset + |RenderFields(fs)| &&
    |q.headers| == |p.headers| + |fs| && q.headers[..|p.headers|] == p.headers &&
    FramingOf(q) == FramedAll(fs, FramingOf(p)) && Notes(p, q, |p.headers|, fs) &&
    forall i :: 0 <= i < |fs| ==> Reads(q.raw, q.headers[|p.headers| + i], fs[i])
  }

  lemma HasSame(raw: seq<byte>, raw': seq<byte>, p: nat, t: seq<byte>)
    requires Has(raw, p, t) && |raw'| == |raw|
    requires forall i :: p <= i < |raw| ==> raw'[i] == raw[i]
    ensures Has(raw', p, t)
  {
  }

  lemma SameTwice(p: Parser, q1: Parser, q: Parser)
    requires SameBefore(p, q1) && SameBefore(q1, q)
    ensures SameBefore(p, q)
  {
  }

  /** A header that was read before the cursor is read the same later. */
  lemma ReadsKept(q1: Parser, q: Parser, h: Header, f: Field)
    requires SameBefore(q1, q) && HeaderOk(h) && Reads(q1.raw, h, f) && h.value.End() < q1.offset
    ensures Reads(q.raw, h, f)
  {
    SpanKept(q1.raw, q.raw, h.name, f.name);
    SpanKept(q1.raw, q.raw, h.value, f.value);
  }

  lemma AfterFieldParts(p: Parser, q: Parser, f: Field)
    requires AfterField(p, q, f)
    ensures AtLine(q) && SameBefore(p, q) && q.offset == p.offset + |RenderField(f)|
    ensures |q.headers| == |p.headers| + 1 && q.headers[..|p.headers|] == p.headers
    ensures FramingOf(q) == Framed(f, FramingOf(p))
    ensures var h := q.headers[|p.headers|];
      HeaderOk(h) && h.value.End() < q.offset && Reads(q.raw, h, f) && NotesOne(p, q, f, h.value.pos)
  {
    hide NotesOne, Reads, SameBefore, CString, Framed, RenderField, FramingOf;
  }

  lemma AfterFieldsParts(p: Parser, q: Parser, fs: seq<Field>)
    requires AfterFields(p, q, fs)
    ensures AtLine(q) && SameBefore(p, q) && q.offset == p.offset + |RenderFields(fs)|
    ensures |q.headers| == |p.headers| + |fs| && q.headers[..|p.headers|] == p.headers
    ensures FramingOf(q) == FramedAll(fs, FramingOf(p)) && Notes(p, q, |p.headers|, fs)
    ensures forall i :: 0 <= i < |fs| ==> Reads(q.raw, q.headers[|p.headers| + i], fs[i])
  {
    hide AtLine, Reads, SameBefore, FramingOf, FramedAll, RenderFields, Notes;
  }

  lemma MakeAfterFields(p: Parser, q: Parser, fs: seq<Field>)
    requires AtLine(q) && SameBefore(p, q) && q.offset == p.offset + |RenderFields(fs)|
    requires |q.headers| == |p.headers| + |fs| && q.headers[..|p.headers|] == p.headers
    requires FramingOf(q) == FramedAll(fs, FramingOf(p)) && Notes(p, q, |p.headers|, fs)
    requires forall i :: 0 <= i < |fs| ==> Reads(q.raw, q.headers[|p.headers| + i], fs[i])
    ensures AfterFields(p, q, fs)
  {
    hide AtLine, Reads, SameBefore, FramingOf, FramedAll, RenderFields, Notes;
  }

  lemma FieldsJoin(p: Parser, q1: Parser, q: Parser, fs: seq<Field>)
    requires fs != [] && AfterField(p, q1, fs[0]) && AfterFields(q1, q, fs[1..])
    ensures AfterFields(p, q, fs)
  {
    hide *;
    AfterFieldParts(p, q1, fs[0]);
    AfterFieldsParts(q1, q, fs[1..]);
    SameTwice(p, q1, q);
    ReadsKept(q1, q, q1.headers[|p.headers|], fs[0]);
    FieldsSize(fs, FramingOf(p));
    TableJoin(q.raw, |p.headers|, q1.headers, q.headers, fs);
    HeaderStays(q1.headers, q.headers, |p.headers|);
    NotesJoin(p, q1, q, |p.headers|, fs);
    MakeAfterFields(p, q, fs);
  }

  lemma HeaderStays(hs1: seq<Header>, hs: seq<Header>, n: nat)
    requires |hs1| == n + 1 <= |hs| && hs[..n + 1] == hs1
    ensures hs[n] == hs1[n]
  {
    assert hs[n] == hs[..n + 1][n];
  }

  lemma FieldsSize(fs: seq<Field>, before: Framing)
    requires fs != []
    ensures |RenderFields(fs)| == |RenderField(fs[0])| + |RenderFields(fs[1..])|
    ensures FramedAll(fs, before) == FramedAll(fs[1..], Framed(fs[0], before))
  {
    hide RenderField, Framed;
  }

  /** A table that begins with another one and goes on with the headers of the later fields. */
  lemma TableJoin(raw: seq<byte>, n: nat, hs1: seq<Header>, hs: seq<Header>, fs: seq<Field>)
    requires fs != [] && |hs1| == n + 1 && |hs| == n + |fs| && hs[..n + 1] == hs1 && Reads(raw, hs1[n], fs[0])
    requires forall i :: 0 <= i < |fs[1..]| ==> Reads(raw, hs[|hs1| + i], fs[1..][i])
    ensures hs[..n] == hs1[..n] && forall i :: 0 <= i < |fs| ==> Reads(raw, hs[n + i], fs[i])
  {
    hide Reads;
    assert hs[n] == hs[..n + 1][n];
    forall i | 0 <= i < |fs|
      ensures Reads(raw, hs[n + i], fs[i])
    {
      if i > 0 {
        assert fs[1..][i - 1] == fs[i] && hs[|hs1| + (i - 1)] == hs[n + i];
      }
    }
  }

  lemma {:induction false} FieldsRun(p: Parser, fs: seq<Field>) returns (q: Parser)
    requires AtLine(p) && IsFields(fs, FramingOf(p)) && Has(p.raw, p.offset, RenderFields(fs))
    ensures AfterFields(p, q, fs) && Run(p) == Run(q)
    decreases |fs|
  {
    hide Run;
    if fs == [] {
      q := p;
      NotesNone(p);
    } else {
      HasParts(p.raw, p.offset, RenderField(fs[0]), RenderFields(fs[1..]));
      var q1 := FieldRun(p, fs[0]);
      HasSame(p.raw, q1.raw, q1.offset, RenderFields(fs[1..]));
      q := FieldsRun(q1, fs[1..]);
      FieldsJoin(p, q1, q, fs);
    }
  }

  // ---------- the status line ----------

  /** A token of the start line up to its delimiter. */
  lemma {:induction false} TokenRun(p: Parser, e: nat)
    requires Valid(p) && (p.stateM == SM_TOKEN1 || p.stateM == SM_TOKEN2) && p.offset <= e < |p.raw|
    requires forall i :: p.offset <= i < e ==> !IsDelimiter(p.raw[i])
    ensures Valid(p.(offset := e)) && Run(p) == Run(p.(offset := e))
    decreases e - p.offset
  {
    hide Run;
    if p.offset < e {
      var q := p.(offset := p.offset + 1);
      Next(p, q);
      TokenRun(q, e);
    }
  }

  /** The step inside a reason phrase, in front of its end. */
  function ReasonNext(p: Parser): Parser
    requires 0 <= p.offset < |p.raw|
  {
    var c := p.raw[p.offset];
    if p.stateM == SM_TOKEN3 && (IsBlank(c) || c == CR) then
      p.(reason := Span(p.reason.pos, p.offset - p.reason.pos), stateM := SM_SP3)
    else
      p.(offset := p.offset + 1, stateM := if IsBlank(c) then SM_SP3 else SM_TOKEN3)
  }

  lemma ReasonStep(p: Parser)
    requires Valid(p) && !p.server && p.offset < |p.raw| && p.raw[p.offset] != LF
    requires p.stateM == SM_TOKEN3 || (p.stateM == SM_SP3 && p.raw[p.offset] != CR)
    ensures Valid(ReasonNext(p)) && Run(p) == Run(ReasonNext(p))
  {
    hide Run;
    assert Step(p) == Go(ReasonNext(p));
    Next(p, ReasonNext(p));
  }

  /** A reason phrase with its inner blanks. */
  lemma {:induction false} ReasonRun(p: Parser, e: nat)
    requires Valid(p) && !p.server && p.offset <= e < |p.raw| && p.raw[e] == CR
    requires p.stateM == SM_TOKEN3 || (p.stateM == SM_SP3 && p.offset < e)
    requires forall i :: p.offset <= i < e ==> p.raw[i] != CR && p.raw[i] != LF
    requires p.offset < e ==> !IsBlank(p.raw[e - 1])
    ensures Valid(ReasonEnd(p, e)) && Run(p) == Run(ReasonEnd(p, e))
    decreases e - p.offset, p.stateM == SM_TOKEN3
  {
    hide Run, Step, Valid;
    Cursor(p);
    ReasonStep(p);
    var q := ReasonNext(p);
    assert ReasonEnd(q, e) == ReasonEnd(p, e);
    if q.offset < e || q.stateM == SM_TOKEN3 {
      ReasonRun(q, e);
    } else {
      assert q == ReasonEnd(p, e);
    }
  }

  /** The reason phrase that ends before byte e is recorded. */
  function ReasonEnd(p: Parser, e: int): Parser {
    p.(offset := e, reason := Span(p.reason.pos, e - p.reason.pos), stateM := SM_SP3)
  }

  datatype Response = Response(major: int, minor: int, code: seq<byte>, reason: seq<byte>,
                               fields: seq<Field>, body: seq<byte>)

  /** The versions that the parser takes. */
  predicate IsVersion(major: int, minor: int) {
    (major == 1 || major == 2) && (minor == 0 || minor == 1)
  }

  /** What can be written as a status line that is accepted. */
  predicate IsStatus(r: Response) {
    IsVersion(r.major, r.minor) && IsStatusText(r)
  }

  /** The same of any version with single digits. */
  predicate IsStatusText(r: Response) {
    0 <= r.major < 10 && 0 <= r.minor < 10 &&
    |r.code| == 3 && (forall i :: 0 <= i < 3 ==> IsDigit(r.code[i])) &&
    r.reason != [] && IsTrimmed(r.reason)
  }

  /** A response whose body has the length that its fields announce, or a coding. */
  predicate IsResponse(r: Response) {
    IsStatus(r) && IsFields(r.fields, UNFRAMED) &&
    var f := FramedAll(r.fields, UNFRAMED);
    f.coded || |r.body| == if f.length == -1 then 0 else f.length
  }

  function VersionText(major: int, minor: int): seq<byte>
    requires 0 <= major < 10 && 0 <= minor < 10
  {
    Ascii("RTSP/") + [48 + major, DOT, 48 + minor]
  }

  /** Status-Line = RTSP-Version SP Status-Code SP Reason-Phrase CRLF. */
  function StatusLine(r: Response): seq<byte>
    requires IsStatusText(r)
  {
    VersionText(r.major, r.minor) + [SP] + r.code + [SP] + r.reason + [CR, LF]
  }

  function Render(r: Response): seq<byte>
    requires IsStatus(r)
  {
    StatusLine(r) + RenderFields(r.fields) + [CR, LF] + r.body
  }

  lemma StatusBytes(raw: seq<byte>, r: Response)
    requires IsStatusText(r) && Has(raw, 0, StatusLine(r))
    ensures var e := 13 + |r.reason|;
      && e + 1 < |raw| && Has(raw, 0, VersionText(r.major, r.minor)) && raw[8] == SP && Has(raw, 9, r.code)
      && raw[12] == SP
      && Has(raw, 13, r.reason) && raw[e] == CR && raw[e + 1] == LF
      && (forall i :: 0 <= i < 8 ==> !IsDelimiter(raw[i]))
      && (forall i :: 9 <= i < 12 ==> !IsDelimiter(raw[i]) && raw[i] != 0)
      && (forall i :: 13 <= i < e ==> raw[i] != CR && raw[i] != LF && raw[i] != 0)
      && !IsBlank(raw[13]) && !IsBlank(raw[e - 1])
  {
    StatusParts(raw, r);
    VersionBytes(raw, r.major, r.minor);
    hide StatusLine, VersionText;
    forall i | 9 <= i < 12
      ensures IsDigit(raw[i])
    {
      assert raw[9 + (i - 9)] == r.code[i - 9];
    }
    forall i | 13 <= i < 13 + |r.reason|
      ensures raw[i] == r.reason[i - 13]
    {
      assert raw[13 + (i - 13)] == r.reason[i - 13];
    }
    hide Has;
  }

  lemma StatusParts(raw: seq<byte>, r: Response)
    requires IsStatusText(r) && Has(raw, 0, StatusLine(r))
    ensures var e := 13 + |r.reason|;
      && e + 1 < |raw| && Has(raw, 0, VersionText(r.major, r.minor)) && raw[8] == SP && Has(raw, 9, r.code)
      && raw[12] == SP
      && Has(raw, 13, r.reason) && raw[e] == CR && raw[e + 1] == LF
  {
    var v := VersionText(r.major, r.minor);
    assert |v| == 8;
    HasParts(raw, 0, v + [SP] + r.code + [SP] + r.reason, [CR, LF]);
    HasParts(raw, 0, v + [SP] + r.code + [SP], r.reason);
    HasParts(raw, 0, v + [SP] + r.code, [SP]);
    HasParts(raw, 0, v + [SP], r.code);
    HasParts(raw, 0, v, [SP]);
    var e := 13 + |r.reason|;
    assert raw[e + 0] == [CR, LF][0] && raw[e + 1] == [CR, LF][1];
    assert raw[8 + 0] == [SP][0] && raw[12 + 0] == [SP][0];
  }

  lemma VersionBytes(raw: seq<byte>, major: int, minor: int)
    requires 0 <= major < 10 && 0 <= minor < 10 && Has(raw, 0, VersionText(major, minor))
    ensures PrefixAt(raw, 0) && raw[5] == 48 + major && raw[6] == DOT && raw[7] == 48 + minor
    ensures forall i :: 0 <= i < 8 ==> !IsDelimiter(raw[i])
  {
    var word := "RTSP/";
    var v := VersionText(major, minor);
    HasParts(raw, 0, Ascii(word), [48 + major, DOT, 48 + minor]);
    HasSlice(raw, 0, Ascii(word));
    assert raw[5 + 0] == [48 + major, DOT, 48 + minor][0];
    assert raw[5 + 1] == [48 + major, DOT, 48 + minor][1];
    assert raw[5 + 2] == [48 + major, DOT, 48 + minor][2];
    forall i | 0 <= i < 5
      ensures raw[i] > 32
    {
      assert raw[0 + i] == Ascii(word)[i];
    }
  }

  lemma VersionPart(p: Parser, r: Response)
    requires Valid(p) && p.stateM == SM_START_LINE && p.offset == 0 && !p.server
    requires IsStatusText(r) && Has(p.raw, 0, StatusLine(r))
    ensures var q := p.(header := Header(Span(0, 8), Span(9, p.header.value.len)), offset := 9, stateM := SM_TOKEN2);
      Valid(q) && Run(p) == Run(q)
  {
    hide Run;
    StatusBytes(p.raw, r);
    var s1 := p.(header := Header(Span(0, p.header.name.len), p.header.value), stateM := SM_TOKEN1);
    Next(p, s1);
    TokenRun(s1, 8);
    var s2 := p.(header := Header(Span(0, 8), p.header.value), offset := 8, stateM := SM_SP1);
    Next(s1.(offset := 8), s2);
    Next(s2, s2.(offset := 9));
    Next(s2.(offset := 9), p.(header := Header(Span(0, 8), Span(9, p.header.value.len)), offset := 9,
      stateM := SM_TOKEN2));
  }

  lemma CodePart(p: Parser, r: Response)
    requires Valid(p) && p.stateM == SM_TOKEN2 && p.offset == 9 && !p.server && p.header.value.pos == 9
    requires IsStatusText(r) && Has(p.raw, 0, StatusLine(r))
    ensures var q := p.(header := Header(p.header.name, Span(9, 3)), offset := 13, reason := Span(13, p.reason.len),
      stateM := SM_TOKEN3);
      Valid(q) && Run(p) == Run(q)
  {
    hide Run;
    StatusBytes(p.raw, r);
    TokenRun(p, 12);
    var s1 := p.(header := Header(p.header.name, Span(9, 3)), offset := 12, stateM := SM_SP2);
    Next(p.(offset := 12), s1);
    Next(s1, s1.(offset := 13));
    Next(s1.(offset := 13), s1.(offset := 13, reason := Span(13, p.reason.len), stateM := SM_TOKEN3));
  }

  lemma ReasonPart(p: Parser, r: Response)
    requires Valid(p) && p.stateM == SM_TOKEN3 && p.offset == 13 && !p.server && p.reason.pos == 13
    requires IsStatusText(r) && Has(p.raw, 0, StatusLine(r))
    ensures var q := p.(offset := 14 + |r.reason|, reason := Span(13, |r.reason|), stateM := SM_LINE_LF);
      Valid(q) && Run(p) == Run(q)
  {
    hide Run;
    StatusBytes(p.raw, r);
    var e := 13 + |r.reason|;
    ReasonRun(p, e);
    var s1 := p.(offset := e, reason := Span(13, |r.reason|), stateM := SM_SP3);
    var s2 := s1.(offset := e + 1, stateM := SM_LINE_CR);
    Next(s1, s2);
    Next(s2, s2.(stateM := SM_LINE_LF));
  }

  /** The parser at the line feed of the rendered status line. */
  function AtStatusEnd(p: Parser, r: Response): Parser {
    p.(header := Header(Span(0, 8), Span(9, 3)), reason := Span(13, |r.reason|), offset := 14 + |r.reason|,
      stateM := SM_LINE_LF)
  }

  lemma StatusScanned(p: Parser, r: Response)
    requires Valid(p) && p.stateM == SM_START_LINE && p.offset == 0 && !p.server
    requires IsStatusText(r) && Has(p.raw, 0, StatusLine(r))
    ensures Valid(AtStatusEnd(p, r)) && Run(p) == Run(AtStatusEnd(p, r))
  {
    hide Run, Step;
    VersionPart(p, r);
    var s1 := p.(header := Header(Span(0, 8), Span(9, p.header.value.len)), offset := 9, stateM := SM_TOKEN2);
    CodePart(s1, r);
    ReasonPart(s1.(header := Header(Span(0, 8), Span(9, 3)), offset := 13, reason := Span(13, p.reason.len),
      stateM := SM_TOKEN3), r);
  }

  /** The status line is accepted with what it says. */
  lemma StatusAccepted(s: Parser, r: Response)
    requires IsStatus(r) && Valid(s) && !s.server && s.stateM == SM_LINE_LF && s == AtStatusEnd(s, r)
    requires Has(s.raw, 0, StatusLine(r))
    ensures LineEnd(s).Go?
    ensures var q := LineEnd(s).next;
      && q == LineAccepted(s, (r.major, r.minor))
      && CString(q.raw, 13) == r.reason && q.code == Atoi(r.code) && |q.raw| == |s.raw|
      && (forall i :: q.offset <= i < |q.raw| ==> q.raw[i] == s.raw[i])
  {
    hide Atoi, ScanVersion, CString;
    StatusBytes(s.raw, r);
    StatusVersion(s.raw, r);
    AcceptedReads(s.raw, r);
  }

  lemma AcceptedReads(raw: seq<byte>, r: Response)
    requires IsStatusText(r) && Has(raw, 0, StatusLine(r))
    ensures 13 + |r.reason| < |raw|
    ensures var raw' := Terminate(Terminate(raw, 13 + |r.reason|), 12);
      CString(raw', 13) == r.reason && CString(raw', 9) == r.code
  {
    hide IsTrimmed, Has, StatusLine;
    StatusBytes(raw, r);
    var e := 13 + |r.reason|;
    var raw' := Terminate(Terminate(raw, e), 12);
    TrimmedText(raw, 13, r.reason);
    CodeText(raw, 9, r.code);
    assert forall i :: 0 <= i < |raw| && i != e && i != 12 ==> raw'[i] == raw[i];
    TextReads(raw', Span(13, |r.reason|), r.reason);
    TextReads(raw', Span(9, 3), r.code);
  }

  lemma CodeText(raw: seq<byte>, n: nat, t: seq<byte>)
    requires Has(raw, n, t) && forall i :: 0 <= i < |t| ==> IsDigit(t[i])
    ensures n + |t| <= |raw| && forall i :: n <= i < n + |t| ==> raw[i] == t[i - n] && raw[i] != 0
  {
    forall i | n <= i < n + |t|
      ensures raw[i] == t[i - n] && raw[i] != 0
    {
      assert raw[n + (i - n)] == t[i - n];
    }
  }

  /** From the first byte to the first header line. */
  lemma StatusRun(p: Parser, r: Response) returns (q: Parser)
    requires Valid(p) && p.stateM == SM_START_LINE && p.offset == 0 && !p.server
    requires IsStatus(r) && Has(p.raw, 0, StatusLine(r))
    ensures AtLine(q) && Run(p) == Run(q)
    ensures q.headers == [] && q.offset == |StatusLine(r)| && |q.raw| == |p.raw|
    ensures forall i :: q.offset <= i < |q.raw| ==> q.raw[i] == p.raw[i]
    ensures q.vermajor == r.major && q.verminor == r.minor && q.code == Atoi(r.code)
    ensures q.reason.End() < q.offset && SpanReads(q.raw, q.reason, r.reason) && FramingOf(q) == UNFRAMED
    ensures SameNotes(p, q)
  {
    hide Run;
    StatusScanned(p, r);
    var s := AtStatusEnd(p, r);
    StatusAccepted(s, r);
    q := LineEnd(s).next;
    Next(s, q);
    assert |StatusLine(r)| == 15 + |r.reason|;
  }

  /** A status line of any other version is rejected. */
  lemma StatusRefused(p: Parser, r: Response)
    requires Valid(p) && p.stateM == SM_START_LINE && p.offset == 0 && !p.server
    requires IsStatusText(r) && Has(p.raw, 0, StatusLine(r)) && !IsVersion(r.major, r.minor)
    ensures Run(p).Reject?
  {
    hide Run;
    StatusScanned(p, r);
    var s := AtStatusEnd(p, r);
    StatusVersion(s.raw, r);
    hide ScanVersion, StatusLine, Has;
    RunStep(s);
  }

  lemma StatusVersion(raw: seq<byte>, r: Response)
    requires IsStatusText(r) && Has(raw, 0, StatusLine(r))
    ensures ScanVersion(raw, 0) == Some((r.major, r.minor))
  {
    hide ScanInt, ScanIntEnd, StatusLine;
    StatusBytes(raw, r);
    VersionBytes(raw, r.major, r.minor);
    ScanDigit(raw, 5, r.major);
    ScanDigit(raw, 7, r.minor);
  }

  // ---------- the end of the headers ----------

  /** The parser behind the blank line. */
  function AfterBlank(p: Parser): Parser {
    p.(header := Header(p.header.name, Span(0, p.header.value.len)), offset := p.offset + 2, stateM := SM_BODY)
  }

  lemma BlankRun(p: Parser)
    requires AtLine(p) && Has(p.raw, p.offset, [CR, LF])
    ensures Valid(AfterBlank(p)) && Run(p) == Run(AfterBlank(p))
  {
    hide *;
    LineOffset(p);
    HasTwo(p.raw, p.offset, CR, LF);
    BlankStart(p);
    var s := p.(header := Header(p.header.name, Span(0, p.header.value.len)), offset := p.offset + 1,
      stateM := SM_HEADER_CR);
    BlankEnd(s);
    AfterBlankIs(p, s);
  }

  lemma AfterBlankIs(p: Parser, s: Parser)
    requires s == p.(header := Header(p.header.name, Span(0, p.header.value.len)), offset := p.offset + 1,
      stateM := SM_HEADER_CR)
    ensures AfterBlank(p) == s.(offset := s.offset + 1, stateM := SM_BODY)
  {
  }

  lemma BlankStart(p: Parser)
    requires AtLine(p) && p.offset < |p.raw| && p.raw[p.offset] == CR
    ensures var q := p.(header := Header(p.header.name, Span(0, p.header.value.len)), offset := p.offset + 1,
      stateM := SM_HEADER_CR);
      Valid(q) && Run(p) == Run(q)
  {
    hide Run;
    Next(p, p.(header := Header(p.header.name, Span(0, p.header.value.len)), offset := p.offset + 1,
      stateM := SM_HEADER_CR));
  }

  lemma BlankEnd(p: Parser)
    requires Valid(p) && p.stateM == SM_HEADER_CR && p.header.value.pos == 0 && 0 < p.offset < |p.raw| &&
      p.raw[p.offset] == LF
    ensures var q := p.(offset := p.offset + 1, stateM := SM_BODY); Valid(q) && Run(p) == Run(q)
  {
    hide Run;
    var s := p.(stateM := SM_HEADER_LF);
    Next(p, s);
    Next(s, p.(offset := p.offset + 1, stateM := SM_BODY));
  }

  /** A body without coding that has the announced length. */
  lemma BodyEnd(p: Parser)
    requires Valid(p) && p.stateM == SM_BODY && !IsChunked(p)
    requires |p.raw| == p.offset + (if p.contentLength == -1 then 0 else p.contentLength)
    ensures Run(p) == Done(p.(stateM := SM_DONE, contentLength := |p.raw| - p.offset))
  {
    var q := p.(stateM := SM_DONE, contentLength := |p.raw| - p.offset);
    Next(p, q);
    assert Run(q) == Done(q);
  }

  // ---------- the round trip ----------

  /** The value of the first field from i on with this name, in any case. */
  function FieldNamed(fs: seq<Field>, name: seq<byte>, i: nat): Option<seq<byte>>
    requires i <= |fs|
    decreases |fs| - i
  {
    if i == |fs| then None
    else if EqNoCase(fs[i].name, name) then Some(fs[i].value)
    else FieldNamed(fs, name, i + 1)
  }

  /** The parser's table reads back as the fields, by index and by name. */
  ghost predicate Table(q: Parser, fs: seq<Field>) {
    |q.headers| == |fs| && forall i :: 0 <= i < |fs| ==> Reads(q.raw, q.headers[i], fs[i])
  }

  lemma {:induction false} FoundByName(q: Parser, fs: seq<Field>, name: seq<byte>, i: nat)
    requires Table(q, fs) && i <= |fs|
    ensures FindHeader(q, name, i).None? <==> FieldNamed(fs, name, i).None?
    ensures FindHeader(q, name, i).Some? ==>
      FieldNamed(fs, name, i) == Some(CString(q.raw, q.headers[FindHeader(q, name, i).value].value.pos))
    decreases |fs| - i
  {
    if i < |fs| && !EqNoCase(fs[i].name, name) {
      FoundByName(q, fs, name, i + 1);
    }
  }

  /** Where a header's value is recorded, its text can be read. */
  lemma NotedText(p: Parser, q: Parser, fs: seq<Field>, i: nat)
    requires Table(q, fs) && Notes(p, q, 0, fs)
    ensures LastNamed(fs, "Content-Encoding", i) ==>
      0 <= q.contentEncoding && CString(q.raw, q.contentEncoding) == fs[i].value
    ensures LastNamed(fs, "Set-Cookie", i) ==> 0 <= q.cookie && CString(q.raw, q.cookie) == fs[i].value
    ensures LastNamed(fs, "Location", i) ==> 0 <= q.location && CString(q.raw, q.location) == fs[i].value
  {
    hide Named;
    assert q.headers[0..0 + |fs|] == q.headers;
    if i < |fs| {
      assert Reads(q.raw, q.headers[i], fs[i]);
    }
  }

  lemma RenderParts(raw: seq<byte>, r: Response)
    requires IsStatus(r) && raw == Render(r)
    ensures var n := |StatusLine(r)|; var m := n + |RenderFields(r.fields)|;
      && Has(raw, 0, StatusLine(r)) && Has(raw, n, RenderFields(r.fields)) && Has(raw, m, [CR, LF])
      && Has(raw, m + 2, r.body) && |raw| == m + 2 + |r.body|
  {
    var line, lines := StatusLine(r), RenderFields(r.fields);
    assert Has(raw, 0, line + lines + [CR, LF] + r.body);
    HasParts(raw, 0, line + lines + [CR, LF], r.body);
    HasParts(raw, 0, line + lines, [CR, LF]);
    HasParts(raw, 0, line, lines);
  }

  /** Status line and headers of the response are in the parser's fields and in its table. */
  ghost predicate HeadReads(q: Parser, r: Response) {
    q.vermajor == r.major && q.verminor == r.minor && q.code == Atoi(r.code) &&
    SpanReads(q.raw, q.reason, r.reason) && Table(q, r.fields)
  }

  /** From the first byte to the blank line. */
  lemma LinesRun(p: Parser, r: Response) returns (q: Parser)
    requires Valid(p) && p.stateM == SM_START_LINE && p.offset == 0 && !p.server
    requires IsResponse(r) && p.raw == Render(r)
    ensures AtLine(q) && Run(p) == Run(q) && HeadReads(q, r) && q.reason.End() < q.offset
    ensures FramingOf(q) == FramedAll(r.fields, UNFRAMED) && Notes(p, q, 0, r.fields)
    ensures Has(q.raw, q.offset, [CR, LF]) && Has(q.raw, q.offset + 2, r.body) && |q.raw| == q.offset + 2 + |r.body|
  {
    hide Run, Step, Valid, EqNoCase, RenderField, Framed, FramingOf, Marked, Closings, ValuePlaces;
    RenderParts(p.raw, r);
    var s := StatusRun(p, r);
    HasLater(p.raw, s.raw, s.offset, RenderFields(r.fields));
    q := FieldsRun(s, r.fields);
    SpanKept(s.raw, q.raw, s.reason, r.reason);
    assert q.headers[|s.headers|..] == q.headers;
    HasLater(p.raw, q.raw, q.offset, [CR, LF]);
    HasLater(p.raw, q.raw, q.offset + 2, r.body);
  }

  /** From the first byte to the body: the state there is that of a body with the framing that the
      headers announce. */
  lemma HeadRun(p: Parser, r: Response) returns (q: Parser)
    requires Fresh(p) && !p.server && IsResponse(r)
    ensures Valid(q) && Valid(Append(p, Render(r))) && Run(Append(p, Render(r))) == Run(q)
    ensures q.stateM == SM_BODY && 0 <= q.offset <= |q.raw| && HeadReads(q, r) && q.reason.End() < q.offset
    ensures FramingOf(q) == FramedAll(r.fields, UNFRAMED) && q.chunk == Chunk(0, 0, 0) && Notes(p, q, 0, r.fields)
    ensures q.raw[q.offset..] == r.body && Has(q.raw, q.offset, r.body)
  {
    hide Run, Step, Render, StatusLine, RenderFields, FramedAll, HeadReads, Marked, Closings, ValuePlaces;
    AppendValid(p, Render(r));
    var s := Append(p, Render(r));
    assert s.raw == Render(r);
    var t := LinesRun(s, r);
    BlankRun(t);
    q := AfterBlank(t);
    HeadReadsSame(t, q, r);
    HasSlice(t.raw, t.offset + 2, r.body);
  }

  lemma HeadReadsSame(p: Parser, q: Parser, r: Response)
    requires HeadReads(p, r) && q.raw == p.raw && q.reason == p.reason && q.headers == p.headers
    requires q.vermajor == p.vermajor && q.verminor == p.verminor && q.code == p.code
    ensures HeadReads(q, r)
  {
    hide Reads, SpanReads, Atoi;
  }

  /** What was rendered is read back: the call completes, the status line, every header in
      order, the lookup by name and the body are those of the response, and no byte is left. */
  lemma ResponseRoundTrip(p: Parser, r: Response, name: seq<byte>) returns (q: Parser)
    requires Fresh(p) && !p.server && IsResponse(r) && !FramedAll(r.fields, UNFRAMED).coded
    ensures Valid(Append(p, Render(r))) && Run(Append(p, Render(r))) == Done(q) && HeadReads(q, r)
    ensures Notes(p, q, 0, r.fields)
    ensures FieldNamed(r.fields, name, 0) ==
      match FindHeader(q, name, 0) { case None => None case Some(i) => Some(CString(q.raw, q.headers[i].value.pos)) }
    ensures q.contentLength == |r.body| && 0 <= q.offset && |q.raw| == q.offset + q.contentLength &&
      q.raw[q.offset..] == r.body
  {
    hide Run, Step, Valid, Render, StatusLine, FramedAll, FieldNamed, FindHeader, Reads, SpanReads, IsChunked,
      Marked, Closings, ValuePlaces;
    var t := HeadRun(p, r);
    BodyEnd(t);
    q := Run(t).state;
    HeadReadsSame(t, q, r);
    FoundByName(q, r.fields, name, 0);
  }

  lemma HasLater(raw: seq<byte>, raw': seq<byte>, p: nat, t: seq<byte>)
    requires Has(raw, p, t) && |raw'| == |raw|
    requires forall i :: p <= i < |raw'| ==> raw'[i] == raw[i]
    ensures Has(raw', p, t)
  {
  }
}
