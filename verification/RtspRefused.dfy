/** Which header lines are refused: exactly a name that is no token, a negative Content-Length, a
    Content-Length behind a chunked coding and a chunked coding behind a Content-Length. */
module RtspRefused {
  import opened Bytes
  import opened RtspModel
  import opened RtspRender
  import opened RtspRun

  /** A header line whose coding, if it names one, is chunked. */
  predicate IsHeader(f: Field) {
    IsWritten(f) && (IsCoding(f) ==> EqNoCase(Ascii("chunked"), f.value))
  }

  // ---------- when the header lines are to be refused ----------

  predicate HasLength(fs: seq<Field>) {
    exists i :: 0 <= i < |fs| && IsLength(fs[i])
  }

  predicate HasCoding(fs: seq<Field>) {
    exists i :: 0 <= i < |fs| && IsCoding(fs[i])
  }

  predicate NoNegative(fs: seq<Field>) {
    forall i :: 0 <= i < |fs| && IsLength(fs[i]) ==> Atoi(fs[i].value) >= 0
  }

  predicate AllTokens(fs: seq<Field>) {
    forall i :: 0 <= i < |fs| ==> IsToken(fs[i].name)
  }

  lemma FirstOrRest(fs: seq<Field>)
    requires fs != []
    ensures HasLength(fs) <==> IsLength(fs[0]) || HasLength(fs[1..])
    ensures HasCoding(fs) <==> IsCoding(fs[0]) || HasCoding(fs[1..])
    ensures NoNegative(fs) <==> (IsLength(fs[0]) ==> Atoi(fs[0].value) >= 0) && NoNegative(fs[1..])
    ensures AllTokens(fs) <==> IsToken(fs[0].name) && AllTokens(fs[1..])
  {
    hide IsLength, IsCoding, Atoi, IsToken;
    assert forall i :: 1 <= i < |fs| ==> fs[i] == fs[1..][i - 1];
  }

  /** The fields are accepted if and only if every name is a token, no length is negative and there is
      not both a length and a coding, in whatever order. */
  lemma {:induction false} FieldsExactly(fs: seq<Field>, before: Framing)
    requires (forall i :: 0 <= i < |fs| ==> IsHeader(fs[i])) && before.length >= -1
    requires !(before.coded && before.length != -1)
    ensures IsFields(fs, before) <==>
      AllTokens(fs) && NoNegative(fs) && !((before.coded || HasCoding(fs)) && (before.length != -1 || HasLength(fs)))
    decreases |fs|
  {
    if fs != [] {
      if IsCoding(fs[0]) {
        NamesDiffer(fs[0]);
        assert !IsLength(fs[0]);
      }
      FirstOrRest(fs);
      hide HasLength, HasCoding, NoNegative, AllTokens, IsLength, IsCoding, Atoi, IsToken, IsTrimmed, EqNoCase, Ascii;
      var after := Framed(fs[0], before);
      if IsField(fs[0], before) {
        FieldsExactly(fs[1..], after);
      }
    }
  }

  // ---------- one header line ----------

  /** The assertions of the handler fail. */
  lemma FieldNotHandled(q: Parser, f: Field, offset: int, size: int)
    requires ReadyToHandle(q, offset, size) && (q.transferEncoding == 0 || IsChunked(q))
    requires IsLine(f) && IsHeader(f) && !IsField(f, FramingOf(q)) && Reads(q.raw, q.headers[|q.headers| - 1], f)
    ensures HandleLast(q).None?
  {
    var h := q.headers[|q.headers| - 1];
    assert HeaderOk(h) && h.value.End() < offset + 1;
    TerminatedValue(q.raw, h.value);
    if IsLength(f) {
      hide ChunkedAt, CString, Atoi, Terminate;
    } else {
      NamesDiffer(f);
      CodingStands(q.raw, h.value, f);
      hide ChunkedAt, CString, EqNoCase, Atoi, Terminate, Ascii;
    }
  }

  lemma CodingStands(raw: seq<byte>, v: Span, f: Field)
    requires SpanReads(raw, v, f.value) && EqNoCase(Ascii("chunked"), f.value)
    ensures ChunkedAt(raw, v.pos)
  {
    CStringBytes(raw, v.pos, v.End());
    assert |f.value| == 7;
    assert raw[v.pos..v.pos + 7] == f.value;
  }

  lemma NotHandledStep(p: Parser, t: Parser)
    requires Valid(p) && p.stateM == SM_HEADER_LF && p.header.value.pos != 0 && Stored(p) == Some(t)
    requires ReadyToHandle(t, p.offset, |p.raw|) && HandleLast(t).None?
    ensures Step(p).Bad?
  {
    hide Handle, Stored, IsChunked, EncodingSettled;
  }

  lemma FieldRefused(p: Parser, f: Field)
    requires AtLine(p) && IsHeader(f) && !IsField(f, FramingOf(p))
    requires Has(p.raw, p.offset, RenderField(f))
    ensures Run(p).Reject?
  {
    hide Run, Step, Valid, Has, IsField, IsToken, IsTrimmed, FramingOf, Reads, IsChunked, Stored, RenderField,
      ReadyToHandle, HandleLast, EqNoCase;
    LineOffset(p);
    FieldScanned(p, f);
    var s := AtFieldEnd(p, f);
    if IsToken(f.name) {
      FieldStored(p, f);
      var t := Stored(s).value;
      StoredValid(s);
      FramingKept(p, t);
      FramingIs(p, t);
      FieldNotHandled(t, f, s.offset, |s.raw|);
      NotHandledStep(s, t);
    } else {
      NameNotStored(p, f);
    }
    RunStep(s);
  }

  /** A name that is no token is not taken into the table. */
  lemma NameNotStored(p: Parser, f: Field)
    requires AtLine(p) && IsWritten(f) && !IsToken(f.name) && Has(p.raw, p.offset, RenderField(f))
    requires Valid(AtFieldEnd(p, f))
    ensures Step(AtFieldEnd(p, f)).Bad?
  {
    LineOffset(p);
    hide IsToken, IsTrimmed, IsWritten, RenderField;
    FieldBytes(p.raw, p.offset, f);
    HasSlice(p.raw, p.offset, f.name);
  }

  lemma FramingIs(p: Parser, t: Parser)
    requires AtLine(p) && FramingOf(t) == FramingOf(p) && t.transferEncoding == p.transferEncoding
    ensures t.transferEncoding == 0 || IsChunked(t)
  {
  }

  // ---------- all header lines ----------

  lemma {:induction false} FieldsRefused(p: Parser, fs: seq<Field>)
    requires AtLine(p) && (forall i :: 0 <= i < |fs| ==> IsHeader(fs[i]))
    requires !IsFields(fs, FramingOf(p)) && Has(p.raw, p.offset, RenderFields(fs))
    ensures Run(p).Reject?
    decreases |fs|
  {
    hide Run, AtLine, IsField, IsHeader, FramingOf, RenderField, Has;
    LineOffset(p);
    HasParts(p.raw, p.offset, RenderField(fs[0]), RenderFields(fs[1..]));
    if IsField(fs[0], FramingOf(p)) {
      var q := FieldRun(p, fs[0]);
      AfterFieldParts(p, q, fs[0]);
      HasSame(p.raw, q.raw, q.offset, RenderFields(fs[1..]));
      FieldsRefused(q, fs[1..]);
    } else {
      FieldRefused(p, fs[0]);
    }
  }

  /** Header lines are refused if and only if a length and a coding come together, in either order,
      a length is negative or a name is no token. */
  lemma LinesExactly(p: Parser, fs: seq<Field>)
    requires AtLine(p) && (forall i :: 0 <= i < |fs| ==> IsHeader(fs[i]))
    requires Has(p.raw, p.offset, RenderFields(fs)) && |p.raw| == p.offset + |RenderFields(fs)|
    ensures Run(p).Reject? <==> !IsFields(fs, FramingOf(p))
  {
    hide Run, IsFields, IsHeader, FramingOf, RenderFields, Has;
    if IsFields(fs, FramingOf(p)) {
      var q := FieldsRun(p, fs);
      AfterFieldsParts(p, q, fs);
      LineWaits(q);
    } else {
      FieldsRefused(p, fs);
    }
  }

  lemma LineWaits(q: Parser)
    requires AtLine(q) && q.offset == |q.raw|
    ensures Run(q).NeedMore?
  {
    hide Run;
    RunStep(q);
  }

  /** A new client that is fed a status line is at the first header line, with what follows intact. */
  lemma StatusFed(p: Parser, r: Response, rest: seq<byte>) returns (q: Parser)
    requires Fresh(p) && !p.server && IsStatus(r)
    ensures AtLine(q) && FramingOf(q) == UNFRAMED
    ensures Valid(Append(p, StatusLine(r) + rest)) && Run(Append(p, StatusLine(r) + rest)) == Run(q)
    ensures 0 <= q.offset && Has(q.raw, q.offset, rest) && |q.raw| == q.offset + |rest|
  {
    hide Run, Step, Valid, StatusLine, FramingOf, IsStatusText, AtLine, SpanReads;
    var line := StatusLine(r);
    AppendValid(p, line + rest);
    var s := Append(p, line + rest);
    FreshStart(p);
    assert s.raw == line + rest;
    HasParts(s.raw, 0, line, rest);
    q := StatusRun(s, r);
    HasLater(s.raw, q.raw, q.offset, rest);
  }

  lemma FreshStart(p: Parser)
    requires Fresh(p)
    ensures Valid(p) && p.stateM == SM_START_LINE && p.offset == 0 && p.raw == []
  {
  }

  /** The status line and the header lines of a response, fed to a new client, are rejected if and
      only if a name is no token, a length is negative or there are both a length and a coding. */
  lemma HeadExactly(p: Parser, r: Response)
    requires Fresh(p) && !p.server && IsStatus(r) && forall i :: 0 <= i < |r.fields| ==> IsHeader(r.fields[i])
    ensures Valid(Append(p, StatusLine(r) + RenderFields(r.fields)))
    ensures Run(Append(p, StatusLine(r) + RenderFields(r.fields))).Reject? <==>
      !AllTokens(r.fields) || !NoNegative(r.fields) || (HasLength(r.fields) && HasCoding(r.fields))
  {
    hide Run, Valid, Append, StatusLine, RenderFields, IsFields, IsHeader, IsStatus, Fresh, AtLine, FramingOf, Has,
      HasLength, HasCoding, NoNegative, AllTokens;
    var q := StatusFed(p, r, RenderFields(r.fields));
    LinesExactly(q, r.fields);
    FieldsExactly(r.fields, UNFRAMED);
  }

  /** A response with such header lines is rejected whatever its body is. */
  lemma ResponseRefused(p: Parser, r: Response)
    requires Fresh(p) && !p.server && IsStatus(r) && forall i :: 0 <= i < |r.fields| ==> IsHeader(r.fields[i])
    requires !AllTokens(r.fields) || !NoNegative(r.fields) || (HasLength(r.fields) && HasCoding(r.fields))
    ensures Valid(Append(p, Render(r))) && Run(Append(p, Render(r))).Reject?
  {
    hide Run, Step, Valid, StatusLine, RenderFields, IsFields, IsHeader, FramingOf, IsStatusText, Has, AtLine, Append,
      HasLength, HasCoding, NoNegative, AllTokens;
    var lines, tail := RenderFields(r.fields), [CR, LF] + r.body;
    var q := StatusFed(p, r, lines + tail);
    assert Render(r) == StatusLine(r) + (lines + tail);
    HasParts(q.raw, q.offset, lines, tail);
    FieldsExactly(r.fields, UNFRAMED);
    FieldsRefused(q, r.fields);
  }

  // ---------- the characters of a token ----------

  lemma MarkIs(c: byte)
    ensures c in Ascii("!#$%&'*+-.^_`|~") <==>
      c == 33 || 35 <= c <= 39 || c == 42 || c == 43 || c == 45 || c == 46 || 94 <= c <= 96 || c == 124 || c == 126
  {
    assert Ascii("!#$%&'*+-.^_`|~") == [33, 35, 36, 37, 38, 39, 42, 43, 45, 46, 94, 95, 96, 124, 126];
    hide Ascii;
  }

  lemma SeparatorIs(c: byte)
    ensures IsSeparator(c) <==>
      c == 40 || c == 41 || c == 60 || c == 62 || c == 64 || c == 44 || c == 59 || c == 58 || c == 92 || c == 34 ||
      c == 47 || c == 91 || c == 93 || c == 63 || c == 61 || c == 123 || c == 125 || c == 32 || c == 9
  {
    assert Ascii("()<>@,;:\\\"/[]?={} \t") ==
      [40, 41, 60, 62, 64, 44, 59, 58, 92, 34, 47, 91, 93, 63, 61, 123, 125, 32, 9];
    hide Ascii;
  }

  /** Section 15.1 of RFC 2326: any character but the control characters and the separators. */
  lemma TokenChars(c: byte)
    ensures IsTokenChar(c) <==>
      65 <= c <= 90 || 97 <= c <= 122 || 48 <= c <= 57 || c in Ascii("!#$%&'*+-.^_`|~")
  {
    hide Ascii, IsSeparator;
    MarkIs(c);
    SeparatorIs(c);
  }

  // ---------- a length and a coding ----------

  const LENGTH := Field(Ascii("Content-Length"), Ascii("5"))
  const CODING := Field(Ascii("Transfer-Encoding"), Ascii("chunked"))

  /** A response that has both, in either order. */
  function Both(lengthFirst: bool): Response {
    Response(1, 0, Ascii("200"), Ascii("OK"), if lengthFirst then [LENGTH, CODING] else [CODING, LENGTH], [])
  }

  lemma LetterToken(c: byte)
    requires 65 <= c <= 90 || 97 <= c <= 122 || c == MINUS
    ensures IsTokenChar(c)
  {
    var separators := "()<>@,;:\\\"/[]?={} \t";
    assert forall i :: 0 <= i < |separators| ==>
      !('A' <= separators[i] <= 'Z') && !('a' <= separators[i] <= 'z') && separators[i] != '-';
    forall i | 0 <= i < |Ascii(separators)|
      ensures Ascii(separators)[i] != c
    {
      assert Ascii(separators)[i] == separators[i] as int % 256;
    }
  }

  lemma LettersToken(s: string)
    requires forall i :: 0 <= i < |s| ==> 'A' <= s[i] <= 'Z' || 'a' <= s[i] <= 'z' || s[i] == '-'
    ensures IsToken(Ascii(s))
  {
    forall i | 0 <= i < |s|
      ensures IsTokenChar(Ascii(s)[i])
    {
      LetterToken(Ascii(s)[i]);
    }
  }

  lemma LengthLine()
    ensures IsLine(LENGTH) && IsLength(LENGTH) && !IsCoding(LENGTH) && Atoi(LENGTH.value) == 5
  {
    LettersToken("Content-Length");
    assert Ascii("5") == [53];
    assert |Ascii("Transfer-Encoding")| == 17;
  }

  lemma CodingLine()
    ensures IsLine(CODING) && IsCoding(CODING) && !IsLength(CODING)
    ensures EqNoCase(Ascii("chunked"), CODING.value)
  {
    LettersToken("Transfer-Encoding");
    assert |Ascii("Content-Length")| == 14;
  }

  lemma StatusOf(lengthFirst: bool)
    ensures IsStatus(Both(lengthFirst))
  {
    assert Ascii("200") == [50, 48, 48];
    assert Ascii("OK") == [79, 75];
  }

  lemma BothThere(lengthFirst: bool)
    ensures HasLength(Both(lengthFirst).fields) && HasCoding(Both(lengthFirst).fields)
  {
    LengthLine();
    CodingLine();
    hide IsLine, IsLength, IsCoding, Atoi, EqNoCase, Ascii;
    var fs := Both(lengthFirst).fields;
    assert IsLength(fs[if lengthFirst then 0 else 1]) && IsCoding(fs[if lengthFirst then 1 else 0]);
  }

  /** Content-Length beside Transfer-Encoding: chunked is not ignored: the response is rejected. */
  lemma BothRefused(p: Parser, lengthFirst: bool)
    requires Fresh(p) && !p.server
    ensures IsStatus(Both(lengthFirst)) && Valid(Append(p, Render(Both(lengthFirst))))
    ensures Run(Append(p, Render(Both(lengthFirst)))).Reject?
  {
    LengthLine();
    CodingLine();
    StatusOf(lengthFirst);
    BothThere(lengthFirst);
    LineWritten(LENGTH);
    LineWritten(CODING);
    assert IsHeader(LENGTH) && IsHeader(CODING);
    hide IsStatus, IsHeader, Run, Render, Valid, HasLength, HasCoding, NoNegative, AllTokens;
    ResponseRefused(p, Both(lengthFirst));
  }
}
