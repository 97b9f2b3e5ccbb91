/** What a continuation line makes of the header it continues. The loop that blanks the line break
    starts at the length of the old value instead of its end. */
module RtspFolded {
  import opened Bytes
  import opened RtspModel
  import opened RtspRender
  import opened RtspRun

  /** At the end of a continuation line of text t, behind a header that reads as f. */
  ghost predicate Continues(p: Parser, f: Field, t: seq<byte>) {
    Valid(p) && p.stateM == SM_HEADER_LF && p.header.value.pos != 0 && p.header.name.pos == 0 && p.headers != [] &&
    Reads(p.raw, p.headers[|p.headers| - 1], f) &&
    p.header.value.len == |t| && Has(p.raw, p.header.value.pos, t) && forall i :: 0 <= i < |t| ==> t[i] != 0
  }

  function Spaces(n: nat): (t: seq<byte>)
    ensures |t| == n && forall i :: 0 <= i < n ==> t[i] == SP
  {
    seq(n, i => SP)
  }

  /** What stays of the old value, blanks, and the text of the line. What stays are the bytes whose
      index in the buffer is less than the length of the old value. */
  function Folded(o: Span, v: Span, old_: seq<byte>, t: seq<byte>): (text: seq<byte>)
    requires 0 < o.pos && o.len == |old_| && o.End() < v.pos && v.len == |t|
    ensures |text| == v.End() - o.pos
  {
    var k := if o.pos < o.len then o.len - o.pos else 0;
    old_[..k] + Spaces(v.pos - o.pos - k) + t
  }

  /** The spans of the header and of the line lie in order. */
  lemma Places(p: Parser, f: Field, t: seq<byte>)
    requires Continues(p, f, t)
    ensures p.headers != []
    ensures var h, v := p.headers[|p.headers| - 1], p.header.value;
      && HeaderOk(h) && h.value.End() < v.pos && v.End() < |p.raw| && v.len == |t| && h.value.len == |f.value|
      && Has(p.raw, v.pos, t) && (forall i :: 0 <= i < |t| ==> t[i] != 0)
      && (forall i :: h.name.pos <= i < h.name.End() ==> p.raw[i] != 0) && p.raw[h.name.End()] == 0
      && (forall i :: h.value.pos <= i < h.value.End() ==> p.raw[i] != 0 && p.raw[i] == f.value[i - h.value.pos])
  {
    var h, v := p.headers[|p.headers| - 1], p.header.value;
    assert HeadersOk(p.headers, v.pos);
    assert HeaderOk(h);
    hide Valid, HeadersOk, Has;
    SpanBytes(p.raw, h.name, f.name);
    SpanBytes(p.raw, h.value, f.value);
  }

  lemma SpanBytes(raw: seq<byte>, s: Span, text: seq<byte>)
    requires SpanReads(raw, s, text)
    ensures forall i :: s.pos <= i < s.End() ==> raw[i] != 0 && raw[i] == text[i - s.pos]
  {
    CStringText(raw, s.pos, text);
  }

  lemma {:induction false} CStringText(raw: seq<byte>, p: nat, text: seq<byte>)
    requires CString(raw, p) == text
    ensures p + |text| <= |raw| || text == []
    ensures forall i :: p <= i < p + |text| ==> raw[i] != 0 && raw[i] == text[i - p]
    decreases |text|
  {
    if text != [] {
      CStringText(raw, p + 1, text[1..]);
      forall i | p < i < p + |text|
        ensures raw[i] != 0 && raw[i] == text[i - p]
      {
        assert text[1..][i - (p + 1)] == text[i - p];
      }
    }
  }

  /** The parser at the line feed of a continuation line. */
  function AtLineFeed(p: Parser, t: seq<byte>): Parser {
    p.(header := Header(p.header.name.(pos := 0), Span(p.offset + 1, |t|)), offset := p.offset + |t| + 2,
       stateM := SM_HEADER_LF)
  }

  lemma ContinuationScanned(p: Parser, t: seq<byte>)
    requires AtLine(p) && IsTrimmed(t) && Has(p.raw, p.offset, [SP] + t + [CR, LF])
    ensures Valid(AtLineFeed(p, t)) && Run(p) == Run(AtLineFeed(p, t))
  {
    hide Run, Valid, Step, Has, IsTrimmed;
    LineOffset(p);
    LineParts(p.raw, p.offset, t);
    TrimmedBytes(p.raw, p.offset + 1, t);
    BlankBegins(p);
    var s := p.(header := p.header.(name := p.header.name.(pos := 0)), stateM := SM_HEADER_SP2, offset := p.offset + 1);
    ValuePart(s, p.offset + 1 + |t|);
  }

  lemma BlankBegins(p: Parser)
    requires AtLine(p) && 0 <= p.offset < |p.raw| && p.raw[p.offset] == SP
    ensures var s := p.(header := p.header.(name := p.header.name.(pos := 0)), stateM := SM_HEADER_SP2,
      offset := p.offset + 1);
      Valid(s) && Run(p) == Run(s)
  {
    hide Run;
    Next(p, p.(header := p.header.(name := p.header.name.(pos := 0)), stateM := SM_HEADER_SP2, offset := p.offset + 1));
  }

  /** A line that begins with a blank, behind the line of a header, is scanned up to its line feed as
      a continuation of that header. */
  lemma ContinuationRun(p: Parser, f: Field, t: seq<byte>)
    requires AtLine(p) && p.headers != [] && Reads(p.raw, p.headers[|p.headers| - 1], f)
    requires IsTrimmed(t) && Has(p.raw, p.offset, [SP] + t + [CR, LF])
    ensures Continues(AtLineFeed(p, t), f, t) && Run(p) == Run(AtLineFeed(p, t))
  {
    hide Run, Reads, Valid, Has;
    LineOffset(p);
    LineParts(p.raw, p.offset, t);
    ContinuationScanned(p, t);
  }

  lemma LineParts(raw: seq<byte>, n: nat, t: seq<byte>)
    requires Has(raw, n, [SP] + t + [CR, LF])
    ensures var v := n + 1; var e := v + |t|;
      e + 1 < |raw| && raw[n] == SP && Has(raw, v, t) && raw[e] == CR && raw[e + 1] == LF
  {
    HasParts(raw, n, [SP] + t, [CR, LF]);
    HasParts(raw, n, [SP], t);
    HasTwo(raw, n + 1 + |t|, CR, LF);
    assert raw[n + 0] == [SP][0];
  }

  /** The value that is read afterwards. */
  lemma FoldedValue(p: Parser, f: Field, t: seq<byte>)
    requires Continues(p, f, t)
    ensures Stored(p).Some?
    ensures var h, v, q := p.headers[|p.headers| - 1], p.header.value, Stored(p).value;
      && 0 < h.value.pos && h.value.len == |f.value| && h.value.End() < v.pos && v.len == |t|
      && q.headers == p.headers[..|p.headers| - 1] + [h.(value := Span(h.value.pos, v.End() - h.value.pos))]
      && CString(q.raw, h.value.pos) == Folded(h.value, v, f.value, t)
  {
    Places(p, f, t);
    var h, v, q := p.headers[|p.headers| - 1], p.header.value, Join(p);
    assert Stored(p) == Some(q);
    hide Valid, Stored, Reads, Join, Folded;
    FoldedBytes(p, q, f, t);
    TextReads(q.raw, Span(h.value.pos, v.End() - h.value.pos), Folded(h.value, v, f.value, t));
  }

  lemma FoldedBytes(p: Parser, q: Parser, f: Field, t: seq<byte>)
    requires Continues(p, f, t) && q == Join(p)
    ensures var h, v := p.headers[|p.headers| - 1], p.header.value;
      && 0 < h.value.pos && h.value.len == |f.value| && h.value.End() < v.pos && v.len == |t|
      && v.End() < |q.raw| && q.raw[v.End()] == 0
      && forall i :: h.value.pos <= i < v.End() ==>
        q.raw[i] == Folded(h.value, v, f.value, t)[i - h.value.pos] && q.raw[i] != 0
  {
    hide Valid, Reads, Has, Folded, Continues, Join;
    Places(p, f, t);
    var h, v := p.headers[|p.headers| - 1], p.header.value;
    JoinBytes(p, q);
    FoldedAll(p.raw, q.raw, h.value, v, f.value, t);
  }

  lemma FoldedAll(raw: seq<byte>, raw': seq<byte>, o: Span, v: Span, old_: seq<byte>, t: seq<byte>)
    requires 0 < o.pos && o.len == |old_| && o.End() < v.pos && v.len == |t| && v.End() < |raw'| == |raw|
    requires forall i :: 0 <= i < |raw| && i != v.End() ==> raw'[i] == if o.len <= i < v.pos then SP else raw[i]
    requires forall i :: o.pos <= i < o.End() ==> raw[i] != 0 && raw[i] == old_[i - o.pos]
    requires Has(raw, v.pos, t) && forall i :: 0 <= i < |t| ==> t[i] != 0
    ensures forall i :: o.pos <= i < v.End() ==> raw'[i] == Folded(o, v, old_, t)[i - o.pos] && raw'[i] != 0
  {
    TextBytes(raw, v.pos, t);
    hide Folded, Has;
    forall i | o.pos <= i < v.End()
      ensures raw'[i] == Folded(o, v, old_, t)[i - o.pos] && raw'[i] != 0
    {
      FoldedByte(raw, raw', o, v, old_, t, i);
    }
  }

  lemma FoldedByte(raw: seq<byte>, raw': seq<byte>, o: Span, v: Span, old_: seq<byte>, t: seq<byte>, i: int)
    requires 0 < o.pos && o.len == |old_| && o.End() < v.pos && v.len == |t| && v.End() < |raw'| == |raw|
    requires o.pos <= i < v.End() && raw'[i] == if o.len <= i < v.pos then SP else raw[i]
    requires i < o.End() ==> raw[i] == old_[i - o.pos] && raw[i] != 0
    requires i >= v.pos ==> raw[i] == t[i - v.pos] && t[i - v.pos] != 0
    ensures raw'[i] == Folded(o, v, old_, t)[i - o.pos] && raw'[i] != 0
  {
    var k := if o.pos < o.len then o.len - o.pos else 0;
    ThreeParts(old_[..k], Spaces(v.pos - o.pos - k), t, i - o.pos);
  }

  lemma ThreeParts(a: seq<byte>, b: seq<byte>, c: seq<byte>, k: nat)
    requires k < |a| + |b| + |c|
    ensures (a + b + c)[k] == if k < |a| then a[k] else if k < |a| + |b| then b[k - |a|] else c[k - |a| - |b|]
  {
  }

  lemma TextBytes(raw: seq<byte>, n: nat, t: seq<byte>)
    requires Has(raw, n, t)
    ensures forall i :: n <= i < n + |t| ==> raw[i] == t[i - n]
  {
    forall i | n <= i < n + |t|
      ensures raw[i] == t[i - n]
    {
      TextAt(raw, n, t, i);
    }
  }

  lemma TextAt(raw: seq<byte>, n: nat, t: seq<byte>, i: nat)
    requires Has(raw, n, t) && n <= i < n + |t|
    ensures raw[i] == t[i - n]
  {
    assert raw[n + (i - n)] == t[i - n];
  }

  lemma JoinBytes(p: Parser, q: Parser)
    requires p.headers != [] && 0 <= p.header.value.End() < |p.raw| && 0 <= p.header.value.len && q == Join(p)
    requires 0 <= p.headers[|p.headers| - 1].value.len
    ensures var h, v := p.headers[|p.headers| - 1], p.header.value;
      && |q.raw| == |p.raw| && q.raw[v.End()] == 0
      && forall i :: 0 <= i < |p.raw| && i != v.End() ==>
        q.raw[i] == if h.value.len <= i < v.pos then SP else p.raw[i]
  {
  }

  /** The old value is still the beginning of the joined one if and only if it is empty. */
  lemma FoldedKeeps(p: Parser, f: Field, t: seq<byte>)
    requires Continues(p, f, t) && IsTrimmed(f.value)
    ensures Stored(p).Some?
    ensures f.value <= CString(Stored(p).value.raw, p.headers[|p.headers| - 1].value.pos) <==> f.value == []
  {
    FoldedValue(p, f, t);
    Places(p, f, t);
    var h, v := p.headers[|p.headers| - 1], p.header.value;
    hide Continues, Stored, CString;
    if f.value != [] {
      assert Folded(h.value, v, f.value, t)[|f.value| - 1] == SP;
    }
  }

  /** The header can still be found under its name if and only if the name and its terminator stand
      in front of the bytes that were blanked. */
  lemma FoldedName(p: Parser, f: Field, t: seq<byte>)
    requires Continues(p, f, t)
    ensures Stored(p).Some?
    ensures var h := p.headers[|p.headers| - 1];
      CString(Stored(p).value.raw, h.name.pos) == f.name <==> h.name.End() < h.value.len
  {
    Places(p, f, t);
    var h, v, q := p.headers[|p.headers| - 1], p.header.value, Join(p);
    assert Stored(p) == Some(q);
    JoinBytes(p, q);
    NamePart(p, f, h);
    hide Valid, Stored, Reads, Join, Continues;
    if h.name.End() < h.value.len {
      CStringSame(p.raw, q.raw, h.name.pos, h.name.End());
    } else if CString(q.raw, h.name.pos) == f.name {
      NotTerminated(q.raw, h.name.pos, f.name);
    }
  }

  lemma NamePart(p: Parser, f: Field, h: Header)
    requires Reads(p.raw, h, f)
    ensures CString(p.raw, h.name.pos) == f.name
  {
  }

  /** A C string ends at a zero byte. */
  lemma {:induction false} NotTerminated(raw: seq<byte>, p: nat, text: seq<byte>)
    requires CString(raw, p) == text
    ensures p + |text| < |raw| ==> raw[p + |text|] == 0
    decreases |text|
  {
    if text != [] {
      NotTerminated(raw, p + 1, text[1..]);
    }
  }
}
