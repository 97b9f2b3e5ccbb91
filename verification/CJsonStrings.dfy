/** The two string routines of cJSON at work on their buffers: print_string_ptr and parse_string,
    with the lengths they compute beforehand. */
module CJsonStrings {
  import opened Bits
  import opened Bytes
  import opened CJson

  // ---------- printing ----------

  /** How many bytes the counting loop of print_string_ptr adds for one byte. */
  function EscapedLength(token: byte): nat {
    1 + if token == QUOTE || token == BACKSLASH || token == 8 || token == 12 || token == 10 || token == 13 || token == 9
      then 1
        else if token < 32 then 5 else 0
  }

  lemma {:induction false} EscapedMore(s: seq<byte>, i: nat)
    requires i < |s|
    ensures |EscapedFrom(s, i)| == EscapedLength(s[i]) + |EscapedFrom(s, i + 1)|
  {
  }

  /** sprintf(ptr2, "u%04x", token), which terminates what it writes. */
  method PutCode(out: array<byte>, at: nat, token: byte) returns (ptr2: nat)
    requires at + 5 < out.Length
    modifies out
    ensures ptr2 == at + 5
    ensures out[..ptr2] == old(out[..at]) + [117, 48, 48, HexDigit(token / 16, LOWER_A), HexDigit(token % 16, LOWER_A)]
  {
    out[at], out[at + 1], out[at + 2] := 117, 48, 48;
    out[at + 3], out[at + 4], out[at + 5] := HexDigit(token / 16, LOWER_A), HexDigit(token % 16, LOWER_A), 0;
    ptr2 := at + 5;
  }

  /** One turn of the printing loop, at ptr2. */
  method PutEscaped(out: array<byte>, at: nat, token: byte) returns (ptr2: nat)
    requires at + |Escaped(token)| < out.Length
    modifies out
    ensures ptr2 == at + |Escaped(token)| && out[..ptr2] == old(out[..at]) + Escaped(token)
  {
    ptr2 := at;
    if token > 31 && token != QUOTE && token != BACKSLASH {
      out[ptr2] := token;
      ptr2 := ptr2 + 1;
    } else {
      out[ptr2] := BACKSLASH;
      ptr2 := ptr2 + 1;
      if token == BACKSLASH || token == QUOTE || token == 8 || token == 12 || token == 10 || token == 13 || token == 9 {
        out[ptr2] :=
          if token == BACKSLASH then BACKSLASH else if token == QUOTE then QUOTE else if token == 8 then 98
          else if token == 12 then 102 else if token == 10 then 110 else if token == 13 then 114 else 116;
        ptr2 := ptr2 + 1;
      } else {
        ptr2 := PutCode(out, ptr2, token);
      }
    }
  }

  /** The counting loop. */
  method CountEscaped(str: seq<byte>) returns (len: nat)
    requires NulFree(str)
    ensures len == |EscapedFrom(str, 0)|
  {
    var ptr := 0;
    len := 0;
    while At(str, ptr) != 0
      invariant ptr <= |str| && len + |EscapedFrom(str, ptr)| == |EscapedFrom(str, 0)|
      decreases |str| - ptr
    {
      EscapedMore(str, ptr);
      len := len + EscapedLength(str[ptr]);
      ptr := ptr + 1;
    }
  }

  /** print_string_ptr: the buffer is exactly as long as the text and its terminator. */
  method PrintStringPtr(str: seq<byte>) returns (out: array<byte>)
    requires NulFree(str)
    ensures fresh(out) && out[..] == PrintString(str) + [0]
  {
    hide Escaped;
    var len := CountEscaped(str);
    out := new byte[len + 3];
    var ptr, ptr2 := 0, 1;
    out[0] := QUOTE;
    while At(str, ptr) != 0
      invariant ptr <= |str| && ptr2 <= len + 1 && ptr2 + |EscapedFrom(str, ptr)| == len + 1
      invariant out[..ptr2] + EscapedFrom(str, ptr) == [QUOTE] + EscapedFrom(str, 0)
      decreases |str| - ptr
    {
      ghost var before := out[..ptr2];
      ptr2 := PutEscaped(out, ptr2, str[ptr]);
      assert before + (Escaped(str[ptr]) + EscapedFrom(str, ptr + 1)) == out[..ptr2] + EscapedFrom(str, ptr + 1);
      ptr := ptr + 1;
    }
    assert EscapedFrom(str, ptr) == [] && out[..ptr2] + [] == out[..ptr2];
    ghost var text := out[..ptr2];
    out[ptr2], out[ptr2 + 1] := QUOTE, 0;
    assert out[..] == text + [QUOTE, 0];
  }

  // ---------- UTF-8 ----------

  lemma SecondBit(q: nat)
    ensures And(Or(q, 2), 2) == 2
  {
    OrOne(q, 2);
    OrOne(q / 2, 1);
    assert Or(q / 2 / 2, 0) == q / 2 / 2 && Or(q / 2, 1) % 2 == 1;
    var h := Or(q, 2);
    assert h / 2 == Or(q / 2, 1);
    AndOne(h, 2);
    AndOne(h / 2, 1);
    assert And(h / 2 / 2, 0) == 0;
  }

  /** (c | 0x80) & 0xBF */
  lemma ContinuationByte(c: nat)
    ensures And(Or(c, 0x80), 0xBF) == 0x80 + c % 0x40
  {
    ContinuationParts(c / 0x40, c % 0x40);
    hide *;
  }

  lemma ContinuationParts(q: nat, l: nat)
    requires l < 0x40
    ensures And(Or(0x40 * q + l, 0x80), 0xBF) == 0x80 + l
  {
    hide *;
    var c, h := 0x40 * q + l, Or(q, 2);
    var x := Or(c, 0x80);
    assert x == 0x40 * h + l by { OrHigh(q, l); }
    assert And(x, 0xBF) == 0x40 * And(h, 2) + l by { AndHigh(h, l); }
    SecondBit(q);
  }

  lemma OrHigh(q: nat, l: nat)
    requires l < 0x40
    ensures Or(0x40 * q + l, 0x80) == 0x40 * Or(q, 2) + l
  {
    assert Or(l, 0) == l;
    hide *;
    Parts6(q, l, 2, 0);
  }

  lemma AndHigh(h: nat, l: nat)
    requires l < 0x40
    ensures And(0x40 * h + l, 0xBF) == 0x40 * And(h, 2) + l
  {
    hide *;
    Parts6(h, l, 2, 0x3F);
    Shifts(0);
    Mask(6, l);
  }

  /** firstByteMark */
  function FirstByteMark(len: nat): byte
    requires 1 <= len <= 4
  {
    if len == 1 then 0 else if len == 2 then 0xC0 else if len == 3 then 0xE0 else 0xF0
  }

  /** The mark is put above the high digits that are left. */
  lemma LeadByte(c: nat, len: nat)
    requires 1 <= len <= 4 && c < if len == 1 then 0x80 else if len == 2 then 0x20 else if len == 3 then 0x10 else 8
    ensures Or(c, FirstByteMark(len)) == c + FirstByteMark(len)
  {
    if len == 1 {
      assert Or(c, 0) == c;
    } else {
      assert Pow2(1) == 2 && Pow2(2) == 4 && Pow2(3) == 8 && Pow2(4) == 0x10 && Pow2(5) == 0x20;
      var m := if len == 2 then 6 else if len == 3 then 14 else 30;
      assert Shl(m, 1) == 2 * m && Shl(m, 2) == 4 * m && Shl(m, 3) == 8 * m;
      assert Shl(m, 4) == 16 * m;
      assert Shl(m, 5) == 32 * m;
      hide *;
      Beside(if len == 2 then 5 else if len == 3 then 4 else 3, m, c);
      assert FirstByteMark(2) == 0xC0 && FirstByteMark(3) == 0xE0 && FirstByteMark(4) == 0xF0 by { FirstByteMarks(); }
    }
  }

  lemma FirstByteMarks()
    ensures FirstByteMark(2) == 0xC0 && FirstByteMark(3) == 0xE0 && FirstByteMark(4) == 0xF0
  {
  }

  /** How many bytes UTF-8 takes. */
  function Utf8Length(c: nat): nat {
    if c < 0x80 then 1 else if c < 0x800 then 2 else if c < 0x10000 then 3 else 4
  }

  /** One case of the switch: the six low digits go in front of what is written. */
  method PutContinuation(out: array<byte>, at: nat, uc: nat) returns (ptr2: nat, uc': nat)
    requires 0 < at <= out.Length
    modifies out
    ensures ptr2 == at - 1 && uc' == uc / 0x40 && out[..] == old(out[..])[at - 1 := 0x80 + uc % 0x40]
  {
    ContinuationByte(uc);
    Shifts(uc);
    hide And, Or, Shr, Shl, Pow2;
    ptr2 := at - 1;
    out[ptr2] := And(Or(uc, 0x80), 0xBF) % 256;
    uc' := Shr(uc, 6);
  }

  lemma SixAtATime(c: nat)
    ensures c / 0x40 / 0x40 == c / 0x1000 && c / 0x1000 / 0x40 == c / 0x40000
  {
  }

  /** The switch that falls through from the last byte to the first. */
  method PutUtf8(out: array<byte>, at: nat, code: nat) returns (ptr2: nat)
    requires code < 0x110000 && at + Utf8Length(code) <= out.Length
    modifies out
    ensures ptr2 == at + Utf8Length(code) && out[at..ptr2] == Utf8(code)
    ensures out[..at] == old(out[..at])
  {
    hide And, Or, Shr, Utf8, FirstByteMark;
    var len := Utf8Length(code);
    Utf8Bytes(code);
    var uc := PutTail(out, at, code, len);
    LeadByte(uc, len);
    out[at] := Or(uc, FirstByteMark(len)) % 256;
    ptr2 := at + len;
    assert out[at..ptr2] == Utf8(code);
  }

  /** The cases of the switch above the last, from the end of the sequence back to its second byte. */
  method PutTail(out: array<byte>, at: nat, code: nat, len: nat) returns (uc: nat)
    requires code < 0x110000 && len == Utf8Length(code) && at + len <= out.Length
    modifies out
    ensures uc ==
      if len == 1 then code else if len == 2 then code / 0x40 else if len == 3 then code / 0x1000 else code / 0x40000
    ensures forall k :: 1 <= k < len ==> out[at + k] == Utf8(code)[k]
    ensures out[..at] == old(out[..at])
  {
    SixAtATime(code);
    Utf8Bytes(code);
    hide Utf8;
    uc := code;
    var ptr2 := at + len;
    if len == 4 {
      ptr2, uc := PutContinuation(out, ptr2, uc);
    }
    if len >= 3 {
      ptr2, uc := PutContinuation(out, ptr2, uc);
    }
    if len >= 2 {
      ptr2, uc := PutContinuation(out, ptr2, uc);
    }
  }

  /** The bytes of UTF-8, from the last to the first. */
  lemma Utf8Bytes(c: nat)
    requires c < 0x110000
    ensures var u, len := Utf8(c), Utf8Length(c);
      |u| == len && (len >= 2 ==> u[len - 1] == 0x80 + c % 0x40) &&
        (len >= 3 ==> u[len - 2] == 0x80 + c / 0x40 % 0x40) &&
      (len == 4 ==> u[1] == 0x80 + c / 0x1000 % 0x40) &&
      u[0] == FirstByteMark(len) +
        if len == 1 then c else if len == 2 then c / 0x40 else if len == 3 then c / 0x1000 else c / 0x40000
  {
  }

  /** 0x10000 + (((uc & 0x3FF) << 10) | (uc2 & 0x3FF)) */
  lemma SurrogatePair(c: nat, d: nat)
    ensures Or(Shl(And(c, 0x3FF), 10), And(d, 0x3FF)) == c % 0x400 * 0x400 + d % 0x400
  {
    hide *;
    Shifts(c % 0x400);
    Mask(10, c);
    Mask(10, d);
    Beside(10, c % 0x400, d % 0x400);
  }

  // ---------- parsing ----------

  /** The counting loop of parse_string, which steps over what follows a backslash, ends inside
      the text when it is started at i. */
  predicate RawEnds(s: seq<byte>, i: nat)
    requires i <= |s|
    decreases |s| - i
  {
    if At(s, i) == QUOTE || At(s, i) == 0 then true
    else if At(s, i) == BACKSLASH then i + 1 < |s| && RawEnds(s, i + 2)
    else RawEnds(s, i + 1)
  }

  /** The turns of that loop. */
  function RawLength(s: seq<byte>, i: nat): nat
    requires i <= |s| && RawEnds(s, i)
    decreases |s| - i
  {
    if At(s, i) == QUOTE || At(s, i) == 0 then 0
    else 1 + RawLength(s, if At(s, i) == BACKSLASH then i + 2 else i + 1)
  }

  lemma RawHex(s: seq<byte>, i: nat)
    requires i + 4 <= |s| && Hex4At(s, i) && RawEnds(s, i + 4)
    ensures RawEnds(s, i) && RawLength(s, i) == 4 + RawLength(s, i + 4)
  {
    assert RawEnds(s, i + 3) && RawLength(s, i + 3) == 1 + RawLength(s, i + 4);
    assert RawEnds(s, i + 2) && RawLength(s, i + 2) == 1 + RawLength(s, i + 3);
    assert RawEnds(s, i + 1) && RawLength(s, i + 1) == 1 + RawLength(s, i + 2);
  }

  /** One step of the decoding loop gives no more bytes than the counting loop counts. */
  lemma RawPiece(s: seq<byte>, i: nat)
    requires i <= |s| && Unescape(s, i).Piece? && RawEnds(s, Unescape(s, i).next)
    ensures RawEnds(s, i) && |Unescape(s, i).bytes| + RawLength(s, Unescape(s, i).next) <= RawLength(s, i)
    ensures NulFree(Unescape(s, i).bytes)
  {
    if At(s, i) == BACKSLASH && At(s, i + 1) == 117 {
      assert Unescape(s, i) == UnescapeUnicode(s, i);
      hide Unescape, UnescapeUnicode;
      RawUnicode(s, i);
    } else {
      hide UnescapeUnicode;
    }
  }

  lemma RawUnicode(s: seq<byte>, i: nat)
    requires i + 1 < |s| && At(s, i) == BACKSLASH && s[i + 1] == 117
    requires UnescapeUnicode(s, i).Piece? && RawEnds(s, UnescapeUnicode(s, i).next)
    ensures RawEnds(s, i) && |UnescapeUnicode(s, i).bytes| + RawLength(s, UnescapeUnicode(s, i).next) <= RawLength(s, i)
    ensures NulFree(UnescapeUnicode(s, i).bytes)
  {
    var n := UnescapeUnicode(s, i).next;
    UnicodeNext(s, i);
    hide UnescapeUnicode, IsHex;
    if n == i + 12 {
      RawHex(s, i + 8);
      assert RawEnds(s, i + 6) && RawLength(s, i + 6) == 1 + RawLength(s, i + 8);
    }
    RawHex(s, i + 2);
    assert RawEnds(s, i) && RawLength(s, i) == 1 + RawLength(s, i + 2);
  }

  /** An escape of four digits, or two such escapes in a row. */
  lemma UnicodeNext(s: seq<byte>, i: nat)
    requires i + 1 < |s| && s[i + 1] == 117 && UnescapeUnicode(s, i).Piece?
    ensures var p := UnescapeUnicode(s, i);
      && i + 6 <= |s| && Hex4At(s, i + 2) && |p.bytes| <= 4 && NulFree(p.bytes)
      && (p.next == i + 6 || (p.next == i + 12 <= |s| && At(s, i + 6) == BACKSLASH && Hex4At(s, i + 8)))
  {
    hide Hex4, HexValue;
  }

  /** The buffer that parse_string allocates holds the string and its terminator. */
  lemma {:induction false} RawFits(s: seq<byte>, i: nat)
    requires i <= |s| && Unescaped(s, i).Parsed?
    ensures RawEnds(s, i) && |Unescaped(s, i).value| <= RawLength(s, i) && NulFree(Unescaped(s, i).value)
    decreases |s| - i
  {
    hide Unescape, RawEnds, RawLength;
    var p := Unescape(s, i);
    if p.Piece? {
      RawFits(s, p.next);
      RawPiece(s, i);
    } else {
      RawNone(s, i);
    }
  }

  lemma RawNone(s: seq<byte>, i: nat)
    requires i <= |s| && Unescape(s, i).Stop?
    ensures RawEnds(s, i)
  {
  }

  method CountRaw(str: seq<byte>, start: nat) returns (len: nat)
    requires start <= |str| && RawEnds(str, start)
    ensures len == RawLength(str, start)
  {
    var ptr := start;
    len := 0;
    while At(str, ptr) != QUOTE && At(str, ptr) != 0
      invariant start <= ptr <= |str| && RawEnds(str, ptr) && len + RawLength(str, ptr) == RawLength(str, start)
      decreases |str| - ptr
    {
      len := len + 1;
      ptr := if At(str, ptr) == BACKSLASH then ptr + 2 else ptr + 1;
    }
  }

  /** The case of the decoding switch for four hexadecimal digits; at stands on the letter u. */
  method DecodeUnicode(str: seq<byte>, at: nat, out: array<byte>, pos: nat) returns (ptr: nat, ptr2: nat)
    requires 0 < at < |str| && str[at] == 117 && pos <= out.Length
    requires var p := UnescapeUnicode(str, at - 1); p.Piece? && pos + |p.bytes| <= out.Length
    modifies out
    ensures pos <= ptr2 <= out.Length
    ensures var p := UnescapeUnicode(str, at - 1); ptr + 1 == p.next && out[..ptr2] == old(out[..pos]) + p.bytes
  {
    ptr, ptr2 := at, pos;
    var uc := Hex4(str, ptr + 1);
    ptr := ptr + 4;
    if LowSurrogate(uc) || uc == 0 {
      return;
    }
    if HighSurrogate(uc) {
      if At(str, ptr + 1) != BACKSLASH || At(str, ptr + 2) != 117 {
        return;
      }
      var uc2 := Hex4(str, ptr + 3);
      ptr := ptr + 6;
      if uc2 < 0xDC00 || uc2 > 0xDFFF {
        return;
      }
      SurrogatePair(uc, uc2);
      hide And, Or, Shl;
      uc := 0x10000 + Or(Shl(And(uc, 0x3FF), 10), And(uc2, 0x3FF));
    }
    assert Utf8Length(uc) == |Utf8(uc)|;
    ptr2 := PutUtf8(out, pos, uc);
    assert out[..ptr2] == out[..pos] + out[pos..ptr2];
  }

  /** One turn of the decoding loop. */
  method DecodeOne(str: seq<byte>, at: nat, out: array<byte>, pos: nat) returns (ptr: nat, ptr2: nat)
    requires at <= |str| && pos <= out.Length
    requires var p := Unescape(str, at); p.Piece? && pos + |p.bytes| <= out.Length
    modifies out
    ensures pos <= ptr2 <= out.Length
    ensures var p := Unescape(str, at); ptr == p.next && out[..ptr2] == old(out[..pos]) + p.bytes
  {
    hide UnescapeUnicode;
    ptr, ptr2 := at, pos;
    if str[ptr] != BACKSLASH {
      out[ptr2] := str[ptr];
      ptr2 := ptr2 + 1;
      ptr := ptr + 1;
      return;
    }
    ptr := ptr + 1;
    var e := str[ptr];
    if e == 117 {
      ptr, ptr2 := DecodeUnicode(str, ptr, out, ptr2);
    } else {
      out[ptr2] := if e == 98 then 8 else if e == 102 then 12 else if e == 110 then 10
        else if e == 114 then 13 else if e == 116 then 9 else e;
      ptr2 := ptr2 + 1;
    }
    ptr := ptr + 1;
  }

  /** parse_string at start: a buffer with the terminated string and the index behind it, or no
      buffer and the error pointer. */
  method ParseStringPtr(str: seq<byte>, start: nat) returns (out: array?<byte>, end: nat)
    requires start <= |str| && !ParseString(str, start).Outside?
    ensures match ParseString(str, start)
      case Failed(at) => out == null && end == at
      case Parsed(text, e) => fresh(out) && end == e && CStringIn(out, text)
  {
    if At(str, start) != QUOTE {
      return null, start;
    }
    hide Unescape;
    var ptr := start + 1;
    RawFits(str, ptr);
    var len := CountRaw(str, ptr);
    hide RawEnds, RawLength;
    var buffer := new byte[len + 1];
    var ptr2 := 0;
    ghost var text := Unescaped(str, start + 1).value;
    while At(str, ptr) != QUOTE && At(str, ptr) != 0
      invariant start < ptr <= |str| && ptr2 <= len
      invariant Unescaped(str, ptr).Parsed? && Unescaped(str, ptr).end == Unescaped(str, start + 1).end
      invariant buffer[..ptr2] + Unescaped(str, ptr).value == text
      decreases |str| - ptr
    {
      ghost var before := buffer[..ptr2];
      UnescapedOne(str, ptr);
      ghost var p := Unescape(str, ptr);
      assert before + (p.bytes + Unescaped(str, p.next).value) == before + p.bytes + Unescaped(str, p.next).value;
      ptr, ptr2 := DecodeOne(str, ptr, buffer, ptr2);
    }
    UnescapedEnd(str, ptr);
    assert buffer[..ptr2] + [] == buffer[..ptr2];
    buffer[ptr2] := 0;
    out, end := buffer, if At(str, ptr) == QUOTE then ptr + 1 else ptr;
  }

  /** A buffer holds text as a C string. */
  ghost predicate CStringIn(out: array<byte>, text: seq<byte>)
    reads out
  {
    NulFree(text) && |text| < out.Length && out[..|text|] == text && out[|text|] == 0
  }

  lemma UnescapedOne(s: seq<byte>, i: nat)
    requires i <= |s| && Unescaped(s, i).Parsed? && At(s, i) != QUOTE && At(s, i) != 0
    ensures var p := Unescape(s, i);
      p.Piece? && Unescaped(s, p.next).Parsed? && Unescaped(s, p.next).end == Unescaped(s, i).end &&
      Unescaped(s, i).value == p.bytes + Unescaped(s, p.next).value
  {
  }

  lemma UnescapedEnd(s: seq<byte>, i: nat)
    requires i <= |s| && (At(s, i) == QUOTE || At(s, i) == 0)
    ensures Unescaped(s, i) == Parsed([], i)
  {
  }
}
