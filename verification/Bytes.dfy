/** Bytes, C strings and the C library functions on them that several files of the program share. */
module Bytes {
  type byte = x: int | 0 <= x < 256

  datatype Option<+T> = None | Some(value: T)

  const HT: byte := 9
  const LF: byte := 10
  const CR: byte := 13
  const SP: byte := 32
  const PLUS: byte := 43
  const MINUS: byte := 45
  const DOT: byte := 46
  const COLON: byte := 58
  const SEMICOLON: byte := 59
  const UPPER_A: byte := 65
  const LOWER_A: byte := 97

  /** The bytes of an ASCII literal. */
  function Ascii(s: string): (b: seq<byte>)
  {
    seq(|s|, i requires 0 <= i < |s| => s[i] as int % 256)
  }

  predicate IsDigit(c: byte) {
    48 <= c <= 57
  }

  predicate IsHex(c: byte) {
    IsDigit(c) || 97 <= c <= 102 || 65 <= c <= 70
  }

  function HexValue(c: byte): (v: nat)
    requires IsHex(c)
    ensures v < 16
  {
    if IsDigit(c) then c - 48 else Lower(c) - 97 + 10
  }

  /** A hexadecimal digit, in the letter case of ten. */
  function HexDigit(v: nat, ten: byte): (c: byte)
    requires v < 16 && (ten == UPPER_A || ten == LOWER_A)
    ensures IsHex(c) && HexValue(c) == v
  {
    if v < 10 then 48 + v else ten + v - 10
  }

  /** isspace in the C locale: HT, LF, VT, FF, CR and SP. */
  predicate IsSpace(c: byte) {
    9 <= c <= 13 || c == SP
  }

  function Lower(c: byte): byte {
    if 65 <= c <= 90 then c + 32 else c
  }

  /** strcasecmp(a, b) == 0. */
  predicate EqNoCase(a: seq<byte>, b: seq<byte>) {
    |a| == |b| && forall i :: 0 <= i < |a| ==> Lower(a[i]) == Lower(b[i])
  }

  /** *(s + i), for a terminated s. */
  function At(s: seq<byte>, i: nat): byte {
    if i < |s| then s[i] else 0
  }

  /** The C string that starts at index p: everything up to the first zero byte. */
  function CString(raw: seq<byte>, p: nat): (s: seq<byte>)
    decreases |raw| - p
  {
    if p >= |raw| || raw[p] == 0 then [] else [raw[p]] + CString(raw, p + 1)
  }

  /** The index of the first byte from i on that is not white space. */
  function SpacesEnd(s: seq<byte>, i: nat): (e: nat)
    requires i <= |s|
    ensures i <= e <= |s|
    decreases |s| - i
  {
    if i == |s| || !IsSpace(s[i]) then i else SpacesEnd(s, i + 1)
  }

  /** The index of the first byte from i on that is not a digit. */
  function DigitsEnd(s: seq<byte>, i: nat): (e: nat)
    requires i <= |s|
    ensures i <= e <= |s|
    decreases |s| - i
  {
    if i == |s| || !IsDigit(s[i]) then i else DigitsEnd(s, i + 1)
  }

  /** The decimal number that the bytes from a up to b spell. */
  function Decimal(s: seq<byte>, a: nat, b: nat): int
    requires b <= |s|
    decreases b
  {
    if b <= a then 0 else 10 * Decimal(s, a, b - 1) + (s[b - 1] as int - 48)
  }

  predicate IsSignAt(s: seq<byte>, i: nat) {
    i < |s| && (s[i] == PLUS || s[i] == MINUS)
  }

  /** Where the digits of the number at i start: after white space and a sign. */
  function DigitsStart(s: seq<byte>, i: nat): (j: nat)
    requires i <= |s|
    ensures i <= j <= |s|
  {
    var e := SpacesEnd(s, i);
    if IsSignAt(s, e) then e + 1 else e
  }

  /** The index of the byte at which the conversion %d, started at i, stops. */
  function ScanIntEnd(s: seq<byte>, i: nat): (e: nat)
    requires i <= |s|
    ensures i <= e <= |s|
  {
    DigitsEnd(s, DigitsStart(s, i))
  }

  /** What the conversion %d reads at i: white space, an optional sign and digits. None when
      there is no digit. */
  function ScanInt(s: seq<byte>, i: nat): Option<int>
    requires i <= |s|
  {
    var j := DigitsStart(s, i);
    var e := DigitsEnd(s, j);
    if e == j then None
    else if j > 0 && s[j - 1] == MINUS && SpacesEnd(s, i) < j then Some(-Decimal(s, j, e))
    else Some(Decimal(s, j, e))
  }

  /** atoi. */
  function Atoi(s: seq<byte>): int
  {
    match ScanInt(s, 0)
    case None => 0
    case Some(n) => n
  }

  lemma {:induction false} SpacesEndStable(s: seq<byte>, y: seq<byte>, i: nat)
    requires i <= |s| && SpacesEnd(s, i) < |s|
    ensures SpacesEnd(s + y, i) == SpacesEnd(s, i)
    decreases |s| - i
  {
    if IsSpace(s[i]) {
      SpacesEndStable(s, y, i + 1);
    }
  }

  lemma {:induction false} DigitsEndStable(s: seq<byte>, y: seq<byte>, i: nat)
    requires i <= |s| && DigitsEnd(s, i) < |s|
    ensures DigitsEnd(s + y, i) == DigitsEnd(s, i)
    decreases |s| - i
  {
    if IsDigit(s[i]) {
      DigitsEndStable(s, y, i + 1);
    }
  }

  lemma {:induction false} DecimalStable(s: seq<byte>, y: seq<byte>, a: nat, b: nat)
    requires b <= |s|
    ensures Decimal(s + y, a, b) == Decimal(s, a, b)
    decreases b
  {
    if a < b {
      DecimalStable(s, y, a, b - 1);
    }
  }

  /** A number that ends before the end of the bytes at hand reads the same whatever follows. */
  lemma ScanIntStable(s: seq<byte>, y: seq<byte>, i: nat)
    requires i <= |s| && ScanIntEnd(s, i) < |s|
    ensures ScanInt(s + y, i) == ScanInt(s, i)
    ensures ScanIntEnd(s + y, i) == ScanIntEnd(s, i)
  {
    SpacesEndStable(s, y, i);
    var j := DigitsStart(s, i);
    DigitsEndStable(s, y, j);
    DecimalStable(s, y, j, DigitsEnd(s, j));
  }

  lemma {:induction false} SpacesEndWhole(s: seq<byte>, y: seq<byte>, i: nat)
    requires i <= |s| && SpacesEnd(s, i) == |s|
    ensures SpacesEnd(s + y, i) == SpacesEnd(s + y, |s|)
    decreases |s| - i
  {
    if i < |s| {
      SpacesEndWhole(s, y, i + 1);
    }
  }

  lemma {:induction false} DigitsEndDigit(s: seq<byte>, i: nat)
    requires i <= |s|
    ensures forall k :: i <= k < DigitsEnd(s, i) ==> IsDigit(s[k])
    decreases |s| - i
  {
    if i < |s| && IsDigit(s[i]) {
      DigitsEndDigit(s, i + 1);
    }
  }

  /** White space before a number is skipped. */
  lemma ScanIntAfterSpaces(s: seq<byte>, y: seq<byte>, i: nat)
    requires i <= |s| && SpacesEnd(s, i) == |s|
    ensures ScanIntEnd(s + y, i) == ScanIntEnd(s + y, |s|)
    ensures ScanInt(s + y, i) == ScanInt(s + y, |s|)
  {
    SpacesEndWhole(s, y, i);
  }

  /** A number that is still open at a final line feed has not left its white space. */
  lemma OpenAtLineFeed(s: seq<byte>, i: nat)
    requires i < |s| && s[|s| - 1] == LF && ScanIntEnd(s, i) == |s|
    ensures SpacesEnd(s, i) == |s| && ScanInt(s, i) == None
  {
    var j := DigitsStart(s, i);
    DigitsEndDigit(s, j);
    assert !IsDigit(s[|s| - 1]);
    assert j == |s|;
  }

  lemma ScanDigit(s: seq<byte>, i: nat, d: int)
    requires i + 1 < |s| && 0 <= d < 10 && s[i] == 48 + d && !IsDigit(s[i + 1])
    ensures ScanInt(s, i) == Some(d) && ScanIntEnd(s, i) == i + 1
  {
    assert DigitsStart(s, i) == i;
    assert DigitsEnd(s, i) == DigitsEnd(s, i + 1) == i + 1;
    assert Decimal(s, i, i + 1) == 10 * Decimal(s, i, i) + d;
  }

  lemma {:induction false} DigitsEndIs(s: seq<byte>, i: nat, e: nat)
    requires i <= e <= |s| && (e < |s| ==> !IsDigit(s[e]))
    requires forall k :: i <= k < e ==> IsDigit(s[k])
    ensures DigitsEnd(s, i) == e
    decreases e - i
  {
    if i < e {
      DigitsEndIs(s, i + 1, e);
    }
  }

  /** A C string is the bytes up to a terminator that is known to be there. */
  lemma {:induction false} CStringIs(raw: seq<byte>, p: nat, n: nat)
    requires p + n < |raw| && raw[p + n] == 0
    requires forall i :: p <= i < p + n ==> raw[i] != 0
    ensures CString(raw, p) == raw[p..p + n]
    decreases n
  {
    if n > 0 {
      CStringIs(raw, p + 1, n - 1);
      assert raw[p..p + n] == [raw[p]] + raw[p + 1..p + n];
    }
  }

  /** A C string is decided by the bytes up to a terminator. */
  lemma {:induction false} CStringSame(raw: seq<byte>, raw': seq<byte>, p: nat, z: nat)
    requires p <= z < |raw| && z < |raw'| && raw[z] == 0
    requires forall i :: p <= i <= z ==> raw'[i] == raw[i]
    ensures CString(raw', p) == CString(raw, p)
    decreases z - p
  {
    if raw[p] != 0 {
      CStringSame(raw, raw', p + 1, z);
    }
  }

  /** The bytes of a C string stand in the buffer. */
  lemma {:induction false} CStringBytes(raw: seq<byte>, p: nat, z: nat)
    requires p <= z < |raw| && raw[z] == 0
    ensures var n := |CString(raw, p)|; p + n <= z && raw[p..p + n] == CString(raw, p) && raw[p + n] == 0
    decreases z - p
  {
    if raw[p] != 0 {
      CStringBytes(raw, p + 1, z);
      var n := |CString(raw, p)|;
      assert raw[p..p + n] == [raw[p]] + raw[p + 1..p + n];
    }
  }

  /** A C string with a terminator inside the buffer does not depend on what comes later. */
  lemma {:induction false} CStringPrefix(raw: seq<byte>, x: seq<byte>, p: nat, z: nat)
    requires p <= z < |raw| && raw[z] == 0
    ensures CString(raw + x, p) == CString(raw, p)
    ensures |CString(raw, p)| <= z - p
    decreases z - p
  {
    if raw[p] != 0 {
      CStringPrefix(raw, x, p + 1, z);
    }
  }

  /** t stands in s at index p. */
  predicate Has(s: seq<byte>, p: nat, t: seq<byte>) {
    p + |t| <= |s| && forall i {:trigger t[i]} :: 0 <= i < |t| ==> s[p + i] == t[i]
  }

  lemma HasParts(s: seq<byte>, p: nat, a: seq<byte>, b: seq<byte>)
    requires Has(s, p, a + b)
    ensures Has(s, p, a) && Has(s, p + |a|, b)
  {
    forall i | 0 <= i < |a|
      ensures s[p + i] == a[i]
    {
      assert (a + b)[i] == a[i];
    }
    forall i | 0 <= i < |b|
      ensures s[p + |a| + i] == b[i]
    {
      assert (a + b)[|a| + i] == b[i];
    }
  }

  lemma HasSlice(s: seq<byte>, p: nat, t: seq<byte>)
    requires Has(s, p, t)
    ensures s[p..p + |t|] == t
  {
  }
}
