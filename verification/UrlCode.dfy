/** Percent-encoding into and out of bounded buffers. */
module UrlCode {
  import opened Bytes

  const PERCENT: byte := 37
  const UNDERSCORE: byte := 95
  const TILDE: byte := 126

  predicate IsAlnum(c: byte) {
    IsDigit(c) || 97 <= c <= 122 || 65 <= c <= 90
  }

  // ---------- texts ----------

  /** The condition *p && (-1 == srcBytes || p < source + srcBytes). */
  predicate InSource(s: seq<byte>, srcBytes: int, p: nat) {
    At(s, p) != 0 && (srcBytes == -1 || p < srcBytes)
  }

  /** Where both functions stop reading: at the terminator or at the limit. */
  function TakenEnd(s: seq<byte>, srcBytes: int, p: nat): (e: nat)
    requires p <= |s|
    ensures p <= e <= |s| && !InSource(s, srcBytes, e)
    ensures forall j :: p <= j < e ==> InSource(s, srcBytes, j)
    decreases |s| - p
  {
    if InSource(s, srcBytes, p) then TakenEnd(s, srcBytes, p + 1) else p
  }

  /** The bytes that both functions look at. */
  function Taken(s: seq<byte>, srcBytes: int): (t: seq<byte>)
    ensures |t| <= |s| && t == s[..|t|] && !InSource(s, srcBytes, |t|)
    ensures forall j :: 0 <= j < |t| ==> InSource(s, srcBytes, j)
  {
    s[..TakenEnd(s, srcBytes, 0)]
  }

  lemma InTaken(s: seq<byte>, srcBytes: int, p: nat)
    requires p <= |Taken(s, srcBytes)|
    ensures InSource(s, srcBytes, p) <==> p < |Taken(s, srcBytes)|
  {
  }

  // ---------- encoding ----------

  predicate Unreserved(c: byte) {
    IsAlnum(c) || c == MINUS || c == UNDERSCORE || c == DOT || c == TILDE
  }

  function EncodedByte(c: byte): (e: seq<byte>)
    ensures |e| == 1 || |e| == 3
  {
    if Unreserved(c) then [c] else if c == SP then [PLUS]
      else [PERCENT, HexDigit(c / 16, UPPER_A), HexDigit(c % 16, UPPER_A)]
  }

  /** The characters that RFC 3986 calls unreserved, in its section 2.3. */
  const CAPITALS := Ascii("ABCDEFGHIJKLMNOPQRSTUVWXYZ")
  const SMALLS := Ascii("abcdefghijklmnopqrstuvwxyz")
  const DIGITS := Ascii("0123456789")
  const MARKS := Ascii("-._~")
  const HEX_DIGITS := Ascii("0123456789ABCDEF")

  lemma CapitalAt(k: nat)
    requires k < 26
    ensures |CAPITALS| == 26 && CAPITALS[k] == 65 + k
  {
  }

  lemma SmallAt(k: nat)
    requires k < 26
    ensures |SMALLS| == 26 && SMALLS[k] == 97 + k
  {
  }

  lemma DigitAt(k: nat)
    requires k < 10
    ensures |DIGITS| == 10 && DIGITS[k] == 48 + k
  {
  }

  lemma HexDigitAt(k: nat)
    requires k < 16
    ensures HEX_DIGITS[k] == HexDigit(k, UPPER_A)
  {
  }

  lemma InRange(t: seq<byte>, c: byte, first: byte)
    requires forall k :: 0 <= k < |t| ==> t[k] == first + k
    ensures c in t <==> first <= c < first + |t|
  {
    if first <= c < first + |t| {
      assert t[c - first] == c;
    }
  }

  lemma UnreservedIs(c: byte)
    ensures Unreserved(c) <==> c in CAPITALS || c in SMALLS || c in DIGITS || c in MARKS
  {
    assert MARKS == [45, 46, 95, 126];
    forall k: nat | k < 26
      ensures |CAPITALS| == |SMALLS| == 26 && CAPITALS[k] == 65 + k && SMALLS[k] == 97 + k
    {
      CapitalAt(k);
      SmallAt(k);
    }
    forall k: nat | k < 10
      ensures |DIGITS| == 10 && DIGITS[k] == 48 + k
    {
      DigitAt(k);
    }
    CapitalAt(0);
    SmallAt(0);
    DigitAt(0);
    hide CAPITALS, SMALLS, DIGITS;
    InRange(CAPITALS, c, 65);
    InRange(SMALLS, c, 97);
    InRange(DIGITS, c, 48);
  }

  /** A byte stands for itself if it is unreserved, a space becomes a plus sign, and any other byte a
      percent sign and two digits, capital letters among them, for its high and its low half. */
  lemma EncodedAs(c: byte)
    ensures EncodedByte(c) ==
      if c in CAPITALS || c in SMALLS || c in DIGITS || c in MARKS then [c] else if c == SP then Ascii("+")
      else Ascii("%") + [HEX_DIGITS[c / 16], HEX_DIGITS[c % 16]]
  {
    UnreservedIs(c);
    HexDigitAt(c / 16);
    HexDigitAt(c % 16);
    assert Ascii("+") == [PLUS] && Ascii("%") == [PERCENT];
    hide CAPITALS, SMALLS, DIGITS, MARKS, HEX_DIGITS, Unreserved, HexDigit, Ascii;
  }

  /** The first k bytes of t, encoded. */
  function Encoded(t: seq<byte>, k: nat): (e: seq<byte>)
    requires k <= |t|
    ensures k <= |e| <= 3 * k
  {
    if k == 0 then [] else Encoded(t, k - 1) + EncodedByte(t[k - 1])
  }

  /** How many bytes of t are encoded into room bytes, from k on. */
  function Fit(t: seq<byte>, k: nat, room: int): (n: nat)
    requires k <= |t|
    ensures k <= n <= |t|
    decreases |t| - k
  {
    if k < |t| && |Encoded(t, k + 1)| <= room then Fit(t, k + 1, room) else k
  }

  lemma {:induction false} EncodedGrows(t: seq<byte>, k: nat, n: nat)
    requires k < n <= |t|
    ensures |Encoded(t, k)| < |Encoded(t, n)|
  {
    if k + 1 < n {
      EncodedGrows(t, k, n - 1);
    }
  }

  /** A prefix of the source is encoded if and only if its encoding fits. */
  lemma {:induction false} FitLongest(t: seq<byte>, k: nat, room: int, n: nat)
    requires k <= |t| && |Encoded(t, k)| <= room && k <= n <= |t|
    ensures n <= Fit(t, k, room) <==> |Encoded(t, n)| <= room
    decreases |t| - k
  {
    if k < |t| {
      if |Encoded(t, k + 1)| <= room {
        if n > k {
          FitLongest(t, k + 1, room, n);
        }
      } else if n > k + 1 {
        EncodedGrows(t, k + 1, n);
      }
    }
  }

  lemma EncodedStep(t: seq<byte>, k: nat)
    requires k < |t|
    ensures Encoded(t, k + 1) == Encoded(t, k) + EncodedByte(t[k])
  {
  }

  /** One turn of the loop of url_encode; -1 if an escape does not fit. */
  method PutEncoded(target: array<byte>, at: nat, tgtBytes: nat, c: byte) returns (r: int, i: nat)
    requires at < tgtBytes <= target.Length
    modifies target
    ensures r == if at + |EncodedByte(c)| <= tgtBytes then 0 else -1
    ensures r == 0 ==> i == at + |EncodedByte(c)| && target[..i] == old(target[..at]) + EncodedByte(c)
    ensures r == -1 ==> i == at && target[..] == old(target[..])
    ensures target[tgtBytes..] == old(target[tgtBytes..])
  {
    r, i := 0, at;
    if Unreserved(c) {
      target[i] := c;
    } else if c == SP {
      target[i] := PLUS;
    } else {
      if i + 2 >= tgtBytes {
        return -1, at;
      }
      target[i] := PERCENT;
      i := i + 1;
      target[i] := HexDigit(c / 16, UPPER_A);
      i := i + 1;
      target[i] := HexDigit(c % 16, UPPER_A);
    }
    i := i + 1;
  }

  /** The terminator, if there is room for it. */
  method Terminate(target: array<byte>, i: nat, tgtBytes: nat)
    requires i <= tgtBytes <= target.Length
    modifies target
    ensures target[..i] == old(target[..i]) && (i < tgtBytes ==> target[i] == 0)
    ensures target[tgtBytes..] == old(target[tgtBytes..])
  {
    if i < tgtBytes {
      target[i] := 0;
    }
  }

  /** url_encode: the encoding of the longest prefix that fits, terminated if there is room left,
      and -1 if an escape did not fit in that room. */
  method UrlEncode(source: seq<byte>, srcBytes: int, target: array<byte>, tgtBytes: int) returns (r: int)
    requires 0 <= tgtBytes <= target.Length
    modifies target
    ensures var t := Taken(source, srcBytes); var k := Fit(t, 0, tgtBytes); var e := Encoded(t, k);
      |e| <= tgtBytes && target[..|e|] == e && (|e| < tgtBytes ==> target[|e|] == 0) &&
      r == (if k < |t| && |e| < tgtBytes then -1 else 0)
    ensures target[tgtBytes..] == old(target[tgtBytes..])
  {
    ghost var t := Taken(source, srcBytes);
    hide Taken, InSource, EncodedByte;
    var p, i := 0, 0;
    r := 0;
    InTaken(source, srcBytes, 0);
    while InSource(source, srcBytes, p) && i < tgtBytes
      invariant p <= |t| && 0 <= i <= tgtBytes && target[..i] == Encoded(t, p)
      invariant Fit(t, 0, tgtBytes) == Fit(t, p, tgtBytes)
      invariant target[tgtBytes..] == old(target[tgtBytes..])
      invariant InSource(source, srcBytes, p) <==> p < |t|
      decreases |t| - p
    {
      EncodedStep(t, p);
      r, i := PutEncoded(target, i, tgtBytes, source[p]);
      if r == -1 {
        break;
      }
      p := p + 1;
      InTaken(source, srcBytes, p);
    }
    assert p < |t| ==> |Encoded(t, p + 1)| > tgtBytes;
    hide Encoded;
    Terminate(target, i, tgtBytes);
  }

  // ---------- decoding ----------

  /** An escape stands at p. */
  predicate EscapeAt(t: seq<byte>, p: nat) {
    p + 2 < |t| && t[p] == PERCENT && IsHex(t[p + 1]) && IsHex(t[p + 2])
  }

  datatype Outcome = Outcome(bytes: seq<byte>, r: int)

  /** What url_decode makes of t from p on, with room bytes left. */
  function Decoded(t: seq<byte>, p: nat, room: int): (o: Outcome)
    requires p <= |t|
    ensures |o.bytes| <= if room > 0 then room else 0
    decreases |t| - p
  {
    if p == |t| || room <= 0 then Outcome([], 0)
    else if t[p] == PLUS then After(SP, Decoded(t, p + 1, room - 1))
    else if t[p] != PERCENT then After(t[p], Decoded(t, p + 1, room - 1))
    else if EscapeAt(t, p) then After(HexValue(t[p + 1]) * 16 + HexValue(t[p + 2]), Decoded(t, p + 3, room - 1))
    else Outcome([], -1)
  }

  function After(c: byte, o: Outcome): Outcome {
    Outcome([c] + o.bytes, o.r)
  }

  /** One turn of the loop of url_decode. */
  method DecodeOne(source: seq<byte>, srcBytes: int, at: nat, target: array<byte>, i: nat, tgtBytes: nat)
    returns (r: int, p: nat)
    requires at < |Taken(source, srcBytes)| && i < tgtBytes <= target.Length
    modifies target
    ensures target[..i] == old(target[..i]) && target[tgtBytes..] == old(target[tgtBytes..])
    ensures var t := Taken(source, srcBytes); var o := Decoded(t, at, tgtBytes - i);
      if r == 0 then at < p <= |t| && o == After(target[i], Decoded(t, p, tgtBytes - i - 1))
      else r == -1 && p == at && o == Outcome([], -1)
  {
    hide Taken, InSource;
    r, p := 0, at;
    var c := source[p];
    if c == PLUS {
      target[i] := SP;
    } else if c == PERCENT {
      EscapeSeen(source, srcBytes, p);
      if !IsHex(At(source, p + 1)) || !IsHex(At(source, p + 2)) || (srcBytes != -1 && p + 2 >= srcBytes) {
        return -1, at;
      }
      target[i] := HexValue(source[p + 1]) * 16 + HexValue(source[p + 2]);
      p := p + 2;
    } else {
      target[i] := c;
    }
    p := p + 1;
  }

  /** url_decode, which stops with -1 at an escape that is malformed or cut off. */
  method UrlDecode(source: seq<byte>, srcBytes: int, target: array<byte>, tgtBytes: int) returns (r: int)
    requires 0 <= tgtBytes <= target.Length
    modifies target
    ensures var o := Decoded(Taken(source, srcBytes), 0, tgtBytes); var n := |o.bytes|;
      r == o.r && target[..n] == o.bytes && (n < tgtBytes ==> target[n] == 0)
    ensures target[tgtBytes..] == old(target[tgtBytes..])
  {
    hide InSource, Taken, Plus;
    ghost var t := Taken(source, srcBytes);
    ghost var o := Decoded(t, 0, tgtBytes);
    PlusNothing(o);
    hide *;
    var p, i := 0, 0;
    r := 0;
    InTaken(source, srcBytes, 0);
    while InSource(source, srcBytes, p) && i < tgtBytes
      invariant p <= |t| && 0 <= i <= tgtBytes && r == 0
      invariant o == Plus(target[..i], Decoded(t, p, tgtBytes - i))
      invariant target[tgtBytes..] == old(target[tgtBytes..])
      invariant InSource(source, srcBytes, p) <==> p < |t|
      decreases |t| - p
    {
      ghost var before := target[..i];
      r, p := DecodeOne(source, srcBytes, p, target, i, tgtBytes);
      if r == -1 {
        break;
      }
      i := i + 1;
      assert target[..i] == before + [target[i - 1]];
      PlusAfter(before, target[i - 1], Decoded(t, p, tgtBytes - i));
      InTaken(source, srcBytes, p);
    }
    DecodedEnd(t, p, tgtBytes - i);
    PlusEnd(target[..i], r);
    Terminate(target, i, tgtBytes);
  }

  function Plus(head: seq<byte>, o: Outcome): Outcome {
    Outcome(head + o.bytes, o.r)
  }

  lemma PlusNothing(o: Outcome)
    ensures Plus([], o) == o
  {
  }

  lemma PlusAfter(head: seq<byte>, c: byte, o: Outcome)
    ensures Plus(head, After(c, o)) == Plus(head + [c], o)
  {
  }

  lemma PlusEnd(head: seq<byte>, r: int)
    ensures Plus(head, Outcome([], r)) == Outcome(head, r)
  {
  }

  /** The three tests of the loop find exactly the escapes that lie in the source. */
  lemma EscapeSeen(source: seq<byte>, srcBytes: int, p: nat)
    requires p < |Taken(source, srcBytes)| && source[p] == PERCENT
    ensures var t := Taken(source, srcBytes);
      EscapeAt(t, p) <==> IsHex(At(source, p + 1)) && IsHex(At(source, p + 2)) && !(srcBytes != -1 && p + 2 >= srcBytes)
    ensures var t := Taken(source, srcBytes);
      EscapeAt(t, p) ==> t[p + 1] == source[p + 1] && t[p + 2] == source[p + 2]
  {
    var t := Taken(source, srcBytes);
    assert !InSource(source, srcBytes, |t|);
    assert p + 1 < |t| ==> InSource(source, srcBytes, p + 1);
    assert p + 2 < |t| ==> InSource(source, srcBytes, p + 2);
  }

  // ---------- round trip ----------

  /** The bytes of t from k up to n. */
  function Part(t: seq<byte>, k: nat, n: nat): seq<byte>
    requires k <= n <= |t|
    decreases n - k
  {
    if k == n then [] else [t[k]] + Part(t, k + 1, n)
  }

  lemma {:induction false} PartIs(t: seq<byte>, k: nat, n: nat)
    requires k <= n <= |t|
    ensures Part(t, k, n) == t[k..n]
    decreases n - k
  {
    if k < n {
      PartIs(t, k + 1, n);
      assert t[k..n] == [t[k]] + t[k + 1..n];
    }
  }

  /** What an encoding holds behind an encoded prefix is decoded to the bytes behind that prefix. */
  lemma {:induction false} DecodedEncoded(t: seq<byte>, n: nat, k: nat, room: int)
    requires k <= n <= |t| && room >= n - k
    ensures |Encoded(t, k)| <= |Encoded(t, n)|
    ensures Decoded(Encoded(t, n), |Encoded(t, k)|, room) == Outcome(Part(t, k, n), 0)
    decreases n - k
  {
    hide *;
    PartStep(t, k, n);
    var e, p := Encoded(t, n), |Encoded(t, k)|;
    if k < n {
      EncodedPart(t, n, k);
      DecodedEncoded(t, n, k + 1, room - 1);
      DecodedStep(e, p, t[k], room);
      AfterIs(t[k], Part(t, k + 1, n), 0);
    } else {
      DecodedEnd(e, p, room);
    }
  }

  lemma PartStep(t: seq<byte>, k: nat, n: nat)
    requires k <= n <= |t|
    ensures Part(t, k, n) == if k == n then [] else [t[k]] + Part(t, k + 1, n)
  {
  }

  lemma DecodedEnd(e: seq<byte>, p: nat, room: int)
    requires p <= |e|
    ensures p == |e| || room <= 0 ==> Decoded(e, p, room) == Outcome([], 0)
  {
  }

  lemma AfterIs(c: byte, bytes: seq<byte>, r: int)
    ensures After(c, Outcome(bytes, r)) == Outcome([c] + bytes, r)
  {
  }

  /** One encoded byte is decoded in one step. */
  lemma DecodedStep(e: seq<byte>, p: nat, c: byte, room: int)
    requires room > 0 && Has(e, p, EncodedByte(c))
    ensures Decoded(e, p, room) == After(c, Decoded(e, p + |EncodedByte(c)|, room - 1))
  {
    var b := EncodedByte(c);
    assert e[p] == b[0];
    if |b| == 3 {
      assert e[p + 1] == b[1] && e[p + 2] == b[2];
    }
  }

  lemma HasMore(s: seq<byte>, p: nat, x: seq<byte>, y: seq<byte>)
    ensures Has(s, p, x) ==> Has(s + y, p, x)
    ensures Has(s + x, |s|, x)
  {
  }

  lemma {:induction false} EncodedPart(t: seq<byte>, n: nat, k: nat)
    requires k < n <= |t|
    ensures Has(Encoded(t, n), |Encoded(t, k)|, EncodedByte(t[k]))
    ensures |Encoded(t, k + 1)| == |Encoded(t, k)| + |EncodedByte(t[k])|
  {
    hide EncodedByte, Has;
    if k + 1 < n {
      EncodedPart(t, n - 1, k);
      HasMore(Encoded(t, n - 1), |Encoded(t, k)|, EncodedByte(t[k]), EncodedByte(t[n - 1]));
    } else {
      HasMore(Encoded(t, k), 0, EncodedByte(t[k]), []);
    }
  }

  /** An encoding is a C string, so that it is taken as a whole. */
  lemma {:induction false} EncodedTaken(t: seq<byte>, k: nat)
    requires k <= |t|
    ensures forall j :: 0 <= j < |Encoded(t, k)| ==> Encoded(t, k)[j] != 0
  {
    if k > 0 {
      EncodedTaken(t, k - 1);
    }
  }

  /** url_decode on what url_encode wrote, into a buffer for as many bytes as were encoded: it
      returns 0 and exactly the longest prefix that url_encode had room for. */
  lemma RoundTrip(source: seq<byte>, srcBytes: int, tgtBytes: nat, room: nat)
    requires room >= Fit(Taken(source, srcBytes), 0, tgtBytes)
    ensures var t := Taken(source, srcBytes); var k := Fit(t, 0, tgtBytes); var e := Encoded(t, k);
      Decoded(Taken(e, -1), 0, room) == Outcome(t[..k], 0) && Decoded(Taken(e, |e|), 0, room) == Outcome(t[..k], 0)
  {
    var t := Taken(source, srcBytes);
    var k := Fit(t, 0, tgtBytes);
    var e := Encoded(t, k);
    EncodedTaken(t, k);
    assert Taken(e, -1) == e && Taken(e, |e|) == e;
    assert Encoded(t, 0) == [];
    DecodedEncoded(t, k, 0, room);
    PartIs(t, 0, k);
  }

  /** Decoding changes nothing exactly when there is neither a percent nor a plus sign. */
  lemma {:induction false} DecodedSame(t: seq<byte>, p: nat, room: int)
    requires p <= |t| && room >= |t| - p
    ensures |Decoded(t, p, room).bytes| <= |t| - p
    ensures Decoded(t, p, room).bytes == t[p..] <==> forall j :: p <= j < |t| ==> t[j] != PERCENT && t[j] != PLUS
    decreases |t| - p
  {
    if p < |t| {
      if t[p] != PERCENT {
        DecodedSame(t, p + 1, room - 1);
      } else if EscapeAt(t, p) {
        DecodedSame(t, p + 3, room - 1);
      }
      assert t[p..] == [t[p]] + t[p + 1..];
    }
  }

  // ---------- every text is decoded token by token ----------

  /** A byte that stands for itself, a plus sign, or an escape for the byte v. */
  datatype Token = Plain(b: byte) | Blank | Escape(v: byte)

  predicate TokenAt(t: seq<byte>, p: nat, k: Token) {
    p < |t| &&
    match k
    case Plain(b) => t[p] == b && b != '%' as int && b != '+' as int
    case Blank => t[p] == '+' as int
    case Escape(v) =>
      t[p] == '%' as int && p + 2 < |t| && IsHex(t[p + 1]) && IsHex(t[p + 2]) &&
      v == 16 * HexValue(t[p + 1]) + HexValue(t[p + 2])
  }

  function TokenEnd(p: nat, k: Token): nat {
    if k.Escape? then p + 3 else p + 1
  }

  function Meaning(k: Token): byte {
    match k
    case Plain(b) => b
    case Blank => ' ' as int
    case Escape(v) => v
  }

  function Meanings(ks: seq<Token>): (bytes: seq<byte>)
    ensures |bytes| == |ks|
  {
    seq(|ks|, i requires 0 <= i < |ks| => Meaning(ks[i]))
  }

  /** A percent sign without two hexadecimal digits inside the text. */
  predicate BadEscape(t: seq<byte>, p: nat) {
    p < |t| && t[p] == '%' as int && !(p + 2 < |t| && IsHex(t[p + 1]) && IsHex(t[p + 2]))
  }

  /** From p on stand the tokens, and then the text ends or goes on with a malformed escape at e. */
  predicate TokensTo(t: seq<byte>, p: nat, ks: seq<Token>, e: nat)
    decreases |ks|
  {
    if ks == [] then p == e && (e == |t| || BadEscape(t, e))
    else TokenAt(t, p, ks[0]) && TokensTo(t, TokenEnd(p, ks[0]), ks[1..], e)
  }

  /** Any text consists of tokens up to its end or its first malformed escape. */
  lemma {:induction false} Tokenized(t: seq<byte>, p: nat) returns (ks: seq<Token>, e: nat)
    requires p <= |t|
    ensures TokensTo(t, p, ks, e)
    decreases |t| - p
  {
    if p == |t| || BadEscape(t, p) {
      return [], p;
    }
    var k := if t[p] == PLUS then Blank
      else if t[p] == PERCENT then Escape(16 * HexValue(t[p + 1]) + HexValue(t[p + 2])) else Plain(t[p]);
    assert TokenAt(t, p, k);
    hide TokenAt, BadEscape;
    ks, e := Tokenized(t, TokenEnd(p, k));
    ks := [k] + ks;
  }

  /** url_decode gives the meanings of the tokens, as many as there is room for, and -1 if it gets to
      a malformed escape with room left. */
  lemma {:induction false} DecodedTokens(t: seq<byte>, p: nat, ks: seq<Token>, e: nat, room: nat)
    requires p <= |t| && TokensTo(t, p, ks, e)
    ensures Decoded(t, p, room) ==
      if room <= |ks| then Outcome(Meanings(ks)[..room], 0)
      else Outcome(Meanings(ks), if e == |t| then 0 else -1)
    decreases |ks|
  {
    if ks != [] && room > 0 {
      DecodedTokens(t, TokenEnd(p, ks[0]), ks[1..], e, room - 1);
      assert Meanings(ks) == [Meaning(ks[0])] + Meanings(ks[1..]);
      hide IsHex;
    }
  }
}
