/** The spellings of a string: every way to write its bytes between quotes, and what is read from
    each of them. */
module CJsonSpelling {
  import opened Bytes
  import opened CJson
  import opened CJsonStrings

  /** The code points that UTF-16 can spell, but for zero, which ends a C string. */
  predicate CodePoint(c: nat) {
    0 < c < 0x110000 && !HighSurrogate(c) && !LowSurrogate(c)
  }

  /** One spelling of nothing or of some bytes. */
  datatype Spelling =
    | Itself(b: byte)           // a byte that needs no escape
    | Escape(b: byte)           // a backslash and the byte it stands for
    | Short(letter: byte)       // a backslash and one of the letters b, f, n, r and t
    | Code(c: nat)              // the escape of a code point, or the pair of escapes
    | Half(c: nat)              // the escape of zero, or half of a pair without the other half
    | Unpaired(c: nat, d: nat)  // the escapes of a first half and of what is no second half

  /** The letters of the short escapes, section 7 of RFC 8259. */
  predicate IsShort(letter: byte) {
    letter in Ascii("bfnrt")
  }

  /** Backspace, form feed, line feed, carriage return and tabulator. */
  function ShortMeaning(letter: byte): byte {
    if letter == 'b' as int then 8
    else if letter == 'f' as int then 12
    else if letter == 'n' as int then 10
    else if letter == 'r' as int then 13
    else 9
  }

  /** At i stands an escape of four hexadecimal digits, in either case, for c. */
  predicate Unit(s: seq<byte>, i: nat, c: nat) {
    At(s, i) == BACKSLASH && At(s, i + 1) == 117 && Hex4At(s, i + 2) && Hex4(s, i + 2) == c
  }

  /** The spelling stands at i. */
  predicate Stands(s: seq<byte>, i: nat, sp: Spelling) {
    match sp
    case Itself(b) => At(s, i) == b && b != 0 && b != QUOTE && b != BACKSLASH
    case Escape(b) => At(s, i) == BACKSLASH && At(s, i + 1) == b && b != 0 && b != 117 && !IsShort(b)
    case Short(letter) => At(s, i) == BACKSLASH && At(s, i + 1) == letter && IsShort(letter)
    case Code(c) =>
      CodePoint(c) &&
      if c < 0x10000 then Unit(s, i, c)
      else Unit(s, i, 0xD800 + (c - 0x10000) / 0x400) && Unit(s, i + 6, 0xDC00 + (c - 0x10000) % 0x400)
    case Half(c) =>
      Unit(s, i, c) && (c == 0 || LowSurrogate(c) || (HighSurrogate(c) && !UnicodeEscape(s, i + 6)))
    case Unpaired(c, d) => Unit(s, i, c) && HighSurrogate(c) && Unit(s, i + 6, d) && !LowSurrogate(d)
  }

  predicate UnicodeEscape(s: seq<byte>, i: nat) {
    At(s, i) == BACKSLASH && At(s, i + 1) == 117
  }

  function Width(sp: Spelling): nat {
    match sp
    case Itself(_) => 1
    case Escape(_) => 2
    case Short(_) => 2
    case Code(c) => if c < 0x10000 then 6 else 12
    case Half(_) => 6
    case Unpaired(_, _) => 12
  }

  function Meaning(sp: Spelling): seq<byte> {
    match sp
    case Itself(b) => [b]
    case Escape(b) => [b]
    case Short(letter) => [ShortMeaning(letter)]
    case Code(c) => if c < 0x110000 then Utf8(c) else []
    case Half(_) => []
    case Unpaired(_, _) => []
  }

  /** From i on stand the spellings from k on, and then the string ends. */
  predicate SpelledFrom(s: seq<byte>, i: nat, sps: seq<Spelling>, k: nat)
    requires k <= |sps|
    decreases |sps| - k
  {
    if k == |sps| then At(s, i) == QUOTE || At(s, i) == 0
    else Stands(s, i, sps[k]) && SpelledFrom(s, i + Width(sps[k]), sps, k + 1)
  }

  function SpelledEnd(i: nat, sps: seq<Spelling>, k: nat): nat
    requires k <= |sps|
    decreases |sps| - k
  {
    if k == |sps| then i else SpelledEnd(i + Width(sps[k]), sps, k + 1)
  }

  function MeaningFrom(sps: seq<Spelling>, k: nat): seq<byte>
    requires k <= |sps|
    decreases |sps| - k
  {
    if k == |sps| then [] else Meaning(sps[k]) + MeaningFrom(sps, k + 1)
  }

  // ---------- every spelling is read as what it means ----------

  lemma PairRead(c: nat)
    requires 0x10000 <= c < 0x110000
    ensures var a, b := 0xD800 + (c - 0x10000) / 0x400, 0xDC00 + (c - 0x10000) % 0x400;
      HighSurrogate(a) && LowSurrogate(b) && 0x10000 + a % 0x400 * 0x400 + b % 0x400 == c
  {
    var h, l := (c - 0x10000) / 0x400, (c - 0x10000) % 0x400;
    assert h < 0x400 && (0xD800 + h) % 0x400 == h && (0xDC00 + l) % 0x400 == l;
  }

  lemma Shorts(letter: byte)
    ensures IsShort(letter) <==> letter == 98 || letter == 102 || letter == 110 || letter == 114 || letter == 116
  {
    assert Ascii("bfnrt") == [98, 102, 110, 114, 116];
  }

  lemma SpellingRead(s: seq<byte>, i: nat, sp: Spelling)
    requires Stands(s, i, sp)
    ensures i < |s| && Unescape(s, i) == Piece(Meaning(sp), i + Width(sp))
  {
    if sp.Escape? {
      Shorts(sp.b);
    } else if sp.Short? {
      Shorts(sp.letter);
    } else if sp.Code? && sp.c >= 0x10000 {
      PairRead(sp.c);
    }
    hide Utf8, Hex4, IsShort, Ascii;
  }

  lemma {:induction false} SpelledRead(s: seq<byte>, i: nat, sps: seq<Spelling>, k: nat)
    requires i <= |s| && k <= |sps| && SpelledFrom(s, i, sps, k)
    ensures Unescaped(s, i) == Parsed(MeaningFrom(sps, k), SpelledEnd(i, sps, k))
    ensures At(s, SpelledEnd(i, sps, k)) == QUOTE || At(s, SpelledEnd(i, sps, k)) == 0
    decreases |sps| - k
  {
    if k < |sps| {
      hide Unescape, Stands, Meaning, Width;
      SpellingRead(s, i, sps[k]);
      SpelledRead(s, i + Width(sps[k]), sps, k + 1);
    } else {
      hide Unescaped, Stands;
      UnescapedEnd(s, i);
    }
  }

  /** A literal is read as what its spellings mean, in whatever mixture they come. */
  lemma LiteralRead(s: seq<byte>, i: nat, sps: seq<Spelling>)
    requires At(s, i) == QUOTE && SpelledFrom(s, i + 1, sps, 0)
    ensures i < |s|
    ensures var e := SpelledEnd(i + 1, sps, 0);
      ParseString(s, i) == Parsed(MeaningFrom(sps, 0), if At(s, e) == QUOTE then e + 1 else e)
  {
    hide Unescaped;
    SpelledRead(s, i + 1, sps, 0);
  }

  // ---------- there are no other literals ----------

  /** What a turn of the decoding loop reads is a spelling. */
  lemma SpellingOf(s: seq<byte>, i: nat) returns (sp: Spelling)
    requires i <= |s| && Unescape(s, i).Piece?
    ensures Stands(s, i, sp) && Unescape(s, i) == Piece(Meaning(sp), i + Width(sp))
  {
    var c, e := At(s, i), At(s, i + 1);
    if c != BACKSLASH {
      sp := Itself(c);
    } else {
      Shorts(e);
      if e == 117 {
        sp := UnicodeSpelling(s, i);
      } else {
        sp := if IsShort(e) then Short(e) else Escape(e);
      }
    }
    hide Utf8, Hex4, IsShort, Ascii, UnescapeUnicode;
    SpellingRead(s, i, sp);
  }

  lemma UnicodeSpelling(s: seq<byte>, i: nat) returns (sp: Spelling)
    requires i + 1 < |s| && s[i] == BACKSLASH && s[i + 1] == 117 && UnescapeUnicode(s, i).Piece?
    ensures Stands(s, i, sp)
  {
    hide Utf8, HexValue;
    var c := Hex4(s, i + 2);
    if c == 0 || LowSurrogate(c) || (HighSurrogate(c) && !UnicodeEscape(s, i + 6)) {
      return Half(c);
    } else if !HighSurrogate(c) {
      return Code(c);
    } else {
      var d := Hex4(s, i + 8);
      if LowSurrogate(d) {
        PairSplit(c, d);
        return Code(0x10000 + c % 0x400 * 0x400 + d % 0x400);
      } else {
        return Unpaired(c, d);
      }
    }
  }

  lemma PairSplit(a: nat, b: nat)
    requires HighSurrogate(a) && LowSurrogate(b)
    ensures var c := 0x10000 + a % 0x400 * 0x400 + b % 0x400;
      0x10000 <= c < 0x110000 && 0xD800 + (c - 0x10000) / 0x400 == a && 0xDC00 + (c - 0x10000) % 0x400 == b
  {
  }

  lemma {:induction false} SpelledBy(s: seq<byte>, i: nat, done: seq<Spelling>) returns (sps: seq<Spelling>)
    requires i <= |s| && Unescaped(s, i).Parsed?
    ensures |done| <= |sps| && sps[..|done|] == done && SpelledFrom(s, i, sps, |done|)
    decreases |s| - i
  {
    hide Unescape, Stands, Meaning, Width;
    if At(s, i) == QUOTE || At(s, i) == 0 {
      sps := done;
    } else {
      UnescapedOne(s, i);
      var sp := SpellingOf(s, i);
      sps := SpelledBy(s, i + Width(sp), done + [sp]);
      assert sps[..|done| + 1][..|done|] == done;
      assert sps[..|done| + 1][|done|] == sp;
    }
  }

  /** Whatever is read as a string consists of spellings and is what they mean. */
  lemma LiteralSpelled(s: seq<byte>, i: nat) returns (sps: seq<Spelling>)
    requires i <= |s| && ParseString(s, i).Parsed?
    ensures At(s, i) == QUOTE && SpelledFrom(s, i + 1, sps, 0)
    ensures ParseString(s, i).value == MeaningFrom(sps, 0)
  {
    hide Unescaped;
    sps := SpelledBy(s, i + 1, []);
    SpelledRead(s, i + 1, sps, 0);
  }

  // ---------- an example ----------

  /** A solidus may be escaped, as section 7 of RFC 8259 has it. */
  lemma SolidusRead()
    ensures var s := [QUOTE, 97, BACKSLASH, 47, 98, QUOTE];
      ParseString(s, 0) == Parsed([97, 47, 98], 6)
  {
    var s: seq<byte>, sps := [QUOTE, 97, BACKSLASH, 47, 98, QUOTE], [Itself(97), Escape(47), Itself(98)];
    Shorts(47);
    hide IsShort;
    assert Stands(s, 1, sps[0]) && Stands(s, 2, sps[1]) && Stands(s, 4, sps[2]);
    hide Stands;
    assert SpelledFrom(s, 5, sps, 3) && SpelledEnd(5, sps, 3) == 5 && MeaningFrom(sps, 3) == [];
    assert SpelledFrom(s, 4, sps, 2) && SpelledEnd(4, sps, 2) == 5 && MeaningFrom(sps, 2) == [98];
    assert SpelledFrom(s, 2, sps, 1) && SpelledEnd(2, sps, 1) == 5 && MeaningFrom(sps, 1) == [47, 98];
    assert SpelledFrom(s, 1, sps, 0) && SpelledEnd(1, sps, 0) == 5;
    assert MeaningFrom(sps, 0) == [97] + [47, 98] == [97, 47, 98];
    LiteralRead(s, 0, sps);
  }
}
