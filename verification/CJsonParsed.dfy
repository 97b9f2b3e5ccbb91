/** What the parser returns is well formed, so it can be printed and is parsed again. */
module CJsonParsed {
  import opened Bytes
  import opened CJson
  import opened CJsonRoundTrip
  import opened CJsonStrings

  lemma StringNulFree(s: seq<byte>, i: nat)
    requires i <= |s| && ParseString(s, i).Parsed?
    ensures NulFree(ParseString(s, i).value)
  {
    RawFits(s, i + 1);
  }

  lemma {:induction false} ValueWellFormed(s: seq<byte>, i: nat)
    requires i <= |s| && ParseValue(s, i).Parsed?
    ensures WellFormed(ParseValue(s, i).value)
    decreases |s| - i, 0
  {
    NoLiteral(s, i);
    hide Starts, ParseNumber, ParseString, ParseItems, ParseMembers, Skip;
    var c := At(s, i);
    if c == QUOTE {
      StringNulFree(s, i);
    } else if c == LBRACKET && At(s, Skip(s, i + 1)) != RBRACKET {
      ItemsWellFormed(s, Skip(s, i + 1));
    } else if c == LBRACE && At(s, Skip(s, i + 1)) != RBRACE {
      MembersWellFormed(s, Skip(s, i + 1));
    }
  }

  lemma {:induction false} ItemsWellFormed(s: seq<byte>, i: nat)
    requires i <= |s| && ParseItems(s, i).Parsed?
    ensures WellFormed(Array(ParseItems(s, i).value))
    decreases |s| - i, 1
  {
    hide ParseValue, Skip;
    ValueWellFormed(s, Skip(s, i));
    var j := Skip(s, ParseValue(s, Skip(s, i)).end);
    if At(s, j) == COMMA {
      ItemsWellFormed(s, j + 1);
    }
  }

  lemma {:induction false} MemberWellFormed(s: seq<byte>, i: nat)
    requires i <= |s| && ParseMember(s, i).Parsed?
    ensures NulFree(ParseMember(s, i).value.name) && WellFormed(ParseMember(s, i).value.value)
    decreases |s| - i, 1
  {
    hide ParseValue, ParseString, Skip;
    StringNulFree(s, Skip(s, i));
    var j := Skip(s, ParseString(s, Skip(s, i)).end);
    ValueWellFormed(s, Skip(s, j + 1));
  }

  lemma {:induction false} MembersWellFormed(s: seq<byte>, i: nat)
    requires i <= |s| && ParseMembers(s, i).Parsed?
    ensures WellFormed(Object(ParseMembers(s, i).value))
    decreases |s| - i, 2
  {
    hide ParseMember, Skip;
    MemberWellFormed(s, i);
    var j := Skip(s, ParseMember(s, i).end);
    if At(s, j) == COMMA {
      MembersWellFormed(s, j + 1);
    }
  }

  /** Every tree that a text is parsed into is one that the round trip speaks of. */
  lemma ParsedWellFormed(s: seq<byte>, strict: bool)
    requires ParseText(s, strict).Parsed?
    ensures WellFormed(ParseText(s, strict).value)
  {
    ValueWellFormed(s, Skip(s, 0));
  }

  /** Printing what was parsed and parsing it again changes nothing, whatever the spelling of the
      first text was. */
  lemma PrintParsed(s: seq<byte>, strict: bool, depth: nat, fmt: bool, again: bool)
    requires ParseText(s, strict).Parsed?
    ensures var t := ParseText(s, strict).value; var text := PrintValue(t, depth, fmt);
      ParseText(text, again) == Parsed(t, |text|)
  {
    hide *;
    ParsedWellFormed(s, strict);
    RoundTrip(ParseText(s, strict).value, depth, fmt, again);
  }

  // ---------- which number is read ----------

  lemma {:induction false} DecimalSlice(s: seq<byte>, i: nat, e: nat, a: nat, b: nat)
    requires i <= e <= |s| && b <= e - i
    ensures Decimal(s[i..e], a, b) == Decimal(s, i + a, i + b)
    decreases b
  {
    if a < b {
      DecimalSlice(s, i, e, a, b - 1);
    }
  }

  lemma {:induction false} LeadingZero(s: seq<byte>, a: nat, b: nat)
    requires a < b <= |s| && s[a] == 48
    ensures Decimal(s, a, b) == Decimal(s, a + 1, b)
    decreases b
  {
    if a + 1 < b {
      LeadingZero(s, a, b - 1);
    }
  }

  /** The bytes that parse_number goes through, and where it stops. */
  lemma NumberBytes(s: seq<byte>, i: nat)
    requires i <= |s|
    ensures var j := AfterSign(s, i); var k := AfterZero(s, j); var e := AfterDigits(s, k);
      && i <= j <= k <= e && (forall x :: j <= x < e ==> IsDigit(s[x])) && Decimal(s, k, e) == Decimal(s, j, e)
      && (IsDigit(At(s, e)) ==> At(s, e) == 48 && e == j + 1 && s[j] == 48)
  {
    var j := AfterSign(s, i);
    var k := AfterZero(s, j);
    var e := AfterDigits(s, k);
    DigitsEndDigit(s, k);
    DigitsEndStops(s, k);
    if j < k {
      LeadingZero(s, j, e);
    }
  }

  lemma {:induction false} DigitsEndStops(s: seq<byte>, i: nat)
    requires i <= |s|
    ensures !IsDigit(At(s, DigitsEnd(s, i)))
    decreases |s| - i
  {
    if i < |s| {
      DigitsEndStops(s, i + 1);
    }
  }

  /** The number that is read is what atoi makes of the bytes gone through, and a digit is left
      unread only behind a single zero, where it is a zero as well. */
  lemma NumberParsed(s: seq<byte>, i: nat)
    requires i <= |s| && ParseNumber(s, i).Parsed?
    ensures var r := ParseNumber(s, i); r.value == Number(Atoi(s[i..r.end]))
    ensures var e := ParseNumber(s, i).end; IsDigit(At(s, e)) ==> s[e] == 48 && i < e && s[e - 1] == 48
  {
    NumberBytes(s, i);
    var j := AfterSign(s, i);
    var e := AfterDigits(s, AfterZero(s, j));
    var t := s[i..e];
    assert forall x :: 0 <= x < |t| ==> t[x] == s[i + x];
    assert forall x :: j - i <= x < |t| ==> IsDigit(t[x]);
    assert SpacesEnd(t, 0) == 0;
    assert DigitsStart(t, 0) == j - i;
    DigitsEndIs(t, j - i, |t|);
    DecimalSlice(s, i, e, j - i, |t|);
  }
}
