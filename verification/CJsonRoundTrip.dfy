/** Parsing what was printed gives back the same tree, formatted or not. */
module CJsonRoundTrip {
  import opened Bytes
  import opened CJson

  // ---------- numbers ----------

  lemma {:induction false} DecimalRead(n: nat, s: seq<byte>, p: nat)
    requires Has(s, p, DecimalText(n))
    ensures var e := p + |DecimalText(n)|;
      Decimal(s, p, e) == n && (forall k :: p <= k < e ==> IsDigit(s[k])) && (n > 0 ==> s[p] != 48) &&
        (n == 0 ==> e == p + 1 && s[p] == 48)
  {
    var t := DecimalText(n);
    var e := p + |t|;
    assert s[p + (|t| - 1)] == t[|t| - 1] == 48 + n % 10;
    if n >= 10 {
      HasParts(s, p, DecimalText(n / 10), [48 + n % 10]);
      DecimalRead(n / 10, s, p);
    } else {
      assert Decimal(s, p, p) == 0;
    }
  }

  /** print_number and parse_number, whatever follows that is not part of a number. */
  lemma NumberRead(n: int, s: seq<byte>, p: nat)
    requires INT_MIN <= n <= INT_MAX && Has(s, p, PrintNumber(n))
    requires var c := At(s, p + |PrintNumber(n)|); !IsDigit(c) && c != DOT && c != 69 && c != 101
    ensures ParseNumber(s, p) == Parsed(Number(n), p + |PrintNumber(n)|)
    ensures At(s, p) == MINUS || IsDigit(At(s, p))
  {
    var m := if n < 0 then -n else n;
    var j := if n < 0 then p + 1 else p;
    if n < 0 {
      HasParts(s, p, [MINUS], DecimalText(m));
      assert s[p] == [MINUS][0];
    }
    DecimalRead(m, s, j);
    var e := j + |DecimalText(m)|;
    assert AfterSign(s, p) == j;
    if m > 0 {
      DigitsEndIs(s, j, e);
      assert AfterZero(s, j) == j && AfterDigits(s, j) == e;
    } else {
      assert AfterZero(s, j) == e && AfterDigits(s, e) == e;
    }
  }

  // ---------- strings ----------

  lemma HexRead(b: byte, s: seq<byte>, i: nat)
    requires b < 32 && Has(s, i, [48, 48, HexDigit(b / 16, LOWER_A), HexDigit(b % 16, LOWER_A)])
    ensures Hex4At(s, i) && Hex4(s, i) == b
  {
    var t := [48, 48, HexDigit(b / 16, LOWER_A), HexDigit(b % 16, LOWER_A)];
    assert s[i] == t[0] && s[i + 1] == t[1] && s[i + 2] == t[2] && s[i + 3] == t[3];
  }

  /** One escaped byte is decoded in one step. */
  lemma EscapedRead(b: byte, s: seq<byte>, i: nat)
    requires b != 0 && Has(s, i, Escaped(b))
    ensures Unescape(s, i) == Piece([b], i + |Escaped(b)|)
  {
    var t := Escaped(b);
    assert s[i] == t[0];
    if |t| > 1 {
      assert s[i + 1] == t[1];
    }
    if |t| == 6 {
      HasParts(s, i, [BACKSLASH, 117], t[2..]);
      assert t == [BACKSLASH, 117] + t[2..];
      HexRead(b, s, i + 2);
    }
  }

  lemma UnescapedStep(s: seq<byte>, i: nat)
    requires i <= |s|
    ensures At(s, i) == QUOTE ==> Unescaped(s, i) == Parsed([], i)
    ensures var p := Unescape(s, i);
      p.Piece? && Unescaped(s, p.next).Parsed? ==>
        Unescaped(s, i) == Parsed(p.bytes + Unescaped(s, p.next).value, Unescaped(s, p.next).end)
  {
  }

  lemma {:induction false} EscapedFromRead(text: seq<byte>, k: nat, s: seq<byte>, i: nat)
    requires k <= |text| && NulFree(text) && Has(s, i, EscapedFrom(text, k) + [QUOTE])
    ensures Unescaped(s, i) == Parsed(text[k..], i + |EscapedFrom(text, k)|)
    ensures At(s, i + |EscapedFrom(text, k)|) == QUOTE
    decreases |text| - k
  {
    hide Escaped, Unescape, Unescaped;
    HasParts(s, i, EscapedFrom(text, k), [QUOTE]);
    assert At(s, i + |EscapedFrom(text, k)|) == [QUOTE][0];
    UnescapedStep(s, i);
    if k < |text| {
      var e := Escaped(text[k]);
      assert EscapedFrom(text, k) + [QUOTE] == e + (EscapedFrom(text, k + 1) + [QUOTE]);
      HasParts(s, i, e, EscapedFrom(text, k + 1) + [QUOTE]);
      EscapedRead(text[k], s, i);
      EscapedFromRead(text, k + 1, s, i + |e|);
      assert text[k..] == [text[k]] + text[k + 1..];
    }
  }

  /** parse_string undoes print_string_ptr on every C string. */
  lemma StringRead(text: seq<byte>, s: seq<byte>, i: nat)
    requires NulFree(text) && Has(s, i, PrintString(text))
    ensures ParseString(s, i) == Parsed(text, i + |PrintString(text)|)
    ensures At(s, i) == QUOTE
  {
    assert PrintString(text) == [QUOTE] + (EscapedFrom(text, 0) + [QUOTE]);
    HasParts(s, i, [QUOTE], EscapedFrom(text, 0) + [QUOTE]);
    assert s[i] == [QUOTE][0];
    EscapedFromRead(text, 0, s, i + 1);
  }

  // ---------- values ----------

  /** What may follow a printed value: nothing that could continue a number. */
  predicate Ends(s: seq<byte>, e: nat) {
    var c := At(s, e);
    !IsDigit(c) && c != DOT && c != 69 && c != 101
  }

  lemma {:induction false} SkipTabs(s: seq<byte>, i: nat, n: nat)
    requires i + n <= |s| && forall k :: i <= k < i + n ==> s[k] == HT
    ensures Skip(s, i) == Skip(s, i + n)
    decreases n
  {
    if n > 0 {
      SkipTabs(s, i + 1, n - 1);
    }
  }

  /** What the printer puts between tokens when it formats is skipped. */
  lemma SkipIf(s: seq<byte>, i: nat, fmt: bool, n: nat, c: byte)
    requires 0 < c <= 32
    ensures Has(s, i, If(fmt, [c])) ==> Skip(s, i) == Skip(s, i + |If(fmt, [c])|)
    ensures Has(s, i, If(fmt, Tabs(n))) ==> Skip(s, i) == Skip(s, i + |If(fmt, Tabs(n))|)
  {
    if fmt && Has(s, i, If(fmt, [c])) {
      assert s[i] == [c][0];
    }
    if fmt && Has(s, i, If(fmt, Tabs(n))) {
      forall k | i <= k < i + n
        ensures s[k] == HT
      {
        assert s[i + (k - i)] == Tabs(n)[k - i];
      }
      SkipTabs(s, i, n);
    }
  }

  /** Printed values start with a byte that is not skipped. */
  lemma ValueStarts(t: Json, depth: nat, fmt: bool, s: seq<byte>, i: nat)
    requires Has(s, i, PrintValue(t, depth, fmt))
    ensures i < |s| && Skip(s, i) == i
    ensures At(s, i) == if t.Null? then 110 else if t.False? then 102 else if t.True? then 116
                        else if t.String? then QUOTE else if t.Array? then LBRACKET else if t.Object? then LBRACE
                          else At(s, i)
    ensures t.Number? ==> At(s, i) == MINUS || IsDigit(At(s, i))
    ensures At(s, i) != RBRACKET && At(s, i) != RBRACE
  {
    var p := PrintValue(t, depth, fmt);
    assert |p| > 0;
    assert s[i] == p[0];
    if t.Number? {
      NumberStarts(t.n);
    }
  }

  lemma {:induction false} DecimalStarts(n: nat)
    ensures IsDigit(DecimalText(n)[0])
  {
    if n >= 10 {
      DecimalStarts(n / 10);
    }
  }

  lemma NumberStarts(n: int)
    ensures var c := PrintNumber(n)[0]; c == MINUS || IsDigit(c)
  {
    if n >= 0 {
      DecimalStarts(n);
    }
  }

  lemma FirstByte(s: seq<byte>, i: nat, t: seq<byte>)
    requires Has(s, i, t) && |t| > 0
    ensures i < |s| && s[i] == t[0]
  {
  }

  /** None of the three literals starts with another byte than its own. */
  lemma NoLiteral(s: seq<byte>, i: nat)
    ensures At(s, i) != 110 ==> !Starts(s, i, [110, 117, 108, 108])
    ensures At(s, i) != 102 ==> !Starts(s, i, [102, 97, 108, 115, 101])
    ensures At(s, i) != 116 ==> !Starts(s, i, [116, 114, 117, 101])
  {
    if Starts(s, i, [110, 117, 108, 108]) {
      FirstByte(s, i, [110, 117, 108, 108]);
    }
    if Starts(s, i, [102, 97, 108, 115, 101]) {
      FirstByte(s, i, [102, 97, 108, 115, 101]);
    }
    if Starts(s, i, [116, 114, 117, 101]) {
      FirstByte(s, i, [116, 114, 117, 101]);
    }
  }

  lemma {:induction false} SkipTwice(s: seq<byte>, i: nat)
    requires i <= |s|
    ensures Skip(s, Skip(s, i)) == Skip(s, i)
    decreases |s| - i
  {
    if 0 < At(s, i) <= 32 {
      SkipTwice(s, i + 1);
    }
  }

  /** parse_value undoes print_value at any depth, wherever the text stands. */
  lemma {:induction false} ValueRead(t: Json, depth: nat, fmt: bool, s: seq<byte>, p: nat)
    requires WellFormed(t) && Has(s, p, PrintValue(t, depth, fmt))
    requires Ends(s, p + |PrintValue(t, depth, fmt)|)
    ensures ParseValue(s, p) == Parsed(t, p + |PrintValue(t, depth, fmt)|)
    decreases t, 0
  {
    ValueStarts(t, depth, fmt, s, p);
    NoLiteral(s, p);
    match t
    case Null =>
    case False =>
    case True =>
    case Number(n) => NumberRead(n, s, p);
    case String(text) => StringRead(text, s, p);
    case Array(items) => ArrayRead(items, depth, fmt, s, p);
    case Object(members) => ObjectRead(members, depth, fmt, s, p);
  }

  // The parser, one call at a time.

  lemma ArrayStep(s: seq<byte>, p: nat, items: seq<Json>, end: nat)
    requires p < |s| && s[p] == LBRACKET
    ensures At(s, Skip(s, p + 1)) == RBRACKET ==> ParseValue(s, p) == Parsed(Array([]), Skip(s, p + 1) + 1)
    ensures At(s, Skip(s, p + 1)) != RBRACKET && ParseItems(s, Skip(s, p + 1)) == Parsed(items, end) ==>
              ParseValue(s, p) == Parsed(Array(items), end)
  {
    hide Starts, Skip;
    NoLiteral(s, p);
  }

  lemma ObjectStep(s: seq<byte>, p: nat, members: seq<Member>, end: nat)
    requires p < |s| && s[p] == LBRACE
    ensures At(s, Skip(s, p + 1)) == RBRACE ==> ParseValue(s, p) == Parsed(Object([]), Skip(s, p + 1) + 1)
    ensures At(s, Skip(s, p + 1)) != RBRACE && ParseMembers(s, Skip(s, p + 1)) == Parsed(members, end) ==>
              ParseValue(s, p) == Parsed(Object(members), end)
  {
    hide Starts, Skip;
    NoLiteral(s, p);
  }

  lemma ItemsStep(s: seq<byte>, q: nat, item: Json, end: nat, rest: seq<Json>, e: nat)
    requires q <= |s| && end <= |s| && ParseValue(s, Skip(s, q)) == Parsed(item, end)
    ensures At(s, Skip(s, end)) == RBRACKET ==> ParseItems(s, q) == Parsed([item], Skip(s, end) + 1)
    ensures At(s, Skip(s, end)) == COMMA && ParseItems(s, Skip(s, end) + 1) == Parsed(rest, e) ==>
              ParseItems(s, q) == Parsed([item] + rest, e)
  {
    hide Skip, ParseValue;
  }

  lemma MemberStep(s: seq<byte>, q: nat, name: seq<byte>, b: nat, value: Json, end: nat)
    requires q <= |s| && b < |s| && ParseString(s, Skip(s, q)) == Parsed(name, b)
    requires Skip(s, b) == b && At(s, b) == COLON && ParseValue(s, Skip(s, b + 1)) == Parsed(value, end)
    ensures ParseMember(s, q) == Parsed(Member(name, value), end)
  {
    hide Skip, ParseValue, ParseString;
  }

  lemma MembersStep(s: seq<byte>, q: nat, m: Member, end: nat, rest: seq<Member>, e: nat)
    requires q <= |s| && end <= |s| && ParseMember(s, q) == Parsed(m, end)
    ensures At(s, Skip(s, end)) == RBRACE ==> ParseMembers(s, q) == Parsed([m], Skip(s, end) + 1)
    ensures At(s, Skip(s, end)) == COMMA && ParseMembers(s, Skip(s, end) + 1) == Parsed(rest, e) ==>
              ParseMembers(s, q) == Parsed([m] + rest, e)
  {
    hide Skip, ParseMember;
  }

  // The printer, one call at a time.

  function AfterItem(items: seq<Json>, i: nat, depth: nat, fmt: bool): seq<byte>
    requires i < |items|
  {
    if i + 1 == |items| then [RBRACKET] else Separator(fmt) + PrintItems(items, i + 1, depth, fmt)
  }

  function AfterMember(members: seq<Member>, i: nat, depth: nat, fmt: bool): seq<byte>
    requires i < |members| && depth > 0
  {
    if i + 1 == |members| then If(fmt, [LF]) + If(fmt, Tabs(depth - 1)) + [RBRACE]
    else [COMMA] + If(fmt, [LF]) + PrintMembers(members, i + 1, depth, fmt)
  }

  lemma ItemsParts(items: seq<Json>, i: nat, depth: nat, fmt: bool, s: seq<byte>, p: nat)
    requires i < |items| && Has(s, p, PrintItems(items, i, depth, fmt))
    ensures var v := PrintValue(items[i], depth, fmt);
      Has(s, p, v) && Has(s, p + |v|, AfterItem(items, i, depth, fmt)) &&
      |PrintItems(items, i, depth, fmt)| == |v| + |AfterItem(items, i, depth, fmt)|
  {
    HasParts(s, p, PrintValue(items[i], depth, fmt), AfterItem(items, i, depth, fmt));
  }

  lemma MembersParts(members: seq<Member>, i: nat, depth: nat, fmt: bool, s: seq<byte>, p: nat)
    requires i < |members| && depth > 0 && Has(s, p, PrintMembers(members, i, depth, fmt))
    ensures var name, v := PrintName(members[i].name, depth, fmt), PrintValue(members[i].value, depth, fmt);
      Has(s, p, name) && Has(s, p + |name|, v) && Has(s, p + |name| + |v|, AfterMember(members, i, depth, fmt)) &&
      |PrintMembers(members, i, depth, fmt)| == |name| + |v| + |AfterMember(members, i, depth, fmt)|
  {
    MembersIs(members, i, depth, fmt);
    hide *;
    HasThree(s, p, PrintName(members[i].name, depth, fmt), PrintValue(members[i].value, depth, fmt),
      AfterMember(members, i, depth, fmt));
  }

  lemma MembersIs(members: seq<Member>, i: nat, depth: nat, fmt: bool)
    requires i < |members| && depth > 0
    ensures PrintMembers(members, i, depth, fmt) ==
      PrintName(members[i].name, depth, fmt) + PrintValue(members[i].value, depth, fmt) +
        AfterMember(members, i, depth, fmt)
  {
    hide PrintName, PrintValue;
  }

  // What an item leaves behind it is the end of the array or a separator and the next item.
  lemma AfterItemRead(items: seq<Json>, i: nat, depth: nat, fmt: bool, s: seq<byte>, e: nat)
    requires i < |items| && Has(s, e, AfterItem(items, i, depth, fmt))
    ensures Ends(s, e) && e < |s| && Skip(s, e) == e
    ensures At(s, e) == if i + 1 == |items| then RBRACKET else COMMA
    ensures i + 1 < |items| ==>
      var p := e + |Separator(fmt)|;
      p <= |s| && Skip(s, e + 1) == Skip(s, p) && Has(s, p, PrintItems(items, i + 1, depth, fmt))
    ensures |AfterItem(items, i, depth, fmt)| ==
      if i + 1 == |items| then 1 else |Separator(fmt)| + |PrintItems(items, i + 1, depth, fmt)|
  {
    hide PrintItems;
    if i + 1 == |items| {
      assert s[e] == [RBRACKET][0];
    } else {
      var rest := PrintItems(items, i + 1, depth, fmt);
      HasParts(s, e, Separator(fmt), rest);
      HasParts(s, e, [COMMA], If(fmt, [SP]));
      assert s[e] == [COMMA][0];
      SkipIf(s, e + 1, fmt, 0, SP);
    }
  }

  lemma LastMemberRead(depth: nat, fmt: bool, s: seq<byte>, e: nat)
    requires depth > 0 && Has(s, e, If(fmt, [LF]) + If(fmt, Tabs(depth - 1)) + [RBRACE])
    ensures Ends(s, e) && e < |s| && At(s, Skip(s, e)) == RBRACE
    ensures Skip(s, e) + 1 == e + |If(fmt, [LF]) + If(fmt, Tabs(depth - 1)) + [RBRACE]|
  {
    hide Skip;
    var lf, tabs := If(fmt, [LF]), If(fmt, Tabs(depth - 1));
    HasParts(s, e, lf + tabs, [RBRACE]);
    HasParts(s, e, lf, tabs);
    assert s[e + |lf| + |tabs|] == [RBRACE][0];
    assert fmt ==> s[e] == lf[0];
    SkipIf(s, e, fmt, 0, LF);
    SkipIf(s, e + |lf|, fmt, depth - 1, LF);
    SkipHere(s, e + |lf| + |tabs|);
  }

  lemma NextMemberRead(rest: seq<byte>, fmt: bool, s: seq<byte>, e: nat)
    requires Has(s, e, [COMMA] + If(fmt, [LF]) + rest)
    ensures Ends(s, e) && e < |s| && Skip(s, e) == e && At(s, e) == COMMA
    ensures var p := e + 1 + |If(fmt, [LF])|; p <= |s| && Skip(s, e + 1) == Skip(s, p) && Has(s, p, rest)
  {
    hide Skip;
    var lf := If(fmt, [LF]);
    HasParts(s, e, [COMMA] + lf, rest);
    HasParts(s, e, [COMMA], lf);
    assert s[e] == [COMMA][0];
    SkipIf(s, e + 1, fmt, 0, LF);
    SkipHere(s, e);
  }

  lemma SkipHere(s: seq<byte>, i: nat)
    requires i < |s| && s[i] > 32
    ensures Skip(s, i) == i
  {
  }

  lemma AfterMemberRead(members: seq<Member>, i: nat, depth: nat, fmt: bool, s: seq<byte>, e: nat)
    requires i < |members| && depth > 0 && Has(s, e, AfterMember(members, i, depth, fmt))
    ensures Ends(s, e) && e < |s|
    ensures i + 1 == |members| ==>
      At(s, Skip(s, e)) == RBRACE && Skip(s, e) + 1 == e + |AfterMember(members, i, depth, fmt)|
    ensures i + 1 < |members| ==>
      var p := e + 1 + |If(fmt, [LF])|;
      Skip(s, e) == e && At(s, e) == COMMA && p <= |s| && Skip(s, e + 1) == Skip(s, p) &&
      Has(s, p, PrintMembers(members, i + 1, depth, fmt))
  {
    hide PrintMembers, Has, Skip, Ends, If, Tabs;
    if i + 1 == |members| {
      LastMemberRead(depth, fmt, s, e);
    } else {
      NextMemberRead(PrintMembers(members, i + 1, depth, fmt), fmt, s, e);
    }
  }

  lemma ArrayIs(items: seq<Json>, depth: nat, fmt: bool)
    ensures items == [] ==> PrintValue(Array(items), depth, fmt) == [LBRACKET] + [RBRACKET] + []
    ensures items != [] ==> PrintValue(Array(items), depth, fmt) == [LBRACKET] + PrintItems(items, 0, depth + 1, fmt)
  {
    hide PrintItems;
  }

  lemma {:induction false} ArrayRead(items: seq<Json>, depth: nat, fmt: bool, s: seq<byte>, p: nat)
    requires WellFormed(Array(items)) && Has(s, p, PrintValue(Array(items), depth, fmt))
    ensures ParseValue(s, p) == Parsed(Array(items), p + |PrintValue(Array(items), depth, fmt)|)
    decreases items, |items| + 1
  {
    ArrayIs(items, depth, fmt);
    hide ParseValue, ParseItems, PrintItems, Skip, WellFormed, PrintValue, Prepend, AfterItem, Has;
    if items == [] {
      HasThree(s, p, [LBRACKET], [RBRACKET], []);
      FirstByte(s, p, [LBRACKET]);
      FirstByte(s, p + 1, [RBRACKET]);
      SkipHere(s, p + 1);
      ArrayStep(s, p, [], 0);
    } else {
      var t := PrintItems(items, 0, depth + 1, fmt);
      HasParts(s, p, [LBRACKET], t);
      FirstByte(s, p, [LBRACKET]);
      ItemsParts(items, 0, depth + 1, fmt, s, p + 1);
      ValueStarts(items[0], depth + 1, fmt, s, p + 1);
      ItemsRead(items, 0, depth + 1, fmt, s, p + 1, p + 1);
      assert items[0..] == items;
      ArrayStep(s, p, items, p + 1 + |t|);
    }
  }

  lemma {:induction false} ItemsRead(items: seq<Json>, i: nat, depth: nat, fmt: bool, s: seq<byte>, q: nat, p: nat)
    requires i < |items| && WellFormed(Array(items)) && Has(s, p, PrintItems(items, i, depth, fmt))
    requires q <= |s| && p <= |s| && Skip(s, q) == Skip(s, p)
    ensures ParseItems(s, q) == Parsed(items[i..], p + |PrintItems(items, i, depth, fmt)|)
    decreases items, |items| - i
  {
    hide *;
    ItemWellFormed(items, i);
    ItemsParts(items, i, depth, fmt, s, p);
    var e := p + |PrintValue(items[i], depth, fmt)|;
    AfterItemRead(items, i, depth, fmt, s, e);
    ValueStarts(items[i], depth, fmt, s, p);
    ValueRead(items[i], depth, fmt, s, p);
    if i + 1 == |items| {
      ItemsStep(s, q, items[i], e, [], 0);
      assert items[i..] == [items[i]];
    } else {
      var p' := e + |Separator(fmt)|;
      ItemsRead(items, i + 1, depth, fmt, s, e + 1, p');
      ItemsStep(s, q, items[i], e, items[i + 1..], p' + |PrintItems(items, i + 1, depth, fmt)|);
      assert items[i..] == [items[i]] + items[i + 1..];
    }
  }

  lemma ItemWellFormed(items: seq<Json>, i: nat)
    requires i < |items| && WellFormed(Array(items))
    ensures WellFormed(items[i])
  {
  }

  lemma {:induction false} ObjectRead(members: seq<Member>, depth: nat, fmt: bool, s: seq<byte>, p: nat)
    requires WellFormed(Object(members)) && Has(s, p, PrintValue(Object(members), depth, fmt))
    ensures ParseValue(s, p) == Parsed(Object(members), p + |PrintValue(Object(members), depth, fmt)|)
    decreases members, |members| + 3
  {
    if members == [] {
      EmptyRead(depth, fmt, s, p);
    } else {
      MembersObjectRead(members, depth, fmt, s, p);
    }
    hide *;
  }

  lemma {:induction false} MembersObjectRead(members: seq<Member>, depth: nat, fmt: bool, s: seq<byte>, p: nat)
    requires members != [] && WellFormed(Object(members)) && Has(s, p, PrintValue(Object(members), depth, fmt))
    ensures ParseValue(s, p) == Parsed(Object(members), p + |PrintValue(Object(members), depth, fmt)|)
    decreases members, |members| + 2
  {
    hide *;
    var p' := p + 1 + |If(fmt, [LF])|;
    ObjectParts(members, depth, fmt, s, p);
    var end := p' + |PrintMembers(members, 0, depth + 1, fmt)|;
    MembersStart(members, 0, depth + 1, fmt, s, p');
    SkipTwice(s, p + 1);
    var j := Skip(s, p + 1);
    MembersRead(members, 0, depth + 1, fmt, s, j, p');
    Whole(members);
    NonEmptyObject(s, p, j, members, end);
  }

  lemma Whole<T>(s: seq<T>)
    ensures s[0..] == s
  {
  }

  lemma NonEmptyObject(s: seq<byte>, p: nat, j: nat, members: seq<Member>, end: nat)
    requires p < |s| && s[p] == LBRACE && j == Skip(s, p + 1) && At(s, j) == QUOTE &&
      ParseMembers(s, j) == Parsed(members, end)
    ensures ParseValue(s, p) == Parsed(Object(members), end)
  {
    hide ParseValue, ParseMembers, Skip;
    ObjectStep(s, p, members, end);
  }

  lemma ObjectIs(members: seq<Member>, depth: nat, fmt: bool)
    requires members != []
    ensures PrintValue(Object(members), depth, fmt) == [LBRACE] + If(fmt, [LF]) +
      PrintMembers(members, 0, depth + 1, fmt)
  {
    hide PrintMembers;
  }

  lemma HasThree(s: seq<byte>, p: nat, a: seq<byte>, b: seq<byte>, c: seq<byte>)
    requires Has(s, p, a + b + c)
    ensures Has(s, p, a) && Has(s, p + |a|, b) && Has(s, p + |a| + |b|, c) && p + |a| + |b| + |c| <= |s|
  {
    HasParts(s, p, a + b, c);
    HasParts(s, p, a, b);
  }

  lemma ObjectParts(members: seq<Member>, depth: nat, fmt: bool, s: seq<byte>, p: nat)
    requires members != [] && Has(s, p, PrintValue(Object(members), depth, fmt))
    ensures p < |s| && s[p] == LBRACE
    ensures var p' := p + 1 + |If(fmt, [LF])|; var t := PrintMembers(members, 0, depth + 1, fmt);
      p' <= |s| && Skip(s, p + 1) == Skip(s, p') && Has(s, p', t) &&
      p + |PrintValue(Object(members), depth, fmt)| == p' + |t|
  {
    hide PrintMembers, Skip, If, Has;
    ObjectIs(members, depth, fmt);
    hide PrintValue;
    var lf, t := If(fmt, [LF]), PrintMembers(members, 0, depth + 1, fmt);
    HasThree(s, p, [LBRACE], lf, t);
    FirstByte(s, p, [LBRACE]);
    SkipIf(s, p + 1, fmt, 0, LF);
  }

  lemma EmptyRead(depth: nat, fmt: bool, s: seq<byte>, p: nat)
    requires Has(s, p, PrintEmpty(depth, fmt))
    ensures ParseValue(s, p) == Parsed(Object([]), p + |PrintEmpty(depth, fmt)|)
  {
    hide ParseValue, Skip;
    var n := if depth > 0 then depth - 1 else 0;
    var lf, tabs := If(fmt, [LF]), If(fmt, Tabs(n));
    HasParts(s, p, [LBRACE] + lf + tabs, [RBRACE]);
    HasParts(s, p, [LBRACE] + lf, tabs);
    HasParts(s, p, [LBRACE], lf);
    assert s[p] == [LBRACE][0];
    assert s[p + 1 + |lf| + |tabs|] == [RBRACE][0];
    SkipIf(s, p + 1, fmt, 0, LF);
    SkipIf(s, p + 1 + |lf|, fmt, n, LF);
    SkipHere(s, p + 1 + |lf| + |tabs|);
    ObjectStep(s, p, [], 0);
  }

  lemma NameIs(name: seq<byte>, depth: nat, fmt: bool)
    ensures PrintName(name, depth, fmt) == If(fmt, Tabs(depth)) + PrintString(name) + [COLON] + If(fmt, [HT])
  {
  }

  lemma QuoteFirst(s: seq<byte>)
    ensures PrintString(s) != [] && PrintString(s)[0] == QUOTE
  {
  }

  /** The parts of a printed member's name. */
  lemma NameParts(name: seq<byte>, depth: nat, fmt: bool, s: seq<byte>, p: nat)
    requires Has(s, p, PrintName(name, depth, fmt))
    ensures var a := p + |If(fmt, Tabs(depth))|; var b := a + |PrintString(name)|;
      Skip(s, p) == a && Has(s, a, PrintString(name)) && a < |s| && s[a] == QUOTE && At(s, b) == COLON && b < |s| &&
      Skip(s, b) == b && Skip(s, b + 1) == Skip(s, p + |PrintName(name, depth, fmt)|)
  {
    NameIs(name, depth, fmt);
    QuoteFirst(name);
    hide Skip, PrintName, PrintString, Has, If;
    var tabs, q, ht := If(fmt, Tabs(depth)), PrintString(name), If(fmt, [HT]);
    HasParts(s, p, tabs + q + [COLON], ht);
    HasThree(s, p, tabs, q, [COLON]);
    var a := p + |tabs|;
    FirstByte(s, a, q);
    var b := a + |q|;
    FirstByte(s, b, [COLON]);
    SkipIf(s, p, fmt, depth, HT);
    SkipIf(s, b + 1, fmt, 0, HT);
    SkipHere(s, a);
    SkipHere(s, b);
  }

  lemma MembersStart(members: seq<Member>, i: nat, depth: nat, fmt: bool, s: seq<byte>, p: nat)
    requires i < |members| && depth > 0 && Has(s, p, PrintMembers(members, i, depth, fmt))
    ensures p < |s| && At(s, Skip(s, p)) == QUOTE
  {
    hide PrintMembers, Skip, PrintName, PrintValue, AfterMember;
    MembersParts(members, i, depth, fmt, s, p);
    NameParts(members[i].name, depth, fmt, s, p);
  }

  lemma {:induction false} MemberRead(m: Member, depth: nat, fmt: bool, s: seq<byte>, q: nat, p: nat)
    requires NulFree(m.name) && WellFormed(m.value) && q <= |s| && p <= |s| && Skip(s, q) == Skip(s, p)
    requires Has(s, p, PrintName(m.name, depth, fmt))
    requires var e := p + |PrintName(m.name, depth, fmt)|;
      Has(s, e, PrintValue(m.value, depth, fmt)) && Ends(s, e + |PrintValue(m.value, depth, fmt)|)
    ensures ParseMember(s, q) == Parsed(m, p + |PrintName(m.name, depth, fmt)| + |PrintValue(m.value, depth, fmt)|)
    decreases m
  {
    hide ParseMember, ParseString, PrintString, PrintName, PrintValue, ParseValue, Has, Skip, WellFormed;
    NameParts(m.name, depth, fmt, s, p);
    var a := p + |If(fmt, Tabs(depth))|;
    var b := a + |PrintString(m.name)|;
    StringRead(m.name, s, a);
    var e := p + |PrintName(m.name, depth, fmt)|;
    ValueStarts(m.value, depth, fmt, s, e);
    ValueRead(m.value, depth, fmt, s, e);
    MemberStep(s, q, m.name, b, m.value, e + |PrintValue(m.value, depth, fmt)|);
  }

  /** Where a printed member ends. */
  function MemberEnd(members: seq<Member>, i: nat, depth: nat, fmt: bool, p: nat): nat
    requires i < |members|
  {
    p + |PrintName(members[i].name, depth, fmt)| + |PrintValue(members[i].value, depth, fmt)|
  }

  lemma {:induction false} MemberAtRead(members: seq<Member>, i: nat, depth: nat, fmt: bool, s: seq<byte>, q: nat,
      p: nat)
    requires i < |members| && depth > 0 && WellFormed(Object(members)) &&
      Has(s, p, PrintMembers(members, i, depth, fmt))
    requires q <= |s| && p <= |s| && Skip(s, q) == Skip(s, p)
    ensures ParseMember(s, q) == Parsed(members[i], MemberEnd(members, i, depth, fmt, p))
    ensures Has(s, MemberEnd(members, i, depth, fmt, p), AfterMember(members, i, depth, fmt))
    ensures p + |PrintMembers(members, i, depth, fmt)| ==
      MemberEnd(members, i, depth, fmt, p) + |AfterMember(members, i, depth, fmt)|
    decreases members, 0
  {
    hide ParseMember, PrintName, PrintValue, PrintMembers, AfterMember, Skip, Has, WellFormed, NulFree;
    MemberWellFormed(members, i);
    MembersParts(members, i, depth, fmt, s, p);
    AfterMemberRead(members, i, depth, fmt, s, MemberEnd(members, i, depth, fmt, p));
    MemberRead(members[i], depth, fmt, s, q, p);
  }

  lemma {:induction false} MembersRead(members: seq<Member>, i: nat, depth: nat, fmt: bool, s: seq<byte>, q: nat,
      p: nat)
    requires i < |members| && depth > 0 && WellFormed(Object(members)) &&
      Has(s, p, PrintMembers(members, i, depth, fmt))
    requires q <= |s| && p <= |s| && Skip(s, q) == Skip(s, p)
    ensures ParseMembers(s, q) == Parsed(members[i..], p + |PrintMembers(members, i, depth, fmt)|)
    decreases members, 1 + |members| - i
  {
    hide *;
    MemberAtRead(members, i, depth, fmt, s, q, p);
    var e := MemberEnd(members, i, depth, fmt, p);
    AfterMemberRead(members, i, depth, fmt, s, e);
    if i + 1 == |members| {
      MembersStep(s, q, members[i], e, [], 0);
      assert members[i..] == [members[i]];
    } else {
      var p' := e + 1 + |If(fmt, [LF])|;
      MembersRead(members, i + 1, depth, fmt, s, e + 1, p');
      AfterMemberLength(members, i, depth, fmt);
      MembersStep(s, q, members[i], e, members[i + 1..], p' + |PrintMembers(members, i + 1, depth, fmt)|);
      assert members[i..] == [members[i]] + members[i + 1..];
    }
  }

  lemma AfterMemberLength(members: seq<Member>, i: nat, depth: nat, fmt: bool)
    requires i + 1 < |members| && depth > 0
    ensures |AfterMember(members, i, depth, fmt)| == 1 + |If(fmt, [LF])| + |PrintMembers(members, i + 1, depth, fmt)|
  {
  }

  lemma MemberWellFormed(members: seq<Member>, i: nat)
    requires i < |members| && WellFormed(Object(members))
    ensures NulFree(members[i].name) && WellFormed(members[i].value)
  {
  }

  /** cJSON_Parse on what cJSON_Print or cJSON_PrintUnformatted wrote: the same tree, and all of
      the text. */
  lemma RoundTrip(t: Json, depth: nat, fmt: bool, strict: bool)
    requires WellFormed(t)
    ensures ParseText(PrintValue(t, depth, fmt), strict) == Parsed(t, |PrintValue(t, depth, fmt)|)
  {
    var s := PrintValue(t, depth, fmt);
    ValueStarts(t, depth, fmt, s, 0);
    ValueRead(t, depth, fmt, s, 0);
  }
}
