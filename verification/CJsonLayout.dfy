/** What the printer writes between the values: separators, line breaks and tabulators. */
module CJsonLayout {
  import opened Bytes
  import opened CJson

  /** The parts with a separator between any two. */
  function Join(parts: seq<seq<byte>>, separator: seq<byte>): seq<byte> {
    if parts == [] then []
    else if |parts| == 1 then parts[0]
    else parts[0] + separator + Join(parts[1..], separator)
  }

  function Values(items: seq<Json>, depth: nat, fmt: bool): (texts: seq<seq<byte>>)
    ensures |texts| == |items|
  {
    seq(|items|, i requires 0 <= i < |items| => PrintValue(items[i], depth, fmt))
  }

  /** A member on a line of its own, behind as many tabulators as values are open around it. */
  function Line(m: Member, depth: nat): seq<byte> {
    Tabs(depth) + PrintString(m.name) + Ascii(":\t") + PrintValue(m.value, depth, true)
  }

  function Lines(members: seq<Member>, depth: nat): (texts: seq<seq<byte>>)
    ensures |texts| == |members|
  {
    seq(|members|, i requires 0 <= i < |members| => Line(members[i], depth))
  }

  function Pairs(members: seq<Member>, depth: nat): (texts: seq<seq<byte>>)
    ensures |texts| == |members|
  {
    seq(|members|, i requires 0 <= i < |members| =>
      PrintString(members[i].name) + Ascii(":") + PrintValue(members[i].value, depth, false))
  }

  lemma Marks()
    ensures Ascii(",") == [COMMA] && Ascii(", ") == [COMMA, SP] && Ascii(",\n") == [COMMA, LF]
    ensures Ascii(":") == [COLON] && Ascii(":\t") == [COLON, HT] && Ascii("{\n") == [LBRACE, LF] && Ascii("\n") == [LF]
    ensures Ascii("[") == [LBRACKET] && Ascii("]") == [RBRACKET] && Ascii("{") == [LBRACE] && Ascii("}") == [RBRACE]
  {
  }

  lemma {:induction false} ItemsJoined(items: seq<Json>, i: nat, depth: nat, fmt: bool)
    requires i < |items|
    ensures PrintItems(items, i, depth, fmt) ==
      Join(Values(items, depth, fmt)[i..], Ascii(if fmt then ", " else ",")) + [RBRACKET]
    decreases |items| - i
  {
    Marks();
    hide PrintValue, Ascii;
    var parts := Values(items, depth, fmt)[i..];
    assert parts[0] == PrintValue(items[i], depth, fmt);
    if i + 1 < |items| {
      ItemsJoined(items, i + 1, depth, fmt);
      assert parts[1..] == Values(items, depth, fmt)[i + 1..];
    }
  }

  /** An array: the values with commas between them, and a space behind each comma if formatted. */
  lemma ArrayLayout(items: seq<Json>, depth: nat, fmt: bool)
    ensures PrintValue(Array(items), depth, fmt) ==
      Ascii("[") + Join(Values(items, depth + 1, fmt), Ascii(if fmt then ", " else ",")) + Ascii("]")
  {
    Marks();
    if items != [] {
      ItemsJoined(items, 0, depth + 1, fmt);
      hide Ascii, PrintItems, Join;
      var parts := Values(items, depth + 1, fmt);
      assert parts[0..] == parts;
    }
  }

  lemma JoinNext(parts: seq<seq<byte>>, separator: seq<byte>, tail: seq<byte>)
    requires |parts| > 0
    ensures Join(parts, separator) + tail ==
      if |parts| == 1 then parts[0] + tail else parts[0] + (separator + (Join(parts[1..], separator) + tail))
  {
  }

  lemma LinesNext(members: seq<Member>, i: nat, depth: nat)
    requires i < |members| && depth > 0
    ensures PrintMembers(members, i, depth, true) ==
      if i + 1 == |members| then Line(members[i], depth) + ([LF] + Tabs(depth - 1) + [RBRACE])
      else Line(members[i], depth) + ([COMMA, LF] + PrintMembers(members, i + 1, depth, true))
  {
    LineIs(members[i], depth);
    hide PrintValue, PrintName, Line, Tabs;
    assert [COMMA] + [LF] == [COMMA, LF];
  }

  lemma {:induction false} LinesJoined(members: seq<Member>, i: nat, depth: nat)
    requires i < |members| && depth > 0
    ensures PrintMembers(members, i, depth, true) ==
      Join(Lines(members, depth)[i..], Ascii(",\n")) + ([LF] + Tabs(depth - 1) + [RBRACE])
    decreases |members| - i
  {
    hide PrintMembers, Join, Line, Tabs, Ascii;
    Marks();
    LinesNext(members, i, depth);
    var parts := Lines(members, depth)[i..];
    assert parts[0] == Line(members[i], depth);
    JoinNext(parts, [COMMA, LF], [LF] + Tabs(depth - 1) + [RBRACE]);
    if i + 1 < |members| {
      LinesJoined(members, i + 1, depth);
      assert parts[1..] == Lines(members, depth)[i + 1..];
    }
  }

  lemma LineIs(m: Member, depth: nat)
    ensures PrintName(m.name, depth, true) + PrintValue(m.value, depth, true) == Line(m, depth)
  {
    Marks();
    hide PrintValue, PrintString, Tabs, Ascii;
  }

  /** A formatted object: an opening line, a line for each member one tabulator further in, commas
      behind all of them but the last, and a closing line. */
  lemma ObjectLayout(members: seq<Member>, depth: nat)
    requires members != []
    ensures PrintValue(Object(members), depth, true) ==
      Ascii("{\n") + Join(Lines(members, depth + 1), Ascii(",\n")) + Ascii("\n") + Tabs(depth) + Ascii("}")
  {
    Marks();
    LinesJoined(members, 0, depth + 1);
    hide Ascii, PrintMembers, Join, Tabs;
    var parts := Lines(members, depth + 1);
    assert parts[0..] == parts;
    var body := Join(parts, [COMMA, LF]);
    assert [LBRACE] + [LF] == [LBRACE, LF];
    assert PrintValue(Object(members), depth, true) == [LBRACE] + [LF] + (body + ([LF] + Tabs(depth) + [RBRACE]));
  }

  lemma {:induction false} PairsJoined(members: seq<Member>, i: nat, depth: nat)
    requires i < |members| && depth > 0
    ensures PrintMembers(members, i, depth, false) == Join(Pairs(members, depth)[i..], Ascii(",")) + [RBRACE]
    decreases |members| - i
  {
    PairIs(members[i], depth);
    Marks();
    hide PrintValue, PrintName, PrintString, Ascii;
    var parts := Pairs(members, depth)[i..];
    if i + 1 < |members| {
      PairsJoined(members, i + 1, depth);
      assert parts[1..] == Pairs(members, depth)[i + 1..];
    }
  }

  lemma PairIs(m: Member, depth: nat)
    ensures PrintName(m.name, depth, false) + PrintValue(m.value, depth, false) ==
      PrintString(m.name) + Ascii(":") + PrintValue(m.value, depth, false)
  {
    Marks();
    hide PrintValue, PrintString, Ascii;
  }

  /** An unformatted object: the members with commas between them and nothing else. */
  lemma PlainObjectLayout(members: seq<Member>, depth: nat)
    ensures PrintValue(Object(members), depth, false) ==
      Ascii("{") + Join(Pairs(members, depth + 1), Ascii(",")) + Ascii("}")
  {
    Marks();
    if members != [] {
      PairsJoined(members, 0, depth + 1);
      hide Ascii, PrintMembers, Join;
      var parts := Pairs(members, depth + 1);
      assert parts[0..] == parts;
    }
  }

  /** A formatted object without members: its closing line has a tabulator less than there are values
      open around it. */
  lemma EmptyLayout(depth: nat)
    ensures PrintValue(Object([]), depth, true) ==
      Ascii("{\n") + Tabs(if depth > 0 then depth - 1 else 0) + Ascii("}")
  {
    Marks();
    hide Ascii, Tabs;
    assert [LBRACE] + [LF] == [LBRACE, LF];
  }
}
