/** Where the error pointer stands: at the place where the first thing is missing that the text of a
    value should go on with. */
module CJsonErrors {
  import opened Bytes
  import opened CJson
  import opened CJsonRoundTrip
  import opened CJsonSpelling
  import opened CJsonTexts

  /** How the text of a value breaks off: what stands before the break is complete, the elements of
      an array or an object before it with their commas. Numbers are the widths of white space. */
  datatype Break =
    | NoValue
    | InItem(items: seq<Slot>, before: nat, inner: Break)
    | NoItemEnd(items: seq<Slot>, last: Slot)
    | NoName(members: seq<Entry>, before: nat)
    | NoColon(members: seq<Entry>, before: nat, name: seq<Spelling>, behind: nat)
    | InMember(members: seq<Entry>, before: nat, name: seq<Spelling>, behind: nat, ahead: nat, inner: Break)
    | NoMemberEnd(members: seq<Entry>, final: Entry)

  /** No value starts with the bytes at i. */
  predicate Valueless(s: seq<byte>, i: nat) {
    i <= |s| && !Has(s, i, Ascii("null")) && !Has(s, i, Ascii("false")) && !Has(s, i, Ascii("true")) &&
    var c := At(s, i);
    c != QUOTE && c != MINUS && !IsDigit(c) && c != LBRACKET && c != LBRACE
  }

  /** Items from k on, each with a comma behind it. */
  predicate ItemsBefore(s: seq<byte>, i: nat, items: seq<Slot>, k: nat)
    requires k <= |items|
    decreases |items| - k
  {
    k == |items| ||
    (SlotWritten(s, i, items[k]) && At(s, SlotEnd(i, items[k])) == COMMA &&
     ItemsBefore(s, SlotEnd(i, items[k]) + 1, items, k + 1))
  }

  function BehindItems(i: nat, items: seq<Slot>, k: nat): nat
    requires k <= |items|
    decreases |items| - k
  {
    if k == |items| then i else BehindItems(SlotEnd(i, items[k]) + 1, items, k + 1)
  }

  /** Members from k on, each with a comma behind it. */
  predicate MembersBefore(s: seq<byte>, i: nat, members: seq<Entry>, k: nat)
    requires k <= |members|
    decreases |members| - k
  {
    k == |members| ||
    (EntryWritten(s, i, members[k]) && At(s, EntryEnd(i, members[k])) == COMMA &&
     MembersBefore(s, EntryEnd(i, members[k]) + 1, members, k + 1))
  }

  function BehindMembers(i: nat, members: seq<Entry>, k: nat): nat
    requires k <= |members|
    decreases |members| - k
  {
    if k == |members| then i else BehindMembers(EntryEnd(i, members[k]) + 1, members, k + 1)
  }

  /** White space up to a byte that is none. */
  predicate Gap(s: seq<byte>, i: nat, n: nat) {
    Blank(s, i, n) && (At(s, i + n) > 32 || At(s, i + n) == 0)
  }

  /** Where the text that starts at i breaks off. */
  function Place(i: nat, x: Break): nat
    decreases x
  {
    match x
    case NoValue => i
    case InItem(items, before, inner) => Place(BehindItems(i + 1, items, 0) + before, inner)
    case NoItemEnd(items, last) => SlotEnd(BehindItems(i + 1, items, 0), last)
    case NoName(members, before) => BehindMembers(i + 1, members, 0) + before
    case NoColon(members, before, name, behind) =>
      QuotedEnd(BehindMembers(i + 1, members, 0) + before, name) + behind
    case InMember(members, before, name, behind, ahead, inner) =>
      Place(QuotedEnd(BehindMembers(i + 1, members, 0) + before, name) + behind + 1 + ahead, inner)
    case NoMemberEnd(members, last) => EntryEnd(BehindMembers(i + 1, members, 0), last)
  }

  /** The text at i breaks off in this way. */
  predicate Breaks(s: seq<byte>, i: nat, x: Break)
    decreases x
  {
    match x
    case NoValue => Valueless(s, i)
    case InItem(items, before, inner) =>
      At(s, i) == LBRACKET && ItemsBefore(s, i + 1, items, 0) &&
      var e := BehindItems(i + 1, items, 0);
      Gap(s, e, before) && Breaks(s, e + before, inner) && (items == [] ==> At(s, e + before) != RBRACKET)
    case NoItemEnd(items, last) =>
      At(s, i) == LBRACKET && ItemsBefore(s, i + 1, items, 0) &&
      var e := BehindItems(i + 1, items, 0);
      SlotWritten(s, e, last) && Unended(s, TextEnd(e + last.before, last.text), last.after) &&
      At(s, SlotEnd(e, last)) != RBRACKET
    case NoName(members, before) =>
      At(s, i) == LBRACE && MembersBefore(s, i + 1, members, 0) &&
      var e := BehindMembers(i + 1, members, 0);
      Gap(s, e, before) && At(s, e + before) != QUOTE && (members == [] ==> At(s, e + before) != RBRACE)
    case NoColon(members, before, name, behind) =>
      At(s, i) == LBRACE && MembersBefore(s, i + 1, members, 0) &&
      var e := BehindMembers(i + 1, members, 0);
      Blank(s, e, before) && QuotedAt(s, e + before, name) &&
      var c := QuotedEnd(e + before, name);
      Gap(s, c, behind) && At(s, c + behind) != COLON
    case InMember(members, before, name, behind, ahead, inner) =>
      At(s, i) == LBRACE && MembersBefore(s, i + 1, members, 0) &&
      var e := BehindMembers(i + 1, members, 0);
      Blank(s, e, before) && QuotedAt(s, e + before, name) &&
      var c := QuotedEnd(e + before, name);
      Blank(s, c, behind) && At(s, c + behind) == COLON &&
      Gap(s, c + behind + 1, ahead) && Breaks(s, c + behind + 1 + ahead, inner)
    case NoMemberEnd(members, last) =>
      At(s, i) == LBRACE && MembersBefore(s, i + 1, members, 0) &&
      var e := BehindMembers(i + 1, members, 0);
      EntryWritten(s, e, last) && Unended(s, TextEnd(ValueStart(e, last), last.text), last.after) &&
      At(s, EntryEnd(e, last)) != RBRACE
  }

  /** Behind the white space at e stands no comma, and nothing that goes on with a number. */
  predicate Unended(s: seq<byte>, e: nat, n: nat) {
    Gap(s, e, n) && At(s, e + n) != COMMA && Ends(s, e)
  }

  // ---------- elements before the break ----------

  lemma SameItems(s: seq<byte>, q: nat, i: nat)
    requires q <= |s| && i <= |s| && Skip(s, q) == Skip(s, i)
    ensures ParseItems(s, q) == ParseItems(s, i)
  {
    hide ParseValue, Skip;
  }

  lemma SameMembers(s: seq<byte>, q: nat, i: nat)
    requires q <= |s| && i <= |s| && Skip(s, q) == Skip(s, i)
    ensures ParseMembers(s, q) == ParseMembers(s, i)
  {
    hide ParseString, ParseValue, Skip;
    assert ParseMember(s, q) == ParseMember(s, i);
    hide ParseMember;
  }

  lemma {:induction false} ItemsGone(s: seq<byte>, q: nat, i: nat, items: seq<Slot>, k: nat, at: nat)
    requires k <= |items| && ItemsBefore(s, i, items, k) && q <= |s| && i <= |s| && Skip(s, q) == Skip(s, i)
    requires var e := BehindItems(i, items, k); e <= |s| ==> ParseItems(s, e) == Failed(at)
    ensures BehindItems(i, items, k) <= |s| && ParseItems(s, q) == Failed(at)
    decreases |items| - k
  {
    hide ParseValue, ParseItems, SlotWritten, Skip, Tree, TextEnd, SlotEnd;
    if k < |items| {
      var b, e := TextEnd(i + items[k].before, items[k].text), SlotEnd(i, items[k]);
      SlotRead(s, i, items[k], COMMA);
      ItemsGone(s, e + 1, e + 1, items, k + 1, at);
      ItemPassed(s, q, Tree(items[k].text), b, at);
    } else {
      SameItems(s, q, i);
    }
  }

  lemma ItemPassed(s: seq<byte>, q: nat, item: Json, b: nat, at: nat)
    requires q <= |s| && b <= |s| && ParseValue(s, Skip(s, q)) == Parsed(item, b)
    requires At(s, Skip(s, b)) == COMMA && ParseItems(s, Skip(s, b) + 1) == Failed(at)
    ensures ParseItems(s, q) == Failed(at)
  {
    hide ParseValue, Skip;
  }

  lemma {:induction false} MembersGone(s: seq<byte>, q: nat, i: nat, members: seq<Entry>, k: nat, at: nat)
    requires k <= |members| && MembersBefore(s, i, members, k) && q <= |s| && i <= |s| && Skip(s, q) == Skip(s, i)
    requires var e := BehindMembers(i, members, k); e <= |s| ==> ParseMembers(s, e) == Failed(at)
    ensures BehindMembers(i, members, k) <= |s| && ParseMembers(s, q) == Failed(at)
    decreases |members| - k
  {
    hide ParseMember, ParseMembers, EntryWritten, Skip, Tree, MeaningFrom, TextEnd, ValueStart, EntryEnd;
    if k < |members| {
      var entry, e := members[k], EntryEnd(i, members[k]);
      EntryRead(s, q, i, entry, COMMA);
      MembersGone(s, e + 1, e + 1, members, k + 1, at);
      var m := Member(MeaningFrom(entry.name, 0), Tree(entry.text));
      MemberPassed(s, q, m, TextEnd(ValueStart(i, entry), entry.text), at);
    } else {
      SameMembers(s, q, i);
    }
  }

  lemma MemberPassed(s: seq<byte>, q: nat, m: Member, b: nat, at: nat)
    requires q <= |s| && b <= |s| && ParseMember(s, q) == Parsed(m, b)
    requires At(s, Skip(s, b)) == COMMA && ParseMembers(s, Skip(s, b) + 1) == Failed(at)
    ensures ParseMembers(s, q) == Failed(at)
  {
    hide ParseMember, Skip;
  }

  // ---------- the break ----------

  lemma ArrayStepFails(s: seq<byte>, i: nat, at: nat)
    requires i < |s| && s[i] == LBRACKET && At(s, Skip(s, i + 1)) != RBRACKET
    requires ParseItems(s, Skip(s, i + 1)) == Failed(at)
    ensures ParseValue(s, i) == Failed(at)
  {
    hide Starts, Skip, ParseItems;
    NoLiteral(s, i);
  }

  lemma ObjectStepFails(s: seq<byte>, i: nat, at: nat)
    requires i < |s| && s[i] == LBRACE && At(s, Skip(s, i + 1)) != RBRACE
    requires ParseMembers(s, Skip(s, i + 1)) == Failed(at)
    ensures ParseValue(s, i) == Failed(at)
  {
    hide Starts, Skip, ParseMembers;
    NoLiteral(s, i);
  }

  /** An array whose items fail, and which is not empty. */
  lemma ArrayFails(s: seq<byte>, i: nat, items: seq<Slot>, at: nat)
    requires At(s, i) == LBRACKET && ItemsBefore(s, i + 1, items, 0)
    requires var e := BehindItems(i + 1, items, 0);
      e <= |s| ==> ParseItems(s, e) == Failed(at) && (items == [] ==> At(s, Skip(s, e)) != RBRACKET)
    ensures ParseValue(s, i) == Failed(at)
  {
    hide ParseValue, ParseItems, Skip, ItemsBefore;
    assert items == [] ==> BehindItems(i + 1, items, 0) == i + 1;
    hide BehindItems;
    SkipTwice(s, i + 1);
    ItemsGone(s, Skip(s, i + 1), i + 1, items, 0, at);
    if items != [] {
      FirstItem(s, i + 1, items);
    }
    ArrayStepFails(s, i, at);
  }

  lemma FirstItem(s: seq<byte>, i: nat, items: seq<Slot>)
    requires items != [] && ItemsBefore(s, i, items, 0)
    ensures i <= |s| && At(s, Skip(s, i)) != RBRACKET
  {
    hide Written, Skip, Blank;
    TextStarts(s, i + items[0].before, items[0].text);
    SkipTo(s, i, items[0].before);
  }

  lemma ObjectFails(s: seq<byte>, i: nat, members: seq<Entry>, at: nat)
    requires At(s, i) == LBRACE && MembersBefore(s, i + 1, members, 0)
    requires var e := BehindMembers(i + 1, members, 0);
      e <= |s| ==> ParseMembers(s, e) == Failed(at) && (members == [] ==> At(s, Skip(s, e)) != RBRACE)
    ensures ParseValue(s, i) == Failed(at)
  {
    hide ParseValue, ParseMembers, Skip, MembersBefore;
    assert members == [] ==> BehindMembers(i + 1, members, 0) == i + 1;
    hide BehindMembers;
    SkipTwice(s, i + 1);
    MembersGone(s, Skip(s, i + 1), i + 1, members, 0, at);
    if members != [] {
      FirstMember(s, i + 1, members);
    }
    ObjectStepFails(s, i, at);
  }

  lemma FirstMember(s: seq<byte>, i: nat, members: seq<Entry>)
    requires members != [] && MembersBefore(s, i, members, 0)
    ensures i <= |s| && At(s, Skip(s, i)) != RBRACE
  {
    hide Written, Skip, Blank, SpelledFrom;
    SkipTo(s, i, members[0].before);
  }

  lemma GapSkipped(s: seq<byte>, e: nat, n: nat)
    requires Gap(s, e, n)
    ensures e + n <= |s| && Skip(s, e) == e + n
  {
    hide Skip;
    SkipTo(s, e, n);
  }

  /** The last item is complete, and what follows it neither goes on nor ends the array. */
  lemma LastItem(s: seq<byte>, e: nat, last: Slot)
    requires e <= |s| && SlotWritten(s, e, last) && Unended(s, TextEnd(e + last.before, last.text), last.after)
    requires At(s, SlotEnd(e, last)) != RBRACKET
    ensures ParseItems(s, e) == Failed(SlotEnd(e, last)) && At(s, Skip(s, e)) != RBRACKET
  {
    hide ParseValue, Written, Skip, TextEnd, Tree;
    var i, b := e + last.before, TextEnd(e + last.before, last.text);
    TextStarts(s, i, last.text);
    SkipTo(s, e, last.before);
    SkipTo(s, b, last.after);
    TextRead(s, i, last.text);
  }

  lemma LastMember(s: seq<byte>, e: nat, last: Entry)
    requires e <= |s| && EntryWritten(s, e, last) && Unended(s, TextEnd(ValueStart(e, last), last.text), last.after)
    requires At(s, EntryEnd(e, last)) != RBRACE
    ensures ParseMembers(s, e) == Failed(EntryEnd(e, last)) && At(s, Skip(s, e)) != RBRACE
  {
    hide ParseMember, ParseMembers, Skip, TextEnd, ValueStart, Tree, MeaningFrom, Gap;
    var b := TextEnd(ValueStart(e, last), last.text);
    NameFirst(s, e, last);
    hide EntryWritten, Ends;
    GapSkipped(s, b, last.after);
    EntryAlone(s, e, e, last);
    LastMemberFails(s, e, Member(MeaningFrom(last.name, 0), Tree(last.text)), b);
  }

  lemma NameFirst(s: seq<byte>, e: nat, entry: Entry)
    requires EntryWritten(s, e, entry)
    ensures e <= |s| && At(s, Skip(s, e)) == QUOTE
  {
    hide Written, Skip, SpelledFrom, Blank;
    SkipTo(s, e, entry.before);
  }

  lemma LastMemberFails(s: seq<byte>, q: nat, m: Member, b: nat)
    requires q <= |s| && b <= |s| && ParseMember(s, q) == Parsed(m, b)
    requires At(s, Skip(s, b)) != COMMA && At(s, Skip(s, b)) != RBRACE
    ensures ParseMembers(s, q) == Failed(Skip(s, b))
  {
    hide ParseMember, Skip;
  }

  /** A member that breaks off. */
  lemma MemberFails(s: seq<byte>, q: nat, at: nat)
    requires q <= |s| && ParseMember(s, q) == Failed(at)
    ensures ParseMembers(s, q) == Failed(at)
  {
    hide ParseMember;
  }

  lemma NoNameFails(s: seq<byte>, e: nat, before: nat)
    requires Gap(s, e, before) && At(s, e + before) != QUOTE
    ensures ParseMembers(s, e) == Failed(e + before) && Skip(s, e) == e + before
  {
    hide Skip;
    SkipTo(s, e, before);
    MemberFails(s, e, e + before);
  }

  lemma NoColonFails(s: seq<byte>, e: nat, before: nat, name: seq<Spelling>, behind: nat)
    requires Blank(s, e, before) && QuotedAt(s, e + before, name)
    requires var c := QuotedEnd(e + before, name); Gap(s, c, behind) && At(s, c + behind) != COLON
    ensures ParseMembers(s, e) == Failed(QuotedEnd(e + before, name) + behind)
    ensures At(s, Skip(s, e)) == QUOTE
  {
    hide Skip, ParseString, MeaningFrom, SpelledFrom, QuotedEnd;
    QuotedRead(s, e + before, name);
    SkipTo(s, e, before);
    SkipTo(s, QuotedEnd(e + before, name), behind);
    MemberFails(s, e, QuotedEnd(e + before, name) + behind);
  }

  lemma InMemberFails(s: seq<byte>, e: nat, before: nat, name: seq<Spelling>, behind: nat, ahead: nat, at: nat)
    requires Blank(s, e, before) && QuotedAt(s, e + before, name)
    requires var c := QuotedEnd(e + before, name);
      && Blank(s, c, behind) && At(s, c + behind) == COLON && Gap(s, c + behind + 1, ahead)
      && ParseValue(s, c + behind + 1 + ahead) == Failed(at)
    ensures ParseMembers(s, e) == Failed(at) && At(s, Skip(s, e)) == QUOTE
  {
    hide Skip, ParseString, ParseValue, MeaningFrom, SpelledFrom, QuotedEnd;
    var c := QuotedEnd(e + before, name);
    QuotedRead(s, e + before, name);
    SkipTo(s, e, before);
    SkipTo(s, c, behind);
    SkipTo(s, c + behind + 1, ahead);
    MemberFails(s, e, at);
  }

  lemma NoValueFails(s: seq<byte>, i: nat)
    requires Valueless(s, i)
    ensures ParseValue(s, i) == Failed(i)
  {
    Literals();
    hide Ascii, ParseNumber, ParseString, ParseItems, ParseMembers;
  }

  lemma InItemFails(s: seq<byte>, e: nat, before: nat, at: nat)
    requires Gap(s, e, before) && ParseValue(s, e + before) == Failed(at)
    ensures ParseItems(s, e) == Failed(at)
  {
    hide ParseValue, Skip, Gap;
    GapSkipped(s, e, before);
  }

  /** A text that breaks off fails there. */
  lemma {:induction false} BreakFound(s: seq<byte>, i: nat, x: Break)
    requires Breaks(s, i, x)
    ensures i <= |s| && ParseValue(s, i) == Failed(Place(i, x))
    decreases x
  {
    hide ParseValue, ParseItems, ParseMembers, ItemsBefore, MembersBefore, BehindItems, BehindMembers, Skip,
      SlotWritten, EntryWritten, Unended, Gap, Blank, QuotedAt, QuotedEnd, SlotEnd, EntryEnd, TextEnd, ValueStart,
      Valueless, Ends;
    match x
    case NoValue =>
      ValuelessInside(s, i);
      NoValueFails(s, i);
    case InItem(items, before, inner) =>
      var e := BehindItems(i + 1, items, 0);
      BreakFound(s, e + before, inner);
      GapSkipped(s, e, before);
      InItemFails(s, e, before, Place(e + before, inner));
      ArrayFails(s, i, items, Place(e + before, inner));
    case NoItemEnd(items, last) =>
      var e := BehindItems(i + 1, items, 0);
      SlotInside(s, e, last);
      LastItem(s, e, last);
      ArrayFails(s, i, items, SlotEnd(e, last));
    case NoName(members, before) =>
      var e := BehindMembers(i + 1, members, 0);
      NoNameFails(s, e, before);
      ObjectFails(s, i, members, e + before);
    case NoColon(members, before, name, behind) =>
      var e := BehindMembers(i + 1, members, 0);
      NoColonFails(s, e, before, name, behind);
      ObjectFails(s, i, members, QuotedEnd(e + before, name) + behind);
    case InMember(members, before, name, behind, ahead, inner) =>
      var e := BehindMembers(i + 1, members, 0);
      var v := QuotedEnd(e + before, name) + behind + 1 + ahead;
      BreakFound(s, v, inner);
      InMemberFails(s, e, before, name, behind, ahead, Place(v, inner));
      ObjectFails(s, i, members, Place(v, inner));
    case NoMemberEnd(members, final) =>
      var e := BehindMembers(i + 1, members, 0);
      EntryInside(s, e, final);
      LastMember(s, e, final);
      ObjectFails(s, i, members, EntryEnd(e, final));
  }

  lemma ValuelessInside(s: seq<byte>, i: nat)
    requires Valueless(s, i)
    ensures i <= |s|
  {
  }

  lemma SlotInside(s: seq<byte>, e: nat, slot: Slot)
    requires SlotWritten(s, e, slot)
    ensures e <= |s|
  {
  }

  lemma EntryInside(s: seq<byte>, e: nat, entry: Entry)
    requires EntryWritten(s, e, entry)
    ensures e <= |s|
  {
  }

  /** cJSON_ParseWithOpts on a text that breaks off: the error pointer stands where it does. */
  lemma TextBroken(s: seq<byte>, before: nat, x: Break, strict: bool)
    requires Gap(s, 0, before) && Breaks(s, before, x)
    ensures ParseText(s, strict) == Failed(Place(before, x))
  {
    hide ParseValue, Skip;
    SkipTo(s, 0, before);
    BreakFound(s, before, x);
  }

  /** If the whole text is to be used, it stands at the first byte behind the value that is no white
      space. */
  lemma SurplusFound(s: seq<byte>, before: nat, x: Text, after: nat)
    requires Blank(s, 0, before) && Written(s, before, x) && Ends(s, TextEnd(before, x))
    requires var e := TextEnd(before, x); Gap(s, e, after) && At(s, e + after) != 0
    ensures ParseText(s, true) == Failed(TextEnd(before, x) + after)
    ensures ParseText(s, false) == Parsed(Tree(x), TextEnd(before, x))
  {
    hide ParseValue, Written, Tree, TextEnd, Skip;
    TextStarts(s, before, x);
    SkipTo(s, 0, before);
    TextRead(s, before, x);
    SkipTo(s, TextEnd(before, x), after);
  }
}
