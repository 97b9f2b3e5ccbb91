/** The texts of a tree: every way to write it, with white space wherever it may stand and strings
    in any spelling, and the tree that is read from each of them. */
module CJsonTexts {
  import opened Bytes
  import opened CJson
  import opened CJsonRoundTrip
  import opened CJsonSpelling

  /** How a value is written: a text of section 2 of RFC 8259 whose numbers are integers. Numbers
      in it are the widths of white space. */
  datatype Text =
    | NullText
    | FalseText
    | TrueText
    | NumberText(minus: bool, n: nat)
    | StringText(spellings: seq<Spelling>)
    | ArrayText(inside: nat, items: seq<Slot>)      // inside: between the brackets of an empty array
    | ObjectText(inside: nat, members: seq<Entry>)

  datatype Slot = Slot(before: nat, text: Text, after: nat)

  datatype Entry = Entry(before: nat, name: seq<Spelling>, behind: nat, ahead: nat, text: Text, after: nat)

  function Signed(minus: bool, n: int): int {
    (if minus then -1 else 1) * n
  }

  /** The tree that is written. */
  function Tree(x: Text): Json
    decreases x, 0
  {
    match x
    case NullText => Null
    case FalseText => False
    case TrueText => True
    case NumberText(minus, n) => Number(Signed(minus, n))
    case StringText(sps) => String(MeaningFrom(sps, 0))
    case ArrayText(_, items) => Array(Items(items, 0))
    case ObjectText(_, members) => Object(Members(members, 0))
  }

  function Items(items: seq<Slot>, k: nat): seq<Json>
    requires k <= |items|
    decreases items, |items| - k
  {
    if k == |items| then [] else [SlotTree(items[k])] + Items(items, k + 1)
  }

  function SlotTree(slot: Slot): Json
    decreases slot
  {
    Tree(slot.text)
  }

  function Members(members: seq<Entry>, k: nat): seq<Member>
    requires k <= |members|
    decreases members, |members| - k
  {
    if k == |members| then []
    else [Member(MeaningFrom(members[k].name, 0), Tree(members[k].text))] + Members(members, k + 1)
  }

  // ---------- where the parts stand ----------

  /** n bytes that count as white space. */
  predicate Blank(s: seq<byte>, i: nat, n: nat) {
    i + n <= |s| && forall k :: i <= k < i + n ==> 0 < s[k] <= 32
  }

  /** A quoted string stands at i. */
  predicate QuotedAt(s: seq<byte>, i: nat, sps: seq<Spelling>) {
    At(s, i) == QUOTE && SpelledFrom(s, i + 1, sps, 0) && At(s, SpelledEnd(i + 1, sps, 0)) == QUOTE
  }

  function QuotedEnd(i: nat, sps: seq<Spelling>): nat {
    SpelledEnd(i + 1, sps, 0) + 1
  }

  function TextEnd(i: nat, x: Text): nat
    decreases x, 0
  {
    match x
    case NullText => i + 4
    case FalseText => i + 5
    case TrueText => i + 4
    case NumberText(minus, n) => (if minus then i + 1 else i) + |DecimalText(n)|
    case StringText(sps) => QuotedEnd(i, sps)
    case ArrayText(inside, items) => if items == [] then i + 1 + inside + 1 else ItemsEnd(i + 1, items, 0)
    case ObjectText(inside, members) => if members == [] then i + 1 + inside + 1 else MembersEnd(i + 1, members, 0)
  }

  function SlotEnd(i: nat, slot: Slot): nat
    decreases slot
  {
    TextEnd(i + slot.before, slot.text) + slot.after
  }

  function ItemsEnd(i: nat, items: seq<Slot>, k: nat): nat
    requires k < |items|
    decreases items, |items| - k
  {
    var e := SlotEnd(i, items[k]) + 1;
    if k + 1 == |items| then e else ItemsEnd(e, items, k + 1)
  }

  function NameEnd(i: nat, entry: Entry): nat {
    QuotedEnd(i + entry.before, entry.name)
  }

  function ValueStart(i: nat, entry: Entry): nat {
    NameEnd(i, entry) + entry.behind + 1 + entry.ahead
  }

  function EntryEnd(i: nat, entry: Entry): nat
    decreases entry
  {
    TextEnd(ValueStart(i, entry), entry.text) + entry.after
  }

  function MembersEnd(i: nat, members: seq<Entry>, k: nat): nat
    requires k < |members|
    decreases members, |members| - k
  {
    var e := EntryEnd(i, members[k]) + 1;
    if k + 1 == |members| then e else MembersEnd(e, members, k + 1)
  }

  /** The text stands at i. */
  predicate Written(s: seq<byte>, i: nat, x: Text)
    decreases x, 0
  {
    match x
    case NullText => Has(s, i, Ascii("null"))
    case FalseText => Has(s, i, Ascii("false"))
    case TrueText => Has(s, i, Ascii("true"))
    case NumberText(minus, n) =>
      INT_MIN <= Signed(minus, n) <= INT_MAX &&
      (minus ==> At(s, i) == MINUS) && Has(s, if minus then i + 1 else i, DecimalText(n))
    case StringText(sps) => QuotedAt(s, i, sps)
    case ArrayText(inside, items) =>
      At(s, i) == LBRACKET &&
      if items == [] then Blank(s, i + 1, inside) && At(s, i + 1 + inside) == RBRACKET
      else ItemsWritten(s, i + 1, items, 0)
    case ObjectText(inside, members) =>
      At(s, i) == LBRACE &&
      if members == [] then Blank(s, i + 1, inside) && At(s, i + 1 + inside) == RBRACE
      else MembersWritten(s, i + 1, members, 0)
  }

  /** An item between white space. */
  predicate SlotWritten(s: seq<byte>, i: nat, slot: Slot)
    decreases slot
  {
    Blank(s, i, slot.before) && Written(s, i + slot.before, slot.text) &&
    Blank(s, TextEnd(i + slot.before, slot.text), slot.after)
  }

  /** The items from k on with commas between them, and the closing bracket. */
  predicate ItemsWritten(s: seq<byte>, i: nat, items: seq<Slot>, k: nat)
    requires k < |items|
    decreases items, |items| - k
  {
    var e := SlotEnd(i, items[k]);
    SlotWritten(s, i, items[k]) &&
    if k + 1 == |items| then At(s, e) == RBRACKET else At(s, e) == COMMA && ItemsWritten(s, e + 1, items, k + 1)
  }

  /** A name, a colon and a value between white space. */
  predicate EntryWritten(s: seq<byte>, i: nat, entry: Entry)
    decreases entry
  {
    var e := NameEnd(i, entry);
    Blank(s, i, entry.before) && QuotedAt(s, i + entry.before, entry.name) &&
    Blank(s, e, entry.behind) && At(s, e + entry.behind) == COLON && Blank(s, e + entry.behind + 1, entry.ahead) &&
    Written(s, ValueStart(i, entry), entry.text) &&
    Blank(s, TextEnd(ValueStart(i, entry), entry.text), entry.after)
  }

  /** The members from k on with commas between them, and the closing brace. */
  predicate MembersWritten(s: seq<byte>, i: nat, members: seq<Entry>, k: nat)
    requires k < |members|
    decreases members, |members| - k
  {
    var e := EntryEnd(i, members[k]);
    EntryWritten(s, i, members[k]) &&
    if k + 1 == |members| then At(s, e) == RBRACE else At(s, e) == COMMA && MembersWritten(s, e + 1, members, k + 1)
  }

  // ---------- white space, strings and numbers ----------

  lemma {:induction false} SkipBlank(s: seq<byte>, i: nat, n: nat)
    requires Blank(s, i, n)
    ensures Skip(s, i) == Skip(s, i + n)
    decreases n
  {
    if n > 0 {
      SkipBlank(s, i + 1, n - 1);
    }
  }

  /** White space is skipped up to a byte that is none. */
  lemma SkipTo(s: seq<byte>, i: nat, n: nat)
    requires Blank(s, i, n) && (At(s, i + n) > 32 || At(s, i + n) == 0)
    ensures Skip(s, i) == i + n
  {
    SkipBlank(s, i, n);
  }

  lemma QuotedRead(s: seq<byte>, i: nat, sps: seq<Spelling>)
    requires QuotedAt(s, i, sps)
    ensures i < |s| && ParseString(s, i) == Parsed(MeaningFrom(sps, 0), QuotedEnd(i, sps)) && QuotedEnd(i, sps) <= |s|
  {
    hide ParseString, SpelledFrom, MeaningFrom;
    LiteralRead(s, i, sps);
  }

  lemma NumberTextRead(s: seq<byte>, i: nat, minus: bool, n: nat)
    requires Written(s, i, NumberText(minus, n)) && Ends(s, TextEnd(i, NumberText(minus, n)))
    ensures i < |s| && (s[i] == MINUS || IsDigit(s[i]))
    ensures ParseNumber(s, i) == Parsed(Number(Signed(minus, n)), TextEnd(i, NumberText(minus, n)))
  {
    hide Decimal, DigitsEnd, DecimalText, Ascii, ParseNumber, AfterDigits, AfterZero, NoInteger, Has, Ends;
    var j := if minus then i + 1 else i;
    DigitsRead(s, j, n);
    NumberStep(s, i, j, AfterZero(s, j), j + |DecimalText(n)|);
  }

  /** parse_number, with the places where its loops stop. */
  lemma NumberStep(s: seq<byte>, i: nat, j: nat, k: nat, e: nat)
    requires i <= j <= |s| && AfterSign(s, i) == j && AfterZero(s, j) == k && k <= |s| && AfterDigits(s, k) == e
    requires e <= |s| && !NoInteger(s, e) && INT_MIN <= Signed(i < j, Decimal(s, k, e)) <= INT_MAX
    requires Decimal(s, k, e) >= 0
    ensures ParseNumber(s, i) == Parsed(Number(Signed(i < j, Decimal(s, k, e))), e)
  {
    hide Decimal, AfterDigits, AfterZero, AfterSign, NoInteger;
  }

  lemma DigitsRead(s: seq<byte>, j: nat, n: nat)
    requires Has(s, j, DecimalText(n)) && Ends(s, j + |DecimalText(n)|)
    ensures var e := j + |DecimalText(n)|; j < |s| && IsDigit(s[j]) && e <= |s|
    ensures var k, e := AfterZero(s, j), j + |DecimalText(n)|;
      AfterDigits(s, k) == e && !NoInteger(s, e) && Decimal(s, k, e) == n
  {
    var e := j + |DecimalText(n)|;
    DecimalRead(n, s, j);
    if n > 0 {
      DigitsEndIs(s, j, e);
      assert AfterZero(s, j) == j && AfterDigits(s, j) == e;
    } else {
      assert AfterZero(s, j) == e && AfterDigits(s, e) == e;
    }
  }

  lemma Literals()
    ensures Ascii("null") == [110, 117, 108, 108] && Ascii("true") == [116, 114, 117, 101]
    ensures Ascii("false") == [102, 97, 108, 115, 101]
  {
  }

  /** A text starts with a byte that is no white space and closes nothing. */
  lemma TextStarts(s: seq<byte>, i: nat, x: Text)
    requires Written(s, i, x)
    ensures i < |s| && s[i] > 32 && s[i] != RBRACKET && s[i] != RBRACE
  {
    hide SpelledFrom, MembersWritten, ItemsWritten, Blank;
    Literals();
    hide Ascii;
    match x
    case NullText => FirstByte(s, i, [110, 117, 108, 108]);
    case FalseText => FirstByte(s, i, [102, 97, 108, 115, 101]);
    case TrueText => FirstByte(s, i, [116, 114, 117, 101]);
    case NumberText(minus, n) =>
      DecimalStarts(n);
      FirstByte(s, if minus then i + 1 else i, DecimalText(n));
    case StringText(_) =>
    case ArrayText(_, _) =>
    case ObjectText(_, _) =>
  }

  // ---------- every text is read as its tree ----------

  /** Any text of a tree is parsed into it, wherever it stands. */
  lemma {:induction false} TextRead(s: seq<byte>, i: nat, x: Text)
    requires Written(s, i, x) && Ends(s, TextEnd(i, x))
    ensures i < |s| && ParseValue(s, i) == Parsed(Tree(x), TextEnd(i, x)) && TextEnd(i, x) <= |s|
    decreases x, 1
  {
    TextStarts(s, i, x);
    NoLiteral(s, i);
    Literals();
    match x
    case NullText => hide ParseNumber, ParseString, ParseItems, ParseMembers, Ascii;
    case FalseText => hide ParseNumber, ParseString, ParseItems, ParseMembers, Ascii;
    case TrueText => hide ParseNumber, ParseString, ParseItems, ParseMembers, Ascii;
    case NumberText(minus, n) =>
      NumberTextRead(s, i, minus, n);
      hide ParseNumber, Written, Ascii;
    case StringText(sps) =>
      QuotedRead(s, i, sps);
      hide ParseString, Ascii;
    case ArrayText(inside, items) => ArrayTextRead(s, i, inside, items);
    case ObjectText(inside, members) => ObjectTextRead(s, i, inside, members);
  }

  lemma {:induction false} ArrayTextRead(s: seq<byte>, i: nat, inside: nat, items: seq<Slot>)
    requires Written(s, i, ArrayText(inside, items))
    ensures i < |s| && TextEnd(i, ArrayText(inside, items)) <= |s|
    ensures ParseValue(s, i) == Parsed(Array(Items(items, 0)), TextEnd(i, ArrayText(inside, items)))
    decreases items, |items| + 1
  {
    hide ParseValue, ParseItems, ItemsWritten, Skip, Blank, ItemsEnd;
    if items == [] {
      SkipTo(s, i + 1, inside);
      ArrayStep(s, i, [], 0);
    } else {
      var j := Skip(s, i + 1);
      SkipTwice(s, i + 1);
      ItemsTextRead(s, j, i + 1, items, 0);
      ItemFirst(s, i + 1, items);
      ArrayStep(s, i, Items(items, 0), ItemsEnd(i + 1, items, 0));
    }
  }

  /** The bracket is not closed before the first item. */
  lemma ItemFirst(s: seq<byte>, i: nat, items: seq<Slot>)
    requires items != [] && ItemsWritten(s, i, items, 0)
    ensures i <= |s| && At(s, Skip(s, i)) != RBRACKET
  {
    hide Written, Skip, Blank;
    TextStarts(s, i + items[0].before, items[0].text);
    SkipTo(s, i, items[0].before);
  }

  lemma {:induction false} ItemsTextRead(s: seq<byte>, q: nat, i: nat, items: seq<Slot>, k: nat)
    requires k < |items| && ItemsWritten(s, i, items, k) && q <= |s| && i <= |s| && Skip(s, q) == Skip(s, i)
    ensures ParseItems(s, q) == Parsed(Items(items, k), ItemsEnd(i, items, k)) && ItemsEnd(i, items, k) <= |s|
    decreases items, |items| - k
  {
    hide ParseValue, ParseItems, Written, Skip, Blank, TextEnd, Ends, Tree;
    var slot, e := items[k], SlotEnd(i, items[k]);
    SlotRead(s, i, slot, if k + 1 == |items| then RBRACKET else COMMA);
    var b := TextEnd(i + slot.before, slot.text);
    if k + 1 == |items| {
      ItemsStep(s, q, Tree(slot.text), b, [], 0);
      assert [Tree(slot.text)] + Items(items, k + 1) == [Tree(slot.text)];
    } else {
      ItemsTextRead(s, e + 1, e + 1, items, k + 1);
      ItemsStep(s, q, Tree(slot.text), b, Items(items, k + 1), ItemsEnd(e + 1, items, k + 1));
    }
  }

  /** One item, with what follows the white space behind it. */
  lemma {:induction false} SlotRead(s: seq<byte>, i: nat, slot: Slot, c: byte)
    requires SlotWritten(s, i, slot) && At(s, SlotEnd(i, slot)) == c && (c == COMMA || c == RBRACKET)
    ensures i <= |s| && SlotEnd(i, slot) < |s|
    ensures var b := TextEnd(i + slot.before, slot.text);
      ParseValue(s, Skip(s, i)) == Parsed(Tree(slot.text), b) && b <= |s| && Skip(s, b) == SlotEnd(i, slot)
    decreases slot
  {
    hide ParseValue, Written, Skip, TextEnd, Tree;
    TextStarts(s, i + slot.before, slot.text);
    SkipTo(s, i, slot.before);
    var b := TextEnd(i + slot.before, slot.text);
    SkipTo(s, b, slot.after);
    BlankEnds(s, b, slot.after);
    TextRead(s, i + slot.before, slot.text);
  }

  /** What follows a value inside an array or an object does not go on with a number. */
  lemma BlankEnds(s: seq<byte>, e: nat, n: nat)
    requires Blank(s, e, n)
    requires var c := At(s, e + n); c == COMMA || c == RBRACKET || c == RBRACE
    ensures Ends(s, e)
  {
  }

  lemma {:induction false} ObjectTextRead(s: seq<byte>, i: nat, inside: nat, members: seq<Entry>)
    requires Written(s, i, ObjectText(inside, members))
    ensures i < |s| && TextEnd(i, ObjectText(inside, members)) <= |s|
    ensures ParseValue(s, i) == Parsed(Object(Members(members, 0)), TextEnd(i, ObjectText(inside, members)))
    decreases members, |members| + 1
  {
    hide ParseValue, ParseMembers, MembersWritten, Skip, Blank, MembersEnd;
    if members == [] {
      SkipTo(s, i + 1, inside);
      ObjectStep(s, i, [], 0);
    } else {
      var j := Skip(s, i + 1);
      SkipTwice(s, i + 1);
      MembersTextRead(s, j, i + 1, members, 0);
      MemberFirst(s, i + 1, members);
      ObjectStep(s, i, Members(members, 0), MembersEnd(i + 1, members, 0));
    }
  }

  lemma MemberFirst(s: seq<byte>, i: nat, members: seq<Entry>)
    requires members != [] && MembersWritten(s, i, members, 0)
    ensures i <= |s| && At(s, Skip(s, i)) != RBRACE
  {
    hide Written, Skip, Blank, SpelledFrom;
    SkipTo(s, i, members[0].before);
  }

  lemma {:induction false} MembersTextRead(s: seq<byte>, q: nat, i: nat, members: seq<Entry>, k: nat)
    requires k < |members| && MembersWritten(s, i, members, k) && q <= |s| && i <= |s| && Skip(s, q) == Skip(s, i)
    ensures ParseMembers(s, q) == Parsed(Members(members, k), MembersEnd(i, members, k))
    ensures MembersEnd(i, members, k) <= |s|
    decreases members, |members| - k
  {
    hide ParseMember, ParseMembers, Written, Skip, Blank, TextEnd, Tree, MeaningFrom, QuotedAt, QuotedEnd;
    var entry, e := members[k], EntryEnd(i, members[k]);
    EntryRead(s, q, i, entry, if k + 1 == |members| then RBRACE else COMMA);
    var m := Member(MeaningFrom(entry.name, 0), Tree(entry.text));
    var b := TextEnd(ValueStart(i, entry), entry.text);
    if k + 1 == |members| {
      MembersStep(s, q, m, b, [], 0);
      assert [m] + Members(members, k + 1) == [m];
    } else {
      MembersTextRead(s, e + 1, e + 1, members, k + 1);
      MembersStep(s, q, m, b, Members(members, k + 1), MembersEnd(e + 1, members, k + 1));
    }
  }

  /** One member, if its value is not a number that goes on. */
  lemma {:induction false} EntryAlone(s: seq<byte>, q: nat, i: nat, entry: Entry)
    requires q <= |s| && i <= |s| && Skip(s, q) == Skip(s, i)
    requires EntryWritten(s, i, entry) && Ends(s, TextEnd(ValueStart(i, entry), entry.text))
    ensures var b := TextEnd(ValueStart(i, entry), entry.text);
      ParseMember(s, q) == Parsed(Member(MeaningFrom(entry.name, 0), Tree(entry.text)), b) && b <= |s|
    decreases entry, 0
  {
    hide ParseMember, ParseString, ParseValue, Written, Skip, TextEnd, Tree, MeaningFrom, QuotedEnd, SpelledFrom, Ends;
    var a, e, v := i + entry.before, NameEnd(i, entry), ValueStart(i, entry);
    QuotedRead(s, a, entry.name);
    SkipTo(s, i, entry.before);
    SkipTo(s, e, entry.behind);
    TextStarts(s, v, entry.text);
    SkipTo(s, e + entry.behind + 1, entry.ahead);
    TextRead(s, v, entry.text);
    EntryStep(s, q, MeaningFrom(entry.name, 0), e, Tree(entry.text), TextEnd(v, entry.text));
  }

  /** One member, with what follows the white space behind it. */
  lemma {:induction false} EntryRead(s: seq<byte>, q: nat, i: nat, entry: Entry, c: byte)
    requires q <= |s| && i <= |s| && Skip(s, q) == Skip(s, i)
    requires EntryWritten(s, i, entry) && At(s, EntryEnd(i, entry)) == c && (c == COMMA || c == RBRACE)
    ensures EntryEnd(i, entry) < |s|
    ensures var b := TextEnd(ValueStart(i, entry), entry.text);
      ParseMember(s, q) == Parsed(Member(MeaningFrom(entry.name, 0), Tree(entry.text)), b) && b <= |s| &&
      Skip(s, b) == EntryEnd(i, entry)
    decreases entry, 1
  {
    hide ParseMember, Skip, TextEnd, Tree, MeaningFrom, Written, QuotedAt, ValueStart;
    var b := TextEnd(ValueStart(i, entry), entry.text);
    BlankEnds(s, b, entry.after);
    SkipTo(s, b, entry.after);
    hide EntryWritten, Ends;
    EntryAlone(s, q, i, entry);
  }

  /** parse_object on one member. */
  lemma EntryStep(s: seq<byte>, q: nat, name: seq<byte>, e: nat, value: Json, b: nat)
    requires q <= |s| && e <= |s| && ParseString(s, Skip(s, q)) == Parsed(name, e)
    requires At(s, Skip(s, e)) == COLON && ParseValue(s, Skip(s, Skip(s, e) + 1)) == Parsed(value, b)
    ensures ParseMember(s, q) == Parsed(Member(name, value), b)
  {
    hide Skip, ParseValue, ParseString;
  }

  /** cJSON_ParseWithOpts on a whole text, with white space around the value: its tree, and where
      the value ends, or the text if it is to be used up. */
  lemma WholeTextRead(s: seq<byte>, before: nat, x: Text, after: nat, strict: bool)
    requires Blank(s, 0, before) && Written(s, before, x) && Ends(s, TextEnd(before, x))
    requires var e := TextEnd(before, x); Blank(s, e, after) && |s| == e + after
    ensures ParseText(s, strict) == Parsed(Tree(x), if strict then |s| else TextEnd(before, x))
  {
    hide ParseValue, Written, Tree, TextEnd, Skip;
    TextStarts(s, before, x);
    SkipTo(s, 0, before);
    TextRead(s, before, x);
    SkipTo(s, TextEnd(before, x), after);
  }
}
