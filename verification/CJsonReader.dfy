/** The parser of cJSON, building linked items. */
module CJsonReader {
  import opened Bytes
  import opened CJson
  import opened CJsonRoundTrip
  import opened CJsonStrings
  import opened CJsonTree

  /** What the parsing functions return: where they stopped, or a null pointer and ep. */
  datatype Pointer = To(at: nat) | NullPtr(ep: nat)

  /** The outcome that a method must have for a result of the specification. */
  predicate Agrees<T>(stop: Pointer, r: Result<T>) {
    match r
    case Parsed(_, end) => stop == To(end)
    case Failed(at) => stop == NullPtr(at)
    case Outside => true
  }

  /** skip */
  method SkipPtr(s: seq<byte>, i: nat) returns (e: nat)
    requires i <= |s|
    ensures e == Skip(s, i)
  {
    e := i;
    while 0 < At(s, e) <= 32
      invariant i <= e <= |s| && Skip(s, e) == Skip(s, i)
      decreases |s| - e
    {
      e := e + 1;
    }
  }

  /** parse_number, where the text is a 32-bit integer. */
  method ParseNumberInto(item: Item, s: seq<byte>, i: nat) returns (end: nat)
    requires i <= |s| && ParseNumber(s, i).Parsed?
    modifies item`kind, item`valueint, item`tree, item`below
    ensures ParseNumber(s, i) == Parsed(item.tree, end) && item.Valid() && item.below == {}
  {
    hide DigitsEnd;
    var num, sign, n := i, 1, 0;
    if At(s, num) == MINUS {
      sign, num := -1, num + 1;
    }
    if At(s, num) == 48 {
      num := num + 1;
    }
    ghost var k := num;
    assert Decimal(s, k, k) == 0;
    if 49 <= At(s, num) <= 57 {
      n, num := n * 10 + (At(s, num) as int - 48), num + 1;
      while IsDigit(At(s, num))
        invariant k < num <= |s| && n == Decimal(s, k, num)
        invariant forall j :: k <= j < num ==> IsDigit(s[j])
        decreases |s| - num
      {
        n, num := n * 10 + (At(s, num) as int - 48), num + 1;
      }
      DigitsEndIs(s, k, num);
    }
    item.valueint, item.kind, item.tree, item.below := sign * n, NumberKind, Number(sign * n), {};
    end := num;
  }

  /** parse_string into an item. */
  method ParseStringInto(item: Item, s: seq<byte>, i: nat) returns (stop: Pointer)
    requires i <= |s| && !ParseString(s, i).Outside?
    modifies item`kind, item`valuestring, item`tree, item`below
    ensures Agrees(stop, ParseString(s, i))
    ensures ParseString(s, i).Parsed? ==>
              item.Valid() && item.tree == String(ParseString(s, i).value) && fresh(item.below)
  {
    var out, end := ParseStringPtr(s, i);
    if out == null {
      return NullPtr(end);
    }
    item.valuestring, item.kind := out, StringKind;
    item.tree, item.below := String(ParseString(s, i).value), {out};
    stop := To(end);
  }

  // ---------- families of items ----------

  /** Items that stand for trees, none of them part of another, and what they own. */
  ghost predicate Family(cs: seq<Item>, ts: seq<Json>, owned: set<object>)
    reads cs, owned
  {
    |cs| == |ts| &&
    (forall k :: 0 <= k < |cs| ==> cs[k] in owned) &&
    (forall k :: 0 <= k < |cs| ==> cs[k].below <= owned) &&
    (forall k :: 0 <= k < |cs| ==> cs[k].tree == ts[k] && cs[k].Valid()) &&
    (forall j, k :: 0 <= j < |cs| && 0 <= k < |cs| ==> cs[j] !in cs[k].below)
  }

  ghost predicate Open(cs: seq<Item>)
    reads cs`next, cs`prev
  {
    |cs| > 0 && Chained(cs[0], cs)
  }

  lemma FamilyMore(cs: seq<Item>, ts: seq<Json>, owned: set<object>, e: Item)
    requires Family(cs, ts, owned) && e.Valid() && e !in owned && e.below !! owned
    ensures Family(cs + [e], ts + [e.tree], owned + {e} + e.below)
  {
    hide Item.Valid;
    assert e !in e.below by { NotBelow(e); }
    var cs', ts', owned' := cs + [e], ts + [e.tree], owned + {e} + e.below;
    forall k | 0 <= k < |cs'|
      ensures cs'[k] in owned' && cs'[k].below <= owned' && cs'[k].tree == ts'[k] && cs'[k].Valid()
    {
      if k < |cs| {
        assert cs'[k] == cs[k] && ts'[k] == ts[k];
      }
    }
    forall j, k | 0 <= j < |cs'| && 0 <= k < |cs'|
      ensures cs'[j] !in cs'[k].below
    {
      assert j < |cs| ==> cs'[j] == cs[j];
      assert k < |cs| ==> cs'[k] == cs[k];
    }
  }

  lemma NotBelow(e: Item)
    requires e.Valid()
    ensures e !in e.below
  {
  }

  /** Link a new item behind the last one. */
  method Link(prev: Item, e: Item, ghost cs: seq<Item>, ghost ts: seq<Json>, ghost owned: set<object>)
    requires Family(cs, ts, owned) && Open(cs) && prev == cs[|cs| - 1] && e !in owned && e.next == null
    modifies prev`next, e`prev
    ensures Family(cs, ts, owned) && Open(cs + [e])
  {
    forall j | 0 <= j < |cs| - 1
      ensures cs[j] != prev
    {
      assert cs[j].next == cs[j + 1] && prev.next == null;
    }
    assert e !in cs;
    prev.next := e;
    e.prev := prev;
    ghost var cs' := cs + [e];
    forall k | 0 <= k < |cs'|
      ensures cs'[k].next == if k + 1 < |cs'| then cs'[k + 1] else null
      ensures cs'[k].prev == if k > 0 then cs'[k - 1] else null
    {
      assert k < |cs| ==> cs'[k] == cs[k];
    }
  }

  // ---------- the specification, one call at a time ----------

  lemma ItemsInside(s: seq<byte>, at: nat)
    requires at <= |s| && !ParseItems(s, at).Outside?
    ensures !ParseValue(s, Skip(s, at)).Outside?
  {
    hide ParseValue, Skip;
  }

  /** Where the loop of parse_array stands when it has read items and looks at value. */
  function ItemsFrom(s: seq<byte>, value: nat, items: seq<Json>): Result<seq<Json>>
    requires value <= |s|
  {
    if At(s, value) == COMMA then Prepend(items, ParseItems(s, value + 1))
    else if At(s, value) == RBRACKET then Parsed(items, value + 1)
    else Failed(value)
  }

  lemma ItemsFromFirst(s: seq<byte>, at: nat)
    requires at <= |s| && ParseValue(s, Skip(s, at)).Parsed?
    ensures var r := ParseValue(s, Skip(s, at)); ParseItems(s, at) == ItemsFrom(s, Skip(s, r.end), [r.value])
  {
    hide ParseValue, Skip, Prepend;
  }

  lemma ItemsFromNext(s: seq<byte>, value: nat, items: seq<Json>)
    requires value < |s| && At(s, value) == COMMA && ParseValue(s, Skip(s, value + 1)).Parsed?
    ensures var r := ParseValue(s, Skip(s, value + 1));
      ItemsFrom(s, value, items) == ItemsFrom(s, Skip(s, r.end), items + [r.value])
  {
    hide ParseValue, Skip, ParseItems;
    ItemsFromFirst(s, value + 1);
    var r := ParseValue(s, Skip(s, value + 1));
    var j := Skip(s, r.end);
    if At(s, j) == COMMA {
      PrependTwice(items, [r.value], ParseItems(s, j + 1));
    }
  }

  /** A failure to read an item is a failure to read the items. */
  lemma ItemsFail(s: seq<byte>, at: nat)
    requires at <= |s| && ParseValue(s, Skip(s, at)).Failed?
    ensures ParseItems(s, at) == Failed(ParseValue(s, Skip(s, at)).at)
  {
    hide ParseValue, Skip;
  }

  function Boxed(r: Result<seq<Json>>): Result<Json> {
    match r
    case Parsed(items, end) => Parsed(Array(items), end)
    case Failed(at) => Failed(at)
    case Outside => Outside
  }

  lemma ArrayIs(s: seq<byte>, i: nat)
    requires i < |s| && s[i] == LBRACKET
    ensures var j := Skip(s, i + 1);
      ParseValue(s, i) == if At(s, j) == RBRACKET then Parsed(Array([]), j + 1) else Boxed(ParseItems(s, j))
  {
    NoLiteral(s, i);
    hide Starts, Skip, ParseItems;
  }

  lemma PrependTwice<T>(a: seq<T>, b: seq<T>, r: Result<seq<T>>)
    ensures Prepend(a, Prepend(b, r)) == Prepend(a + b, r)
  {
    if r.Parsed? {
      assert a + (b + r.value) == a + b + r.value;
    }
  }

  // ---------- values ----------

  /** parse_value into a new item. */
  method ParseValueInto(item: Item, s: seq<byte>, i: nat) returns (stop: Pointer)
    requires i <= |s| && !ParseValue(s, i).Outside? && item.child == null
    modifies item`kind, item`valueint, item`valuestring, item`child, item`tree, item`children, item`below
    ensures Agrees(stop, ParseValue(s, i))
    ensures ParseValue(s, i).Parsed? ==> item.Valid() && item.tree == ParseValue(s, i).value && fresh(item.below)
    decreases |s| - i, 1
  {
    NoLiteral(s, i);
    if Starts(s, i, [110, 117, 108, 108]) {
      item.kind, item.tree, item.below := NullKind, Json.Null, {};
      return To(i + 4);
    }
    if Starts(s, i, [102, 97, 108, 115, 101]) {
      item.kind, item.tree, item.below := FalseKind, False, {};
      return To(i + 5);
    }
    if Starts(s, i, [116, 114, 117, 101]) {
      item.kind, item.valueint, item.tree, item.below := TrueKind, 1, True, {};
      return To(i + 4);
    }
    if At(s, i) == QUOTE {
      stop := ParseStringInto(item, s, i);
      return;
    }
    if At(s, i) == MINUS || IsDigit(At(s, i)) {
      var end := ParseNumberInto(item, s, i);
      return To(end);
    }
    if At(s, i) == LBRACKET {
      stop := ParseArrayInto(item, s, i);
      return;
    }
    if At(s, i) == LBRACE {
      stop := ParseObjectInto(item, s, i);
      return;
    }
    stop := NullPtr(i);
  }

  /** A new item behind prev, and the value at it: the common part of the two places where
      parse_array makes an item. */
  method AddItem(s: seq<byte>, at: nat, prev: Item?, ghost cs: seq<Item>, ghost ts: seq<Json>, ghost owned: set<object>)
    returns (e: Item, stop: Pointer, ghost owned': set<object>)
    requires at <= |s| && !ParseItems(s, at).Outside? && Family(cs, ts, owned)
    requires if prev == null then cs == [] else Open(cs) && prev == cs[|cs| - 1]
    modifies (if prev == null then {} else {prev})`next
    ensures fresh(e) && Agrees(stop, ParseValue(s, Skip(s, at)))
    ensures ParseValue(s, Skip(s, at)).Parsed? ==>
              Family(cs + [e], ts + [ParseValue(s, Skip(s, at)).value], owned') && Open(cs + [e])
    ensures owned <= owned' && fresh(owned' - owned)
    decreases |s| - at, 2
  {
    hide Family, ParseValue, ParseItems, Item.Valid;
    ItemsInside(s, at);
    e := new Item();
    if prev != null {
      Link(prev, e, cs, ts, owned);
    }
    assert Open(cs + [e]);
    hide Open;
    var i := SkipPtr(s, at);
    stop := ParseValueInto(e, s, i);
    owned' := owned;
    if stop.To? {
      FamilyMore(cs, ts, owned, e);
      owned' := owned + {e} + e.below;
    }
  }

  /** parse_array. */
  method ParseArrayInto(item: Item, s: seq<byte>, i: nat) returns (stop: Pointer)
    requires i < |s| && s[i] == LBRACKET && !ParseValue(s, i).Outside? && item.child == null
    modifies item`kind, item`child, item`tree, item`children, item`below
    ensures Agrees(stop, ParseValue(s, i))
    ensures ParseValue(s, i).Parsed? ==> item.Valid() && item.tree == ParseValue(s, i).value && fresh(item.below)
    decreases |s| - i, 0
  {
    hide ParseValue, ParseItems;
    ArrayIs(s, i);
    item.kind := ArrayKind;
    var value := SkipPtr(s, i + 1);
    if At(s, value) == RBRACKET {
      item.tree, item.children, item.below := Array([]), [], {};
      return To(value + 1);
    }
    hide Item.Valid;
    stop := ParseArrayItems(item, s, value);
  }

  lemma ItemsEnd(s: seq<byte>, value: nat, ts: seq<Json>)
    requires value <= |s| && At(s, value) != COMMA
    ensures ItemsFrom(s, value, ts) == if At(s, value) == RBRACKET then Parsed(ts, value + 1) else Failed(value)
  {
  }

  /** The first item of an array. */
  method StartItems(s: seq<byte>, start: nat)
    returns (child: Item, stop: Pointer, value: nat, ghost cs: seq<Item>, ghost ts: seq<Json>, ghost owned: set<object>)
    requires start <= |s| && !ParseItems(s, start).Outside?
    ensures fresh(child) && fresh(owned)
    ensures stop.NullPtr? ==> Agrees(stop, ParseItems(s, start))
    ensures stop.To? ==>
      start < value <= |s| && ItemsFrom(s, value, ts) == ParseItems(s, start) &&
      Family(cs, ts, owned) && Open(cs) && cs == [child]
    decreases |s| - start, 3
  {
    hide ParseValue, ParseItems, Family, Open, Item.Valid, Skip, Prepend;
    EmptyFamily();
    child, stop, owned := AddItem(s, start, null, [], [], {});
    ItemsInside(s, start);
    value, cs, ts := start, [], [];
    if stop.NullPtr? {
      ItemsFail(s, start);
      return;
    }
    ItemsFromFirst(s, start);
    cs, ts := [] + [child], [] + [ParseValue(s, Skip(s, start)).value];
    assert ts == [ParseValue(s, Skip(s, start)).value];
    value := SkipPtr(s, stop.at);
  }

  /** One turn of the loop of parse_array: behind the comma at value. */
  method NextItem(s: seq<byte>, start: nat, value: nat, last: Item, ghost cs: seq<Item>, ghost ts: seq<Json>,
      ghost owned: set<object>)
    returns (child: Item, stop: Pointer, value': nat, ghost cs': seq<Item>, ghost ts': seq<Json>,
      ghost owned': set<object>)
    requires start <= |s| && !ParseItems(s, start).Outside?
    requires value < |s| && At(s, value) == COMMA && ItemsFrom(s, value, ts) == ParseItems(s, start)
    requires Family(cs, ts, owned) && Open(cs) && |cs| > 0 && last == cs[|cs| - 1]
    modifies last`next
    ensures fresh(child) && owned <= owned' && fresh(owned' - owned)
    ensures stop.NullPtr? ==> Agrees(stop, ParseItems(s, start))
    ensures stop.To? ==>
      value < value' <= |s| && ItemsFrom(s, value', ts') == ParseItems(s, start) &&
      Family(cs', ts', owned') && Open(cs') && |cs'| > 0 && child == cs'[|cs'| - 1] && cs'[0] == cs[0]
    decreases |s| - value - 1, 3
  {
    hide ParseValue, ParseItems, Family, Open, Item.Valid, Skip, Prepend;
    PrependInside(ts, ParseItems(s, value + 1));
    ItemsInside(s, value + 1);
    child, stop, owned' := AddItem(s, value + 1, last, cs, ts, owned);
    value', cs', ts' := value, cs, ts;
    if stop.NullPtr? {
      ItemsFail(s, value + 1);
      return;
    }
    ItemsFromNext(s, value, ts);
    cs', ts' := cs + [child], ts + [ParseValue(s, Skip(s, value + 1)).value];
    value' := SkipPtr(s, stop.at);
  }

  /** The part of parse_array behind the test for an empty array. */
  method ParseArrayItems(item: Item, s: seq<byte>, start: nat) returns (stop: Pointer)
    requires start <= |s| && !ParseItems(s, start).Outside? && item.kind == ArrayKind
    modifies item`child, item`tree, item`children, item`below
    ensures Agrees(stop, ParseItems(s, start))
    ensures ParseItems(s, start).Parsed? ==>
      item.Valid() && item.tree == Array(ParseItems(s, start).value) && fresh(item.below)
    decreases |s| - start, 4
  {
    hide ParseValue, ParseItems, ItemsFrom, Family, Open, Item.Valid, Skip, Prepend;
    ghost var cs, ts, owned;
    var child, value;
    child, stop, value, cs, ts, owned := StartItems(s, start);
    item.child := child;
    if stop.NullPtr? {
      return;
    }
    while At(s, value) == COMMA
      invariant start < value <= |s| && ItemsFrom(s, value, ts) == ParseItems(s, start)
      invariant Family(cs, ts, owned) && Open(cs) && fresh(owned) && |cs| > 0
      invariant child == cs[|cs| - 1] && item.child == cs[0] && fresh(child)
      decreases |s| - value
    {
      child, stop, value, cs, ts, owned := NextItem(s, start, value, child, cs, ts, owned);
      if stop.NullPtr? {
        return;
      }
    }
    ItemsEnd(s, value, ts);
    if At(s, value) == RBRACKET {
      FinishArray(item, cs, ts, owned);
      return To(value + 1);
    }
    stop := NullPtr(value);
  }

  lemma PrependInside<T>(items: seq<T>, r: Result<seq<T>>)
    ensures Prepend(items, r).Outside? <==> r.Outside?
    ensures r.Failed? ==> Prepend(items, r) == r
  {
  }

  /** The item becomes an array of the items linked so far. */
  ghost method FinishArray(item: Item, cs: seq<Item>, ts: seq<Json>, owned: set<object>)
    requires Family(cs, ts, owned) && Open(cs) && item.child == cs[0] && item.kind == ArrayKind && item !in owned
    modifies item`tree, item`children, item`below
    ensures item.Valid() && item.tree == Array(ts) && item.below == owned
  {
    item.tree, item.children, item.below := Array(ts), cs, owned;
  }

  lemma EmptyFamily()
    ensures Family([], [], {})
  {
  }

  // ---------- objects ----------

  /** The items carry the names and the values of members. */
  ghost predicate Named(cs: seq<Item>, ts: seq<Json>, ms: seq<Member>, owned: set<object>)
    reads cs`name, owned
  {
    |cs| == |ts| == |ms| && forall k :: 0 <= k < |cs| ==> ms[k].value == ts[k] && NamedBy(cs[k], ms[k].name, owned)
  }

  lemma NamedMore(cs: seq<Item>, ts: seq<Json>, ms: seq<Member>, owned: set<object>, e: Item, m: Member,
      owned': set<object>)
    requires Named(cs, ts, ms, owned) && owned <= owned' && NamedBy(e, m.name, owned')
    ensures Named(cs + [e], ts + [m.value], ms + [m], owned')
  {
  }

  lemma FamilyWider(cs: seq<Item>, ts: seq<Json>, owned: set<object>, owned': set<object>)
    requires Family(cs, ts, owned) && owned <= owned'
    ensures Family(cs, ts, owned')
  {
  }

  lemma MembersInside(s: seq<byte>, at: nat)
    requires at <= |s| && !ParseMembers(s, at).Outside?
    ensures !ParseMember(s, at).Outside?
  {
    hide ParseMember, Skip;
  }

  lemma MembersFail(s: seq<byte>, at: nat)
    requires at <= |s| && ParseMember(s, at).Failed?
    ensures ParseMembers(s, at) == Failed(ParseMember(s, at).at)
  {
    hide ParseMember, Skip;
  }

  /** parse_member, one call at a time. */
  lemma MemberIs(s: seq<byte>, at: nat)
    requires at <= |s|
    ensures var k := ParseString(s, Skip(s, at));
      (k.Outside? ==> ParseMember(s, at).Outside?) && (k.Failed? ==> ParseMember(s, at) == Failed(k.at)) &&
      (k.Parsed? ==>
        var j := Skip(s, k.end);
        if At(s, j) != COLON then ParseMember(s, at) == Failed(j)
        else
          var v := ParseValue(s, Skip(s, j + 1));
          (v.Outside? ==> ParseMember(s, at).Outside?) && (v.Failed? ==> ParseMember(s, at) == Failed(v.at)) &&
          (v.Parsed? ==> ParseMember(s, at) == Parsed(Member(k.value, v.value), v.end)))
  {
    hide ParseString, ParseValue, Skip;
  }

  /** Where the loop of parse_object stands when it has read members and looks at value. */
  function MembersFrom(s: seq<byte>, value: nat, members: seq<Member>): Result<seq<Member>>
    requires value <= |s|
  {
    if At(s, value) == COMMA then Prepend(members, ParseMembers(s, value + 1))
    else if At(s, value) == RBRACE then Parsed(members, value + 1)
    else Failed(value)
  }

  lemma MembersFromFirst(s: seq<byte>, at: nat)
    requires at <= |s| && ParseMember(s, at).Parsed?
    ensures var r := ParseMember(s, at); ParseMembers(s, at) == MembersFrom(s, Skip(s, r.end), [r.value])
  {
    hide ParseMember, Skip, Prepend;
  }

  lemma MembersFromNext(s: seq<byte>, value: nat, members: seq<Member>)
    requires value < |s| && At(s, value) == COMMA && ParseMember(s, value + 1).Parsed?
    ensures var r := ParseMember(s, value + 1);
      MembersFrom(s, value, members) == MembersFrom(s, Skip(s, r.end), members + [r.value])
  {
    hide ParseMember, Skip, ParseMembers;
    MembersFromFirst(s, value + 1);
    var r := ParseMember(s, value + 1);
    var j := Skip(s, r.end);
    if At(s, j) == COMMA {
      PrependTwice(members, [r.value], ParseMembers(s, j + 1));
    }
  }

  function BoxedMembers(r: Result<seq<Member>>): Result<Json> {
    match r
    case Parsed(members, end) => Parsed(Object(members), end)
    case Failed(at) => Failed(at)
    case Outside => Outside
  }

  lemma ObjectIs(s: seq<byte>, i: nat)
    requires i < |s| && s[i] == LBRACE
    ensures var j := Skip(s, i + 1);
      ParseValue(s, i) == if At(s, j) == RBRACE then Parsed(Object([]), j + 1) else BoxedMembers(ParseMembers(s, j))
  {
    NoLiteral(s, i);
    hide Starts, Skip, ParseMembers;
  }

  /** The name, the colon and the value of a member, into a new item. */
  method ParseMemberInto(e: Item, s: seq<byte>, at: nat) returns (stop: Pointer)
    requires at <= |s| && !ParseMember(s, at).Outside? && e.child == null
    modifies e`kind, e`valueint, e`valuestring, e`name, e`child, e`tree, e`children, e`below
    ensures Agrees(stop, ParseMember(s, at))
    ensures ParseMember(s, at).Parsed? ==>
              var m := ParseMember(s, at).value;
              e.Valid() && e.tree == m.value && fresh(e.below) && e.name != null && fresh(e.name) &&
              CStringIn(e.name, m.name)
    decreases |s| - at, 2
  {
    hide ParseMember, ParseValue, ParseString, Item.Valid, CStringIn, Skip;
    MemberIs(s, at);
    var i := SkipPtr(s, at);
    var out, end := ParseStringPtr(s, i);
    if out == null {
      return NullPtr(end);
    }
    var value := SkipPtr(s, end);
    e.name, e.valuestring := out, null;
    if At(s, value) != COLON {
      return NullPtr(value);
    }
    i := SkipPtr(s, value + 1);
    stop := ParseValueInto(e, s, i);
  }

  /** Link, for items that carry names. */
  method LinkNamed(prev: Item, e: Item, ghost cs: seq<Item>, ghost ts: seq<Json>, ghost ms: seq<Member>,
      ghost owned: set<object>)
    requires Family(cs, ts, owned) && Named(cs, ts, ms, owned) && Open(cs)
    requires prev == cs[|cs| - 1] && e !in owned && e.next == null
    modifies prev`next, e`prev
    ensures Family(cs, ts, owned) && Named(cs, ts, ms, owned) && Open(cs + [e])
  {
    hide Family, Open, CStringIn;
    Link(prev, e, cs, ts, owned);
  }

  lemma EmptyNamed()
    ensures Named([], [], [], {})
  {
  }

  /** A new item behind prev, and the member at it: the common part of the two places where
      parse_object makes an item. */
  method AddMember(s: seq<byte>, at: nat, prev: Item?, ghost cs: seq<Item>, ghost ts: seq<Json>, ghost ms: seq<Member>,
      ghost owned: set<object>)
    returns (e: Item, stop: Pointer, ghost owned': set<object>)
    requires at <= |s| && !ParseMembers(s, at).Outside? && Family(cs, ts, owned) && Named(cs, ts, ms, owned)
    requires if prev == null then cs == [] else Open(cs) && prev == cs[|cs| - 1]
    modifies (if prev == null then {} else {prev})`next
    ensures fresh(e) && Agrees(stop, ParseMember(s, at))
    ensures ParseMember(s, at).Parsed? ==>
              var m := ParseMember(s, at).value;
              Family(cs + [e], ts + [m.value], owned') && Open(cs + [e]) &&
              Named(cs + [e], ts + [m.value], ms + [m], owned')
    ensures owned <= owned' && fresh(owned' - owned)
    decreases |s| - at, 3
  {
    hide Family, ParseMember, ParseMembers, Item.Valid, Named, Skip, CStringIn;
    MembersInside(s, at);
    e := new Item();
    if prev != null {
      LinkNamed(prev, e, cs, ts, ms, owned);
    }
    assert Open(cs + [e]);
    hide Open;
    stop := ParseMemberInto(e, s, at);
    owned' := owned;
    if stop.To? {
      FamilyMore(cs, ts, owned, e);
      owned' := owned + {e} + e.below + {e.name};
      FamilyWider(cs + [e], ts + [e.tree], owned + {e} + e.below, owned');
      NamedMore(cs, ts, ms, owned, e, ParseMember(s, at).value, owned');
    }
  }

  /** parse_object. */
  method ParseObjectInto(item: Item, s: seq<byte>, i: nat) returns (stop: Pointer)
    requires i < |s| && s[i] == LBRACE && !ParseValue(s, i).Outside? && item.child == null
    modifies item`kind, item`child, item`tree, item`children, item`below
    ensures Agrees(stop, ParseValue(s, i))
    ensures ParseValue(s, i).Parsed? ==> item.Valid() && item.tree == ParseValue(s, i).value && fresh(item.below)
    decreases |s| - i, 0
  {
    hide ParseValue, ParseMembers;
    ObjectIs(s, i);
    item.kind := ObjectKind;
    var value := SkipPtr(s, i + 1);
    if At(s, value) == RBRACE {
      item.tree, item.children, item.below := Object([]), [], {};
      return To(value + 1);
    }
    hide Item.Valid;
    stop := ParseObjectMembers(item, s, value);
  }

  lemma MembersEnd(s: seq<byte>, value: nat, ms: seq<Member>)
    requires value <= |s| && At(s, value) != COMMA
    ensures MembersFrom(s, value, ms) == if At(s, value) == RBRACE then Parsed(ms, value + 1) else Failed(value)
  {
  }

  /** The first member of an object. */
  method StartMembers(s: seq<byte>, start: nat)
    returns (child: Item, stop: Pointer, value: nat, ghost cs: seq<Item>, ghost ts: seq<Json>, ghost ms: seq<Member>,
      ghost owned: set<object>)
    requires start <= |s| && !ParseMembers(s, start).Outside?
    ensures fresh(child) && fresh(owned)
    ensures stop.NullPtr? ==> Agrees(stop, ParseMembers(s, start))
    ensures stop.To? ==>
      start < value <= |s| && MembersFrom(s, value, ms) == ParseMembers(s, start) &&
      Family(cs, ts, owned) && Named(cs, ts, ms, owned) && Open(cs) && cs == [child]
    decreases |s| - start, 4
  {
    hide ParseMember, ParseMembers, Family, Named, Open, Item.Valid, Skip, Prepend;
    EmptyFamily();
    EmptyNamed();
    child, stop, owned := AddMember(s, start, null, [], [], [], {});
    MembersInside(s, start);
    value, cs, ts, ms := start, [], [], [];
    if stop.NullPtr? {
      MembersFail(s, start);
      return;
    }
    MembersFromFirst(s, start);
    ghost var m := ParseMember(s, start).value;
    cs, ts, ms := [] + [child], [] + [m.value], [] + [m];
    assert ms == [m];
    value := SkipPtr(s, stop.at);
  }

  /** One turn of the loop of parse_object: behind the comma at value. */
  method NextMember(s: seq<byte>, start: nat, value: nat, last: Item,
                    ghost cs: seq<Item>, ghost ts: seq<Json>, ghost ms: seq<Member>, ghost owned: set<object>)
    returns (child: Item, stop: Pointer, value': nat,
             ghost cs': seq<Item>, ghost ts': seq<Json>, ghost ms': seq<Member>, ghost owned': set<object>)
    requires start <= |s| && !ParseMembers(s, start).Outside?
    requires value < |s| && At(s, value) == COMMA && MembersFrom(s, value, ms) == ParseMembers(s, start)
    requires Family(cs, ts, owned) && Named(cs, ts, ms, owned) && Open(cs) && |cs| > 0 && last == cs[|cs| - 1]
    modifies last`next
    ensures fresh(child) && owned <= owned' && fresh(owned' - owned)
    ensures stop.NullPtr? ==> Agrees(stop, ParseMembers(s, start))
    ensures stop.To? ==>
      value < value' <= |s| && MembersFrom(s, value', ms') == ParseMembers(s, start) &&
      Family(cs', ts', owned') && Named(cs', ts', ms', owned') && Open(cs') && |cs'| > 0 && child == cs'[|cs'| - 1] &&
      cs'[0] == cs[0]
    decreases |s| - value - 1, 4
  {
    hide ParseMember, ParseMembers, Family, Named, Open, Item.Valid, Skip, Prepend;
    PrependInside(ms, ParseMembers(s, value + 1));
    MembersInside(s, value + 1);
    child, stop, owned' := AddMember(s, value + 1, last, cs, ts, ms, owned);
    value', cs', ts', ms' := value, cs, ts, ms;
    if stop.NullPtr? {
      MembersFail(s, value + 1);
      return;
    }
    MembersFromNext(s, value, ms);
    ghost var m := ParseMember(s, value + 1).value;
    cs', ts', ms' := cs + [child], ts + [m.value], ms + [m];
    value' := SkipPtr(s, stop.at);
  }

  /** The part of parse_object behind the test for an empty object. */
  method ParseObjectMembers(item: Item, s: seq<byte>, start: nat) returns (stop: Pointer)
    requires start <= |s| && !ParseMembers(s, start).Outside? && item.kind == ObjectKind
    modifies item`child, item`tree, item`children, item`below
    ensures Agrees(stop, ParseMembers(s, start))
    ensures ParseMembers(s, start).Parsed? ==>
      item.Valid() && item.tree == Object(ParseMembers(s, start).value) && fresh(item.below)
    decreases |s| - start, 5
  {
    hide ParseMember, ParseMembers, MembersFrom, Family, Named, Open, Item.Valid, Skip, Prepend;
    ghost var cs, ts, ms, owned;
    var child, value;
    child, stop, value, cs, ts, ms, owned := StartMembers(s, start);
    item.child := child;
    if stop.NullPtr? {
      return;
    }
    while At(s, value) == COMMA
      invariant start < value <= |s| && MembersFrom(s, value, ms) == ParseMembers(s, start)
      invariant Family(cs, ts, owned) && Named(cs, ts, ms, owned) && Open(cs) && fresh(owned) && |cs| > 0
      invariant child == cs[|cs| - 1] && item.child == cs[0] && fresh(child)
      decreases |s| - value
    {
      child, stop, value, cs, ts, ms, owned := NextMember(s, start, value, child, cs, ts, ms, owned);
      if stop.NullPtr? {
        return;
      }
    }
    MembersEnd(s, value, ms);
    if At(s, value) == RBRACE {
      FinishObject(item, cs, ts, ms, owned);
      return To(value + 1);
    }
    stop := NullPtr(value);
  }

  /** The item becomes an object of the members linked so far. */
  ghost method FinishObject(item: Item, cs: seq<Item>, ts: seq<Json>, ms: seq<Member>, owned: set<object>)
    requires Family(cs, ts, owned) && Named(cs, ts, ms, owned) && Open(cs)
    requires item.child == cs[0] && item.kind == ObjectKind && item !in owned
    modifies item`tree, item`children, item`below
    ensures item.Valid() && item.tree == Object(ms) && item.below == owned
  {
    item.tree, item.children, item.below := Object(ms), cs, owned;
  }

  // ---------- whole texts ----------

  /** cJSON_ParseWithOpts: the root and where its text ends, or null and the error pointer. */
  method ParseWithOpts(value: seq<byte>, requireNullTerminated: bool) returns (c: Item?, stop: Pointer)
    requires !ParseText(value, requireNullTerminated).Outside?
    ensures Agrees(stop, ParseText(value, requireNullTerminated))
    ensures match ParseText(value, requireNullTerminated)
      case Parsed(tree, end) => c != null && fresh(c) && c.Valid() && c.tree == tree
      case Failed(at) => c == null
  {
    hide ParseValue, Item.Valid;
    c := new Item();
    var i := SkipPtr(value, 0);
    stop := ParseValueInto(c, value, i);
    if stop.NullPtr? {
      return null, stop;
    }
    if requireNullTerminated {
      var end := SkipPtr(value, stop.at);
      if At(value, end) != 0 {
        return null, NullPtr(end);
      }
      stop := To(end);
    }
  }
}
