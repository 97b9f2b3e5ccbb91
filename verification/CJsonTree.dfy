/** The parser and the printer of cJSON over linked items and buffers. */
module CJsonTree {
  import opened Bytes
  import opened CJson
  import opened CJsonFits
  import opened CJsonRoundTrip
  import opened CJsonStrings

  // ---------- items ----------

  datatype Kind = FalseKind | TrueKind | NullKind | NumberKind | StringKind | ArrayKind | ObjectKind

  /** The children of an item, linked both ways. */
  ghost predicate Chained(first: Item?, cs: seq<Item>)
    reads cs`next, cs`prev
  {
    (cs == [] ==> first == null) && (cs != [] ==> first == cs[0]) &&
    (forall k {:trigger cs[k].next} :: 0 <= k < |cs| ==> cs[k].next == if k + 1 < |cs| then cs[k + 1] else null) &&
    (forall k {:trigger cs[k].prev} :: 0 <= k < |cs| ==> cs[k].prev == if k > 0 then cs[k - 1] else null)
  }

  class Item {
    var kind: Kind
    var valueint: int
    var valuestring: array?<byte>
    var name: array?<byte>
    var child: Item?
    var next: Item?
    var prev: Item?
    ghost var tree: Json           // what the item stands for
    ghost var children: seq<Item>
    ghost var below: set<object>   // what the item owns, but for itself and its name

    /** cJSON_New_Item: all zero. */
    constructor ()
      ensures kind == FalseKind && valueint == 0 && valuestring == null && name == null
      ensures child == null && next == null && prev == null && children == [] && below == {}
    {
      kind, valueint, valuestring, name, child, next, prev := FalseKind, 0, null, null, null, null, null;
      tree, children, below := False, [], {};
    }

    /** The item represents its tree. */
    ghost predicate Valid()
      reads this`kind, this`valueint, this`valuestring, this`child, this`tree, this`children, this`below, below
      decreases tree
    {
      this !in below &&
      match tree
      case Null => kind == NullKind
      case False => kind == FalseKind
      case True => kind == TrueKind
      case Number(n) => kind == NumberKind && valueint == n
      case String(text) => kind == StringKind && valuestring != null && valuestring in below &&
        CStringIn(valuestring, text)
      case Array(items) =>
        kind == ArrayKind && |children| == |items| &&
        (forall k :: 0 <= k < |children| ==> children[k] in below) && Chained(child, children) &&
        (forall k :: 0 <= k < |children| ==>
          children[k].below <= below && children[k].tree == items[k] && children[k].Valid())
      case Object(members) =>
        kind == ObjectKind && |children| == |members| &&
        (forall k :: 0 <= k < |children| ==> children[k] in below) && Chained(child, children) &&
        (forall k :: 0 <= k < |children| ==>
          children[k].below <= below && children[k].tree == members[k].value && children[k].Valid() &&
          NamedBy(children[k], members[k].name, below))
    }
  }

  /** The name of a member. */
  ghost predicate NamedBy(c: Item, name: seq<byte>, owned: set<object>)
    reads c`name, owned
  {
    c.name != null && c.name in owned && CStringIn(c.name, name)
  }

  // ---------- C strings ----------

  method StrLen(s: array<byte>, ghost text: seq<byte>) returns (n: nat)
    requires CStringIn(s, text)
    ensures n == |text|
  {
    n := 0;
    CStringEnd(s, text, n);
    while s[n] != 0
      invariant n <= |text| && (s[n] == 0 <==> n == |text|)
      decreases |text| - n
    {
      n := n + 1;
      CStringEnd(s, text, n);
    }
  }

  /** A C string ends at its first zero byte. */
  lemma CStringEnd(s: array<byte>, text: seq<byte>, n: nat)
    requires CStringIn(s, text) && n <= |text|
    ensures s[n] == 0 <==> n == |text|
    ensures n < |text| ==> s[n] == text[n]
  {
    if n < |text| {
      assert s[n] == s[..|text|][n];
    }
  }

  /** strcpy to out + at. */
  method StrCpy(out: array<byte>, at: nat, s: array<byte>, ghost text: seq<byte>)
    requires CStringIn(s, text) && out != s && at + |text| < out.Length
    modifies out
    ensures out[..at + |text|] == old(out[..at]) + text
    ensures out[at + |text|] == 0
  {
    var n := 0;
    CStringEnd(s, text, n);
    while s[n] != 0
      invariant n <= |text| && out[..at + n] == old(out[..at]) + text[..n]
      invariant CStringIn(s, text) && (s[n] == 0 <==> n == |text|)
      decreases |text| - n
    {
      CStringEnd(s, text, n);
      out[at + n] := s[n];
      n := n + 1;
      CStringEnd(s, text, n);
    }
    assert text[..n] == text;
    out[at + n] := 0;
  }

  /** strcpy of a literal, and what sprintf writes. */
  method Put(out: array<byte>, at: nat, text: seq<byte>)
    requires at + |text| < out.Length
    modifies out
    ensures out[..at + |text|] == old(out[..at]) + text
    ensures out[at + |text|] == 0
  {
    var n := 0;
    while n < |text|
      invariant n <= |text| && out[..at + n] == old(out[..at]) + text[..n]
    {
      out[at + n] := text[n];
      n := n + 1;
    }
    assert text[..n] == text;
    out[at + n] := 0;
  }

  /** strdup of a literal. */
  method StrDup(text: seq<byte>) returns (out: array<byte>)
    requires NulFree(text)
    ensures fresh(out) && CStringIn(out, text)
  {
    out := new byte[|text| + 1];
    Put(out, 0, text);
  }

  // ---------- printing ----------

  /** The printed values of the first items. */
  ghost predicate Held(entries: seq<array<byte>>, items: seq<Json>, depth: nat, fmt: bool)
    reads entries
  {
    |entries| <= |items| && forall j :: 0 <= j < |entries| ==> CStringIn(entries[j], PrintValue(items[j], depth, fmt))
  }

  ghost predicate HeldValues(entries: seq<array<byte>>, members: seq<Member>, depth: nat, fmt: bool)
    reads entries
  {
    |entries| <= |members| && forall j :: 0 <= j < |entries| ==>
      CStringIn(entries[j], PrintValue(members[j].value, depth, fmt))
  }

  ghost predicate HeldNames(names: seq<array<byte>>, members: seq<Member>)
    reads names
  {
    |names| <= |members| && forall j :: 0 <= j < |names| ==> CStringIn(names[j], PrintString(members[j].name))
  }

  lemma HeldMore(entries: seq<array<byte>>, items: seq<Json>, depth: nat, fmt: bool, ret: array<byte>)
    requires |entries| < |items| && Held(entries, items, depth, fmt) &&
      CStringIn(ret, PrintValue(items[|entries|], depth, fmt))
    ensures Held(entries + [ret], items, depth, fmt)
  {
  }

  lemma HeldValuesMore(entries: seq<array<byte>>, members: seq<Member>, depth: nat, fmt: bool, ret: array<byte>)
    requires |entries| < |members| && HeldValues(entries, members, depth, fmt)
    requires CStringIn(ret, PrintValue(members[|entries|].value, depth, fmt))
    ensures HeldValues(entries + [ret], members, depth, fmt)
  {
  }

  lemma HeldNamesMore(names: seq<array<byte>>, members: seq<Member>, str: array<byte>)
    requires |names| < |members| && HeldNames(names, members) && CStringIn(str, PrintString(members[|names|].name))
    ensures HeldNames(names + [str], members)
  {
  }

  lemma HeldAt(names: seq<array<byte>>, entries: seq<array<byte>>, members: seq<Member>, depth: nat, fmt: bool, i: nat)
    requires i < |names| == |entries| && HeldNames(names, members) && HeldValues(entries, members, depth, fmt)
    ensures i < |members| && CStringIn(names[i], PrintString(members[i].name))
    ensures CStringIn(entries[i], PrintValue(members[i].value, depth, fmt))
  {
  }

  /** The counting loops of print_array and print_object. */
  method CountChildren(first: Item?, ghost cs: seq<Item>) returns (n: nat)
    requires Chained(first, cs)
    ensures n == |cs|
  {
    var child := first;
    n := 0;
    while child != null
      invariant n <= |cs| && child == if n < |cs| then cs[n] else null
      decreases |cs| - n
    {
      n := n + 1;
      child := child.next;
    }
  }

  /** print_number. */
  method PrintNumberOf(item: Item) returns (out: array<byte>)
    requires INT_MIN <= item.valueint <= INT_MAX
    ensures fresh(out) && CStringIn(out, PrintNumber(item.valueint))
  {
    var n := item.valueint;
    NumberFits(n);
    DecimalNulFree(if n < 0 then -n else n);
    out := new byte[21];
    Put(out, 0, PrintNumber(n));
  }

  /** print_value. */
  method PrintValueOf(item: Item, depth: nat, fmt: bool) returns (out: array<byte>)
    requires item.Valid() && WellFormed(item.tree)
    requires fmt && depth == 0 ==> item.tree != Object([])
    ensures fresh(out) && CStringIn(out, PrintValue(item.tree, depth, fmt))
    decreases item.tree, 3
  {
    match item.kind
    case NullKind => out := StrDup([110, 117, 108, 108]);
    case FalseKind => out := StrDup([102, 97, 108, 115, 101]);
    case TrueKind => out := StrDup([116, 114, 117, 101]);
    case NumberKind => out := PrintNumberOf(item);
    case StringKind => out := PrintStringOf(item);
    case ArrayKind => out := PrintArrayOf(item, depth, fmt);
    case ObjectKind => out := PrintObjectOf(item, depth, fmt);
  }

  /** print_string. */
  method PrintStringOf(item: Item) returns (out: array<byte>)
    requires item.Valid() && item.tree.String?
    ensures fresh(out) && CStringIn(out, PrintString(item.tree.text))
  {
    out := PrintCString(item.valuestring, item.tree.text);
  }

  /** print_string_ptr on a buffer. */
  method PrintCString(s: array<byte>, ghost text: seq<byte>) returns (out: array<byte>)
    requires CStringIn(s, text)
    ensures fresh(out) && CStringIn(out, PrintString(text))
  {
    var n := StrLen(s, text);
    assert s[..n] == text;
    out := PrintStringPtr(s[..n]);
    PrintStringNulFree(text);
    assert out[..|PrintString(text)|] == PrintString(text);
  }

  /** print_array. */
  method PrintArrayOf(item: Item, depth: nat, fmt: bool) returns (out: array<byte>)
    requires item.Valid() && item.tree.Array? && WellFormed(item.tree)
    ensures fresh(out) && CStringIn(out, PrintValue(item.tree, depth, fmt))
    decreases item.tree, 1
  {
    ghost var items := item.tree.items;
    PrintNulFree(item.tree, depth, fmt);
    var numentries := CountChildren(item.child, item.children);
    if numentries == 0 {
      out := new byte[3];
      Put(out, 0, [LBRACKET, RBRACKET]);
      return;
    }
    hide PrintValue, PrintItems, WellFormed;
    var entries, len := CollectItems(item, depth, fmt);
    ArrayFits(items, depth, fmt);
    out := ComposeArray(entries, len, depth, fmt, items);
  }

  lemma ItemsBudgetStep(items: seq<Json>, k: nat, depth: nat, fmt: bool)
    requires k < |items|
    ensures ItemsBudget(items, k, depth, fmt) ==
      |PrintValue(items[k], depth, fmt)| + 2 + One(fmt) + ItemsBudget(items, k + 1, depth, fmt)
  {
  }

  lemma ItemsBudgetEnd(items: seq<Json>, depth: nat, fmt: bool)
    ensures ItemsBudget(items, |items|, depth, fmt) == 0
  {
  }

  lemma FirstItem(item: Item, depth: nat, fmt: bool)
    requires item.Valid() && item.tree.Array?
    ensures |item.children| == |item.tree.items|
    ensures item.child == if item.tree.items == [] then null else item.children[0]
    ensures Held([], item.tree.items, depth, fmt)
  {
  }

  lemma FirstMember(item: Item, depth: nat, fmt: bool)
    requires item.Valid() && item.tree.Object?
    ensures |item.children| == |item.tree.members|
    ensures item.child == if item.tree.members == [] then null else item.children[0]
    ensures HeldValues([], item.tree.members, depth, fmt) && HeldNames([], item.tree.members)
  {
  }

  lemma ArrayItem(item: Item, k: nat)
    requires item.Valid() && item.tree.Array? && WellFormed(item.tree) && k < |item.tree.items|
    ensures |item.children| == |item.tree.items|
    ensures var c, t := item.children[k], item.tree.items[k];
      c.tree == t && c.Valid() && WellFormed(t) && t < item.tree &&
      c.next == if k + 1 < |item.children| then item.children[k + 1] else null
  {
  }

  /** The loop of print_array that prints the items and adds up their lengths. */
  method CollectItems(item: Item, depth: nat, fmt: bool) returns (entries: seq<array<byte>>, len: nat)
    requires item.Valid() && item.tree.Array? && WellFormed(item.tree)
    ensures |entries| == |item.tree.items| && Held(entries, item.tree.items, depth + 1, fmt)
    ensures len == 5 + ItemsBudget(item.tree.items, 0, depth + 1, fmt)
    decreases item.tree, 0
  {
    hide *;
    ghost var items := item.tree.items;
    FirstItem(item, depth + 1, fmt);
    ItemsBudgetEnd(items, depth + 1, fmt);
    len := 5;
    entries := [];
    var child := item.child;
    ghost var k := 0;
    while child != null
      invariant k <= |items| && child == if k < |items| then item.children[k] else null
      invariant |entries| == k && Held(entries, items, depth + 1, fmt)
      invariant len + ItemsBudget(items, k, depth + 1, fmt) == 5 + ItemsBudget(items, 0, depth + 1, fmt)
      decreases |items| - k
    {
      ArrayItem(item, k);
      ItemsBudgetStep(items, k, depth + 1, fmt);
      var ret, n := PrintItem(child, depth + 1, fmt, items[k]);
      HeldMore(entries, items, depth + 1, fmt, ret);
      entries, len := entries + [ret], len + n;
      child := child.next;
      k := k + 1;
    }
  }

  method PrintItem(child: Item, depth: nat, fmt: bool, ghost t: Json) returns (ret: array<byte>, added: nat)
    requires child.Valid() && child.tree == t && WellFormed(t) && depth > 0
    ensures fresh(ret) && CStringIn(ret, PrintValue(t, depth, fmt))
    ensures added == |PrintValue(t, depth, fmt)| + 2 + One(fmt)
    decreases t, 4
  {
    hide PrintValue;
    ret := PrintValueOf(child, depth, fmt);
    var n := StrLen(ret, PrintValue(t, depth, fmt));
    added := n + 2 + One(fmt);
  }

  lemma Shift(whole: seq<byte>, before: seq<byte>, text: seq<byte>, rest: seq<byte>)
    requires before + (text + rest) == whole
    ensures before + text + rest == whole && |before| + |text| + |rest| == |whole|
  {
    assert before + text + rest == before + (text + rest);
  }

  /** What is still to be written of an array. */
  function ItemsRest(items: seq<Json>, i: nat, depth: nat, fmt: bool): seq<byte>
    requires i <= |items|
  {
    if i == |items| then [RBRACKET] else PrintItems(items, i, depth, fmt)
  }

  /** What one turn of the loop that puts the items together writes. */
  function ItemText(items: seq<Json>, i: nat, depth: nat, fmt: bool): seq<byte>
    requires i < |items|
  {
    PrintValue(items[i], depth, fmt) + if i + 1 == |items| then [] else Separator(fmt)
  }

  lemma ItemsRestStep(items: seq<Json>, i: nat, depth: nat, fmt: bool)
    requires i < |items|
    ensures ItemsRest(items, i, depth, fmt) == ItemText(items, i, depth, fmt) + ItemsRest(items, i + 1, depth, fmt)
  {
    hide PrintValue;
  }

  lemma ItemsRestEnd(items: seq<Json>, depth: nat, fmt: bool)
    ensures ItemsRest(items, |items|, depth, fmt) == [RBRACKET]
  {
  }

  method PutItem(out: array<byte>, at: nat, entry: array<byte>, last: bool, fmt: bool, ghost items: seq<Json>,
      ghost i: nat, ghost depth: nat)
    returns (ptr: nat)
    requires i < |items| && last == (i + 1 == |items|) && CStringIn(entry, PrintValue(items[i], depth, fmt)) &&
      out != entry
    requires at + |ItemText(items, i, depth, fmt)| < out.Length
    modifies out
    ensures ptr == at + |ItemText(items, i, depth, fmt)| &&
      out[..ptr] == old(out[..at]) + ItemText(items, i, depth, fmt)
  {
    hide PrintValue;
    ghost var text := PrintValue(items[i], depth, fmt);
    StrCpy(out, at, entry, text);
    var n := StrLen(entry, text);
    ptr := at + n;
    if !last {
      out[ptr] := COMMA;
      ptr := ptr + 1;
      if fmt {
        out[ptr] := SP;
        ptr := ptr + 1;
      }
      out[ptr] := 0;
    }
  }

  method ComposeItem(out: array<byte>, at: nat, entries: seq<array<byte>>, i: nat, depth: nat, fmt: bool,
                     ghost items: seq<Json>, ghost whole: seq<byte>)
    returns (ptr: nat)
    requires i < |entries| == |items| && at <= |whole| < out.Length && Held(entries, items, depth, fmt) &&
      out !in entries
    requires out[..at] + ItemsRest(items, i, depth, fmt) == whole
    modifies out
    ensures ptr <= |whole| && out[..ptr] + ItemsRest(items, i + 1, depth, fmt) == whole
  {
    assert CStringIn(entries[i], PrintValue(items[i], depth, fmt));
    hide *;
    ghost var before, text, rest := out[..at], ItemText(items, i, depth, fmt), ItemsRest(items, i + 1, depth, fmt);
    ItemsRestStep(items, i, depth, fmt);
    Shift(whole, before, text, rest);
    ptr := PutItem(out, at, entries[i], i == |entries| - 1, fmt, items, i, depth);
  }

  method ComposeArray(entries: seq<array<byte>>, len: nat, depth: nat, fmt: bool, ghost items: seq<Json>)
    returns (out: array<byte>)
    requires items != [] && |entries| == |items| && Held(entries, items, depth + 1, fmt)
    requires |PrintValue(Array(items), depth, fmt)| < len && NulFree(PrintValue(Array(items), depth, fmt))
    ensures fresh(out) && CStringIn(out, PrintValue(Array(items), depth, fmt))
  {
    ghost var whole := PrintValue(Array(items), depth, fmt);
    assert whole == [LBRACKET] + ItemsRest(items, 0, depth + 1, fmt);
    hide PrintValue, ItemsRest, ItemText, NulFree;
    out := new byte[len];
    out[0] := LBRACKET;
    var ptr: nat, i := 1, 0;
    out[ptr] := 0;
    assert out[..ptr] == [LBRACKET];
    while i < |entries|
      invariant i <= |entries| && Held(entries, items, depth + 1, fmt)
      invariant ptr <= |whole| && out[..ptr] + ItemsRest(items, i, depth + 1, fmt) == whole
    {
      ptr := ComposeItem(out, ptr, entries, i, depth + 1, fmt, items, whole);
      i := i + 1;
    }
    ItemsRestEnd(items, depth + 1, fmt);
    ghost var before := out[..ptr];
    out[ptr] := RBRACKET;
    out[ptr + 1] := 0;
    assert out[..ptr + 1] == before + [RBRACKET] == whole;
  }

  /** print_object. */
  method PrintObjectOf(item: Item, depth: nat, fmt: bool) returns (out: array<byte>)
    requires item.Valid() && item.tree.Object? && WellFormed(item.tree)
    requires fmt && depth == 0 ==> item.tree != Object([])
    ensures fresh(out) && CStringIn(out, PrintValue(item.tree, depth, fmt))
    decreases item.tree, 2
  {
    ObjectItem(item);
    hide *;
    var numentries := CountChildren(item.child, item.children);
    if numentries == 0 {
      EmptyFits(depth, fmt);
      EmptyText(depth, fmt);
      out := PrintEmptyObject(depth, fmt);
    } else {
      out := PrintMembersOf(item, depth, fmt);
    }
  }

  lemma ObjectItem(item: Item)
    requires item.Valid() && item.tree.Object?
    ensures |item.children| == |item.tree.members| && Chained(item.child, item.children)
    ensures item.children == [] ==> item.tree == Object([])
  {
  }

  /** The part of print_object behind the case of no members. */
  method PrintMembersOf(item: Item, depth: nat, fmt: bool) returns (out: array<byte>)
    requires item.Valid() && item.tree.Object? && WellFormed(item.tree) && item.tree.members != []
    ensures fresh(out) && CStringIn(out, PrintValue(item.tree, depth, fmt))
    decreases item.tree, 1
  {
    hide *;
    ghost var members := item.tree.members;
    PrintNulFree(item.tree, depth, fmt);
    ObjectFits(members, depth, fmt);
    var names, entries, len := CollectMembers(item, depth + 1, fmt);
    out := ComposeObject(names, entries, len, depth + 1, fmt, members);
  }

  lemma EmptyText(depth: nat, fmt: bool)
    ensures PrintValue(Object([]), depth, fmt) == PrintEmpty(depth, fmt)
  {
  }

  /** The tabs that print_object writes, one by one. */
  method PutTabs(out: array<byte>, at: nat, n: int) returns (ptr: nat)
    requires at + (if n > 0 then n else 0) <= out.Length
    modifies out
    ensures ptr == at + (if n > 0 then n else 0) && out[..ptr] == old(out[..at]) + Tabs(if n > 0 then n else 0)
  {
    ptr := at;
    var j := 0;
    while j < n
      invariant 0 <= j && (n > 0 ==> j <= n) && (n <= 0 ==> j == 0)
      invariant ptr == at + j && out[..ptr] == old(out[..at]) + Tabs(j)
    {
      out[ptr] := HT;
      ptr := ptr + 1;
      j := j + 1;
    }
  }

  method PrintEmptyObject(depth: nat, fmt: bool) returns (out: array<byte>)
    requires |PrintEmpty(depth, fmt)| + 1 <= if fmt then depth + 3 else 3
    ensures fresh(out) && CStringIn(out, PrintEmpty(depth, fmt))
  {
    out := new byte[if fmt then depth + 3 else 3];
    out[0] := LBRACE;
    var ptr := 1;
    if fmt {
      out[1] := LF;
      ptr := PutTabs(out, 2, depth - 1);
    }
    out[ptr] := RBRACE;
    out[ptr + 1] := 0;
    assert out[..ptr + 1] == PrintEmpty(depth, fmt);
  }

  /** The loop of print_object that prints names and values and adds up their lengths; depth is
      that of the members. */
  method CollectMembers(item: Item, depth: nat, fmt: bool)
    returns (names: seq<array<byte>>, entries: seq<array<byte>>, len: nat)
    requires item.Valid() && item.tree.Object? && WellFormed(item.tree) && depth > 0
    ensures var members := item.tree.members;
      |names| == |entries| == |members| && HeldNames(names, members) && HeldValues(entries, members, depth, fmt) &&
      len == 7 + (if fmt then depth else 0) + MembersBudget(members, 0, depth, fmt)
    decreases item.tree, 0
  {
    hide *;
    ghost var members := item.tree.members;
    FirstMember(item, depth, fmt);
    len := 7 + if fmt then depth else 0;
    names, entries := [], [];
    MembersBudgetEnd(members, depth, fmt);
    var child := item.child;
    ghost var k := 0;
    while child != null
      invariant k <= |members| && child == if k < |members| then item.children[k] else null
      invariant |names| == |entries| == k && HeldNames(names, members) && HeldValues(entries, members, depth, fmt)
      invariant len + MembersBudget(members, k, depth, fmt) ==
        7 + (if fmt then depth else 0) + MembersBudget(members, 0, depth, fmt)
      decreases |members| - k
    {
      MemberItem(item, k);
      MembersBudgetStep(members, k, depth, fmt);
      var n;
      names, entries, n := CollectMember(child, depth, fmt, names, entries, members, item.below);
      len := len + n;
      child := child.next;
      k := k + 1;
    }
  }

  lemma MembersBudgetStep(members: seq<Member>, k: nat, depth: nat, fmt: bool)
    requires k < |members|
    ensures MembersBudget(members, k, depth, fmt) ==
      |PrintValue(members[k].value, depth, fmt)| + |PrintString(members[k].name)| + 2 + (if fmt then 2 + depth else 0) +
      MembersBudget(members, k + 1, depth, fmt)
  {
  }

  lemma MembersBudgetEnd(members: seq<Member>, depth: nat, fmt: bool)
    ensures MembersBudget(members, |members|, depth, fmt) == 0
  {
  }

  lemma MemberItem(item: Item, k: nat)
    requires item.Valid() && item.tree.Object? && WellFormed(item.tree) && k < |item.tree.members|
    ensures |item.children| == |item.tree.members|
    ensures var c, m := item.children[k], item.tree.members[k];
      c.tree == m.value && c.Valid() && NamedBy(c, m.name, item.below) && WellFormed(m.value) &&
      c.next == (if k + 1 < |item.children| then item.children[k + 1] else null) && m.value < item.tree
  {
  }

  /** One turn of that loop. */
  method CollectMember(child: Item, depth: nat, fmt: bool, names: seq<array<byte>>, entries: seq<array<byte>>,
                       ghost members: seq<Member>, ghost owned: set<object>)
    returns (names': seq<array<byte>>, entries': seq<array<byte>>, added: nat)
    requires |names| == |entries| < |members| && HeldNames(names, members) &&
      HeldValues(entries, members, depth, fmt) && depth > 0
    requires var m := members[|names|];
      child.Valid() && child.tree == m.value && NamedBy(child, m.name, owned) && WellFormed(m.value)
    ensures |names'| == |entries'| == |names| + 1 && HeldNames(names', members) &&
      HeldValues(entries', members, depth, fmt)
    ensures var m := members[|names|];
      added == |PrintValue(m.value, depth, fmt)| + |PrintString(m.name)| + 2 + if fmt then 2 + depth else 0
    decreases child.tree, 5
  {
    hide *;
    var str, ret;
    str, ret, added := PrintMember(child, depth, fmt, members[|names|], owned);
    HeldValuesMore(entries, members, depth, fmt, ret);
    HeldNamesMore(names, members, str);
    names', entries' := names + [str], entries + [ret];
  }

  method PrintMember(child: Item, depth: nat, fmt: bool, ghost m: Member, ghost owned: set<object>)
    returns (str: array<byte>, ret: array<byte>, added: nat)
    requires child.Valid() && child.tree == m.value && NamedBy(child, m.name, owned) && WellFormed(m.value) && depth > 0
    ensures fresh(str) && CStringIn(str, PrintString(m.name)) && fresh(ret) &&
      CStringIn(ret, PrintValue(m.value, depth, fmt))
    ensures added == |PrintValue(m.value, depth, fmt)| + |PrintString(m.name)| + 2 + if fmt then 2 + depth else 0
    decreases m.value, 4
  {
    hide PrintValue, PrintString;
    str := PrintCString(child.name, m.name);
    ret := PrintValueOf(child, depth, fmt);
    var n := StrLen(ret, PrintValue(m.value, depth, fmt));
    var k := StrLen(str, PrintString(m.name));
    added := n + k + 2 + if fmt then 2 + depth else 0;
  }

  /** What one turn of the loop that puts the members together writes. */
  function MemberText(m: Member, last: bool, depth: nat, fmt: bool): seq<byte> {
    PrintName(m.name, depth, fmt) + PrintValue(m.value, depth, fmt) + (if last then [] else [COMMA]) + If(fmt, [LF])
  }

  method PutMember(out: array<byte>, at: nat, name: array<byte>, entry: array<byte>, last: bool, depth: nat, fmt: bool,
      ghost m: Member)
    returns (ptr: nat)
    requires CStringIn(name, PrintString(m.name)) && CStringIn(entry, PrintValue(m.value, depth, fmt)) &&
      out != name && out != entry
    requires at + |MemberText(m, last, depth, fmt)| < out.Length
    modifies out
    ensures ptr == at + |MemberText(m, last, depth, fmt)| &&
      out[..ptr] == old(out[..at]) + MemberText(m, last, depth, fmt)
  {
    hide PrintValue, PrintString, PrintName, NulFree, CStringIn;
    ghost var text, value := PrintName(m.name, depth, fmt), PrintValue(m.value, depth, fmt);
    ptr := PutName(out, at, name, depth, fmt, m.name);
    ghost var before := out[..ptr];
    StrCpy(out, ptr, entry, value);
    var n := StrLen(entry, value);
    ptr := PutEnding(out, ptr + n, last, fmt);
    assert out[..ptr] == before + value + (if last then [] else [COMMA]) + If(fmt, [LF]);
  }

  /** What stands behind a member. */
  method PutEnding(out: array<byte>, at: nat, last: bool, fmt: bool) returns (ptr: nat)
    requires at + |Ending(last, fmt)| < out.Length
    modifies out
    ensures ptr == at + |Ending(last, fmt)| && out[..ptr] == old(out[..at]) + Ending(last, fmt) && out[ptr] == 0
  {
    ptr := at;
    if !last {
      out[ptr] := COMMA;
      ptr := ptr + 1;
    }
    if fmt {
      out[ptr] := LF;
      ptr := ptr + 1;
    }
    out[ptr] := 0;
  }

  function Ending(last: bool, fmt: bool): seq<byte> {
    (if last then [] else [COMMA]) + If(fmt, [LF])
  }

  method PutName(out: array<byte>, at: nat, name: array<byte>, depth: nat, fmt: bool, ghost text: seq<byte>)
    returns (ptr: nat)
    requires CStringIn(name, PrintString(text)) && out != name && at + |PrintName(text, depth, fmt)| < out.Length
    modifies out
    ensures ptr == at + |PrintName(text, depth, fmt)| && out[..ptr] == old(out[..at]) + PrintName(text, depth, fmt)
  {
    NameIs(text, depth, fmt);
    hide *;
    ghost var q := PrintString(text);
    ptr := PutIndent(out, at, depth, fmt);
    StrCpy(out, ptr, name, q);
    var n := StrLen(name, q);
    ptr := ptr + n;
    ptr := PutColon(out, ptr, fmt);
    Regroup(old(out[..at]), If(fmt, Tabs(depth)), q, [COLON], If(fmt, [HT]));
  }

  method PutIndent(out: array<byte>, at: nat, depth: nat, fmt: bool) returns (ptr: nat)
    requires at + |If(fmt, Tabs(depth))| <= out.Length
    modifies out
    ensures ptr == at + |If(fmt, Tabs(depth))| && out[..ptr] == old(out[..at]) + If(fmt, Tabs(depth))
  {
    ptr := at;
    if fmt {
      ptr := PutTabs(out, ptr, depth);
    }
  }

  method PutColon(out: array<byte>, at: nat, fmt: bool) returns (ptr: nat)
    requires at + 1 + |If(fmt, [HT])| <= out.Length
    modifies out
    ensures ptr == at + 1 + |If(fmt, [HT])| && out[..ptr] == old(out[..at]) + [COLON] + If(fmt, [HT])
  {
    out[at] := COLON;
    ptr := at + 1;
    if fmt {
      out[ptr] := HT;
      ptr := ptr + 1;
    }
  }

  lemma Regroup(o: seq<byte>, a: seq<byte>, b: seq<byte>, c: seq<byte>, d: seq<byte>)
    ensures o + a + b + c + d == o + (a + b + c + d)
  {
  }

  /** What is still to be written of an object. */
  function MembersRest(members: seq<Member>, i: nat, depth: nat, fmt: bool): seq<byte>
    requires i <= |members| && depth > 0
  {
    if i == |members| then If(fmt, Tabs(depth - 1)) + [RBRACE] else PrintMembers(members, i, depth, fmt)
  }

  lemma MembersRestStep(members: seq<Member>, i: nat, depth: nat, fmt: bool)
    requires i < |members| && depth > 0
    ensures MembersRest(members, i, depth, fmt) ==
      MemberText(members[i], i + 1 == |members|, depth, fmt) + MembersRest(members, i + 1, depth, fmt)
  {
    MembersIs(members, i, depth, fmt);
    hide PrintMembers, PrintName, PrintValue, If, Tabs;
    var last := i + 1 == |members|;
    var comma: seq<byte> := if last then [] else [COMMA];
    assert AfterMember(members, i, depth, fmt) == comma + If(fmt, [LF]) + MembersRest(members, i + 1, depth, fmt);
    hide AfterMember, MembersRest;
    RegroupMember(PrintName(members[i].name, depth, fmt) + PrintValue(members[i].value, depth, fmt), comma,
      If(fmt, [LF]),
                  MembersRest(members, i + 1, depth, fmt));
    assert MembersRest(members, i, depth, fmt) == PrintMembers(members, i, depth, fmt)
      by { RestIs(members, i, depth, fmt); }
  }

  lemma RestIs(members: seq<Member>, i: nat, depth: nat, fmt: bool)
    requires i < |members| && depth > 0
    ensures MembersRest(members, i, depth, fmt) == PrintMembers(members, i, depth, fmt)
  {
    hide PrintMembers;
  }

  lemma RegroupMember(o: seq<byte>, a: seq<byte>, b: seq<byte>, c: seq<byte>)
    ensures o + (a + b + c) == o + a + b + c
  {
  }

  method OpenObject(len: nat, fmt: bool) returns (out: array<byte>, ptr: nat)
    requires len > 1 + |If(fmt, [LF])|
    ensures fresh(out) && out.Length == len && ptr < len && out[..ptr] == [LBRACE] + If(fmt, [LF])
  {
    out := new byte[len];
    out[0] := LBRACE;
    ptr := 1;
    if fmt {
      out[ptr] := LF;
      ptr := ptr + 1;
    }
    out[ptr] := 0;
  }

  /** One turn of the loop that puts the members together. */
  method ComposeMember(out: array<byte>, at: nat, names: seq<array<byte>>, entries: seq<array<byte>>, i: nat,
      depth: nat, fmt: bool,
                       ghost members: seq<Member>, ghost whole: seq<byte>)
    returns (ptr: nat)
    requires i < |names| == |entries| == |members| && depth > 0 && at <= |whole| < out.Length
    requires HeldNames(names, members) && HeldValues(entries, members, depth, fmt) && out !in names && out !in entries
    requires out[..at] + MembersRest(members, i, depth, fmt) == whole
    modifies out
    ensures ptr <= |whole| && out[..ptr] + MembersRest(members, i + 1, depth, fmt) == whole
  {
    hide *;
    ghost var before, text, rest := out[..at], MemberText(members[i], i + 1 == |members|, depth, fmt),
      MembersRest(members, i + 1, depth, fmt);
    MembersRestStep(members, i, depth, fmt);
    Shift(whole, before, text, rest);
    HeldAt(names, entries, members, depth, fmt, i);
    ptr := PutMember(out, at, names[i], entries[i], i == |entries| - 1, depth, fmt, members[i]);
  }

  lemma ObjectText(members: seq<Member>, depth: nat, fmt: bool)
    requires members != [] && depth > 0
    ensures PrintValue(Object(members), depth - 1, fmt) ==
      [LBRACE] + If(fmt, [LF]) + MembersRest(members, 0, depth, fmt)
    ensures 1 + |If(fmt, [LF])| <= |PrintValue(Object(members), depth - 1, fmt)|
  {
    hide PrintMembers;
  }

  method ComposeObject(names: seq<array<byte>>, entries: seq<array<byte>>, len: nat, depth: nat, fmt: bool,
      ghost members: seq<Member>)
    returns (out: array<byte>)
    requires members != [] && |names| == |entries| == |members| && depth > 0
    requires HeldNames(names, members) && HeldValues(entries, members, depth, fmt)
    requires |PrintValue(Object(members), depth - 1, fmt)| < len && NulFree(PrintValue(Object(members), depth - 1, fmt))
    ensures fresh(out) && CStringIn(out, PrintValue(Object(members), depth - 1, fmt))
  {
    hide *;
    ObjectText(members, depth, fmt);
    ghost var whole := PrintValue(Object(members), depth - 1, fmt);
    var ptr: nat;
    out, ptr := OpenObject(len, fmt);
    var i := 0;
    while i < |entries|
      invariant i <= |entries| && HeldNames(names, members) && HeldValues(entries, members, depth, fmt)
      invariant ptr <= |whole| && out[..ptr] + MembersRest(members, i, depth, fmt) == whole
    {
      ptr := ComposeMember(out, ptr, names, entries, i, depth, fmt, members, whole);
      i := i + 1;
    }
    CloseObject(out, ptr, depth, fmt, members);
  }

  /** The closing brace, behind its tabs. */
  method CloseObject(out: array<byte>, at: nat, depth: nat, fmt: bool, ghost members: seq<Member>)
    requires depth > 0 && at + |MembersRest(members, |members|, depth, fmt)| < out.Length
    requires NulFree(out[..at] + MembersRest(members, |members|, depth, fmt))
    modifies out
    ensures CStringIn(out, old(out[..at]) + MembersRest(members, |members|, depth, fmt))
  {
    var ptr := at;
    if fmt {
      ptr := PutTabs(out, ptr, depth - 1);
    }
    ghost var before := out[..ptr];
    out[ptr] := RBRACE;
    out[ptr + 1] := 0;
    assert out[..ptr + 1] == before + [RBRACE];
    assert out[..ptr + 1] == old(out[..at]) + MembersRest(members, |members|, depth, fmt);
  }
}
