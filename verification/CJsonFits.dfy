/** The lengths that the printer of cJSON computes before it fills its buffers are enough, and
    what it prints is a C string. */
module CJsonFits {
  import opened Bytes
  import opened CJson

  // ---------- no zero bytes ----------

  lemma NulFreeConcat(a: seq<byte>, b: seq<byte>)
    requires NulFree(a) && NulFree(b)
    ensures NulFree(a + b)
  {
  }

  lemma {:induction false} DecimalNulFree(n: nat)
    ensures NulFree(DecimalText(n))
  {
    if n >= 10 {
      DecimalNulFree(n / 10);
    }
  }

  lemma {:induction false} EscapedNulFree(s: seq<byte>, i: nat)
    requires i <= |s| && NulFree(s)
    ensures NulFree(EscapedFrom(s, i))
    decreases |s| - i
  {
    if i < |s| {
      assert NulFree(Escaped(s[i]));
      EscapedNulFree(s, i + 1);
    }
  }

  lemma PrintStringNulFree(s: seq<byte>)
    requires NulFree(s)
    ensures NulFree(PrintString(s))
  {
    EscapedNulFree(s, 0);
  }

  lemma PrintNameNulFree(name: seq<byte>, depth: nat, fmt: bool)
    requires NulFree(name)
    ensures NulFree(PrintName(name, depth, fmt))
  {
    PrintStringNulFree(name);
    hide PrintString;
  }

  /** A printed value is a C string. */
  lemma {:induction false} PrintNulFree(t: Json, depth: nat, fmt: bool)
    requires WellFormed(t)
    ensures NulFree(PrintValue(t, depth, fmt))
    decreases t, 0
  {
    match t
    case Null =>
    case False =>
    case True =>
    case Number(n) => DecimalNulFree(if n < 0 then -n else n);
    case String(text) => PrintStringNulFree(text);
    case Array(items) =>
      if items != [] {
        ItemsNulFree(items, 0, depth + 1, fmt);
      }
    case Object(members) =>
      if members != [] {
        MembersNulFree(members, 0, depth + 1, fmt);
      }
  }

  lemma {:induction false} ItemsNulFree(items: seq<Json>, i: nat, depth: nat, fmt: bool)
    requires i < |items| && WellFormed(Array(items))
    ensures NulFree(PrintItems(items, i, depth, fmt))
    decreases items, |items| - i
  {
    PrintNulFree(items[i], depth, fmt);
    if i + 1 < |items| {
      ItemsNulFree(items, i + 1, depth, fmt);
    }
  }

  lemma {:induction false} MembersNulFree(members: seq<Member>, i: nat, depth: nat, fmt: bool)
    requires i < |members| && depth > 0 && WellFormed(Object(members))
    ensures NulFree(PrintMembers(members, i, depth, fmt))
    decreases members, |members| - i
  {
    PrintNulFree(members[i].value, depth, fmt);
    PrintNameNulFree(members[i].name, depth, fmt);
    var head := PrintName(members[i].name, depth, fmt) + PrintValue(members[i].value, depth, fmt);
    assert NulFree(head) by { hide PrintName, PrintValue; }
    assert NulFree(If(fmt, [LF]) + If(fmt, Tabs(depth - 1)) + [RBRACE]) && NulFree([COMMA] + If(fmt, [LF]));
    if i + 1 < |members| {
      MembersNulFree(members, i + 1, depth, fmt);
      var rest := PrintMembers(members, i + 1, depth, fmt);
      assert PrintMembers(members, i, depth, fmt) == head + ([COMMA] + If(fmt, [LF]) + rest);
      hide *;
      NulFreeConcat([COMMA] + If(fmt, [LF]), rest);
      NulFreeConcat(head, [COMMA] + If(fmt, [LF]) + rest);
    } else {
      assert PrintMembers(members, i, depth, fmt) == head + (If(fmt, [LF]) + If(fmt, Tabs(depth - 1)) + [RBRACE]);
      hide *;
      NulFreeConcat(head, If(fmt, [LF]) + If(fmt, Tabs(depth - 1)) + [RBRACE]);
    }
  }

  // ---------- lengths ----------

  function One(fmt: bool): nat {
    if fmt then 1 else 0
  }

  /** What print_array adds to its length for the items from i on. */
  function ItemsBudget(items: seq<Json>, i: nat, depth: nat, fmt: bool): nat
    requires i <= |items|
    decreases |items| - i
  {
    if i == |items| then 0
    else |PrintValue(items[i], depth, fmt)| + 2 + One(fmt) + ItemsBudget(items, i + 1, depth, fmt)
  }

  /** What print_object adds to its length for the members from i on; depth is one more than the
      depth of the object. */
  function MembersBudget(members: seq<Member>, i: nat, depth: nat, fmt: bool): nat
    requires i <= |members|
    decreases |members| - i
  {
    if i == |members| then 0
    else
      |PrintValue(members[i].value, depth, fmt)| + |PrintString(members[i].name)| + 2 +
      (if fmt then 2 + depth else 0) +
      MembersBudget(members, i + 1, depth, fmt)
  }

  lemma {:induction false} ItemsFit(items: seq<Json>, i: nat, depth: nat, fmt: bool)
    requires i < |items|
    ensures |PrintItems(items, i, depth, fmt)| <= ItemsBudget(items, i, depth, fmt)
    decreases |items| - i
  {
    if i + 1 < |items| {
      ItemsFit(items, i + 1, depth, fmt);
    } else {
      assert ItemsBudget(items, i + 1, depth, fmt) == 0;
    }
  }

  /** print_array: 5 and the sum over the items hold the text and its terminator. */
  lemma ArrayFits(items: seq<Json>, depth: nat, fmt: bool)
    requires items != []
    ensures |PrintValue(Array(items), depth, fmt)| + 1 <= 5 + ItemsBudget(items, 0, depth + 1, fmt)
  {
    ItemsFit(items, 0, depth + 1, fmt);
  }

  lemma {:induction false} MembersFit(members: seq<Member>, i: nat, depth: nat, fmt: bool)
    requires i < |members| && depth > 0
    ensures |PrintMembers(members, i, depth, fmt)| <=
      MembersBudget(members, i, depth, fmt) + if fmt then depth - 1 else 0
    decreases |members| - i
  {
    assert |PrintName(members[i].name, depth, fmt)| ==
      |PrintString(members[i].name)| + 1 + if fmt then depth + 1 else 0;
    hide PrintValue, PrintString, PrintName;
    if i + 1 < |members| {
      MembersFit(members, i + 1, depth, fmt);
    } else {
      assert MembersBudget(members, i + 1, depth, fmt) == 0;
    }
  }

  /** print_object: 7, the depth of the members if formatted, and the sum over them hold the text
      and its terminator. */
  lemma ObjectFits(members: seq<Member>, depth: nat, fmt: bool)
    requires members != []
    ensures |PrintValue(Object(members), depth, fmt)| + 1 <=
              7 + (if fmt then depth + 1 else 0) + MembersBudget(members, 0, depth + 1, fmt)
  {
    MembersFit(members, 0, depth + 1, fmt);
  }

  /** The buffer of an object without members is long enough unless it is formatted at depth 0. */
  lemma EmptyFits(depth: nat, fmt: bool)
    ensures |PrintEmpty(depth, fmt)| + 1 <= (if fmt then depth + 3 else 3) <==> !fmt || depth > 0
  {
  }

  lemma {:induction false} DecimalLength(n: nat, k: nat, p: nat)
    requires n < p && p == PowerOfTen(k) && k > 0
    ensures |DecimalText(n)| <= k
    decreases k
  {
    if n >= 10 {
      DecimalLength(n / 10, k - 1, p / 10);
    }
  }

  function PowerOfTen(k: nat): nat {
    if k == 0 then 1 else 10 * PowerOfTen(k - 1)
  }

  /** Any 32-bit integer fits the 21 bytes of print_number. */
  lemma NumberFits(n: int)
    requires INT_MIN <= n <= INT_MAX
    ensures |PrintNumber(n)| < 21
  {
    assert PowerOfTen(2) == 100 && PowerOfTen(4) == 100 * PowerOfTen(2) && PowerOfTen(6) == 100 * PowerOfTen(4);
    assert PowerOfTen(8) == 100 * PowerOfTen(6) && PowerOfTen(10) == 100 * PowerOfTen(8);
    DecimalLength(if n < 0 then -n else n, 10, PowerOfTen(10));
  }
}
