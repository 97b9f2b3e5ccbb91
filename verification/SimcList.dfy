/** SimCList: a doubly linked list between two sentinels, with a pointer to its middle node and a
    small store of spare nodes. */
module SimcList {
  /** The void pointers the list holds. */
  type Data = int

  const NULL: Data := 0
  const MAX_SPARE_ELEMS := 5

  // ---------- sequences ----------

  function Inserted<T>(s: seq<T>, k: nat, x: T): (r: seq<T>)
    requires k <= |s|
    ensures |r| == |s| + 1
  {
    s[..k] + [x] + s[k..]
  }

  /** s without its elements from a up to b. */
  function Cut<T>(s: seq<T>, a: nat, b: nat): (r: seq<T>)
    requires a <= b <= |s|
    ensures |r| == |s| - (b - a)
  {
    s[..a] + s[b..]
  }

  /** The store of spare nodes after more nodes were offered to it, in order. */
  function Kept<T>(spares: seq<T>, more: seq<T>): (r: seq<T>)
    requires |spares| <= MAX_SPARE_ELEMS
    ensures |spares| <= |r| <= MAX_SPARE_ELEMS && |r| <= |spares| + |more|
  {
    if |spares| + |more| <= MAX_SPARE_ELEMS then spares + more
    else spares + more[..MAX_SPARE_ELEMS - |spares|]
  }

  /** The index in s of the i-th element that a cut leaves. */
  function CutIndex(a: nat, b: nat, i: nat): nat
    requires a <= b
  {
    if i < a then i else i + (b - a)
  }

  lemma CutAt<T>(s: seq<T>, a: nat, b: nat)
    requires a <= b <= |s|
    ensures forall i :: 0 <= i < |s| - (b - a) ==> Cut(s, a, b)[i] == s[CutIndex(a, b, i)]
  {
  }

  lemma InsertedAt<T>(s: seq<T>, k: nat, x: T)
    requires k <= |s|
    ensures forall i :: 0 <= i < k ==> Inserted(s, k, x)[i] == s[i]
    ensures Inserted(s, k, x)[k] == x
    ensures forall i :: k <= i < |s| ==> Inserted(s, k, x)[i + 1] == s[i]
  {
  }

  // ---------- chains of nodes ----------

  class Entry {
    var data: Data
    var next: Entry?
    var prev: Entry?
    constructor ()
      ensures next == null && prev == null
    {
      data, next, prev := NULL, null, null;
    }
  }

  ghost predicate Distinct(s: seq<Entry>) {
    forall i, j :: 0 <= i < j < |s| ==> s[i] != s[j]
  }

  /** Links mutually inverse along the chain, open at both ends. */
  ghost predicate Linked(chain: seq<Entry>)
    reads chain`next, chain`prev
  {
    |chain| >= 2 && chain[0].prev == null && chain[|chain| - 1].next == null &&
    (forall i {:trigger chain[i].next} :: 0 <= i < |chain| - 1 ==> chain[i].next == chain[i + 1]) &&
    (forall i {:trigger chain[i].prev} :: 1 <= i < |chain| ==> chain[i].prev == chain[i - 1])
  }

  /** The data of the first n nodes behind the head. */
  ghost function DataOf(chain: seq<Entry>, n: nat): (s: seq<Data>)
    requires n < |chain|
    reads chain`data
    ensures |s| == n
    ensures forall i :: 0 <= i < n ==> s[i] == chain[i + 1].data
  {
    if n == 0 then [] else DataOf(chain, n - 1) + [chain[n].data]
  }

  /** The node in the middle of a chain, null when there is none. */
  ghost function Middle(chain: seq<Entry>): Entry?
    requires |chain| >= 2
  {
    if |chain| == 2 then null else chain[(|chain| - 3) / 2 + 1]
  }

  ghost predicate GoodSpares(s: seq<Entry?>, chain: seq<Entry>, repr: set<object>) {
    (forall i :: 0 <= i < |s| ==> s[i] != null && s[i] !in chain && s[i] in repr) &&
    (forall i, j :: 0 <= i < j < |s| ==> s[i] != s[j])
  }

  /** A node linked in between the nodes k-1 and k of a chain. */
  lemma InsertedLinked(c: seq<Entry>, k: nat, x: Entry)
    requires 1 <= k < |c| && c[0].prev == null && c[|c| - 1].next == null
    requires forall i {:trigger c[i].next} :: 0 <= i < |c| - 1 && i != k - 1 ==> c[i].next == c[i + 1]
    requires forall i {:trigger c[i].prev} :: 1 <= i < |c| && i != k ==> c[i].prev == c[i - 1]
    requires c[k - 1].next == x && x.prev == c[k - 1] && x.next == c[k] && c[k].prev == x
    ensures Linked(Inserted(c, k, x))
  {
    var r := Inserted(c, k, x);
    forall i | 0 <= i < |r| - 1
      ensures r[i].next == r[i + 1]
    {
      if i < k - 1 {
        assert r[i] == c[i];
      } else if i > k {
        assert r[i] == c[i - 1];
      }
    }
    forall i | 1 <= i < |r|
      ensures r[i].prev == r[i - 1]
    {
      if i < k {
        assert r[i] == c[i];
      } else if i > k + 1 {
        assert r[i] == c[i - 1];
      }
    }
  }

  lemma InsertedNodes(c: seq<Entry>, k: nat, x: Entry, repr: set<object>)
    requires 1 <= k < |c| && Distinct(c) && x !in c && x in repr && forall e :: e in c ==> e in repr
    ensures var r := Inserted(c, k, x);
      Distinct(r) && (forall e :: e in r ==> e in repr) && r[0] == c[0] && r[|r| - 1] == c[|c| - 1]
  {
  }

  lemma InsertedDatum(c: seq<Entry>, k: nat, x: Entry, i: nat)
    requires 1 <= k < |c| && i < |c| - 1
    ensures DataOf(Inserted(c, k, x), |c| - 1)[i] == Inserted(DataOf(c, |c| - 2), k - 1, x.data)[i]
  {
    InsertedAt(c, k, x);
    var r, s := Inserted(c, k, x), DataOf(c, |c| - 2);
    InsertedAt(s, k - 1, x.data);
    hide Inserted, DataOf;
    assert DataOf(r, |c| - 1)[i] == r[i + 1].data;
    if i >= k {
      assert r[i + 1] == c[i] && s[i - 1] == c[i].data && Inserted(s, k - 1, x.data)[i - 1 + 1] == s[i - 1];
    } else if i < k - 1 {
      assert r[i + 1] == c[i + 1] && s[i] == c[i + 1].data;
    }
  }

  lemma InsertedData(c: seq<Entry>, k: nat, x: Entry)
    requires 1 <= k < |c|
    ensures DataOf(Inserted(c, k, x), |c| - 1) == Inserted(DataOf(c, |c| - 2), k - 1, x.data)
  {
    hide Inserted, DataOf;
    var d, e := DataOf(Inserted(c, k, x), |c| - 1), Inserted(DataOf(c, |c| - 2), k - 1, x.data);
    forall i | 0 <= i < |d|
      ensures d[i] == e[i]
    {
      InsertedDatum(c, k, x, i);
    }
  }

  /** The spare nodes stay good when another node joins the chain. */
  lemma SparesApart(s: seq<Entry?>, c: seq<Entry>, k: nat, x: Entry, repr: set<object>)
    requires k <= |c| && x !in s && GoodSpares(s, c, repr)
    ensures GoodSpares(s, Inserted(c, k, x), repr)
  {
  }

  lemma SparesFewer(s: seq<Entry?>, c: seq<Entry>, repr: set<object>)
    requires GoodSpares(s, c, repr)
    ensures s != [] ==> GoodSpares(s[..|s| - 1], c, repr)
    ensures s != [] ==> s[|s| - 1] != null && s[|s| - 1] in repr && s[|s| - 1] !in c && s[|s| - 1] !in s[..|s| - 1]
  {
  }

  /** A chain whose a-th link jumps to node b, seen without the nodes in between. */
  lemma CutLinked(c: seq<Entry>, a: nat, b: nat)
    requires 1 <= a <= b < |c| && c[0].prev == null && c[|c| - 1].next == null
    requires forall i {:trigger c[i].next} :: 0 <= i < |c| - 1 && i != a - 1 ==> c[i].next == c[i + 1]
    requires forall i {:trigger c[i].prev} :: 1 <= i < |c| && i != b ==> c[i].prev == c[i - 1]
    requires c[a - 1].next == c[b] && c[b].prev == c[a - 1]
    ensures Linked(Cut(c, a, b))
  {
    CutAt(c, a, b);
    hide Cut;
    var r := Cut(c, a, b);
    forall i | 0 <= i < |r| - 1
      ensures r[i].next == r[i + 1]
    {
      var j := CutIndex(a, b, i);
      assert r[i] == c[j] && r[i + 1] == c[if i == a - 1 then b else j + 1];
    }
    forall i | 1 <= i < |r|
      ensures r[i].prev == r[i - 1]
    {
      var j := CutIndex(a, b, i);
      assert r[i] == c[j] && r[i - 1] == c[if i == a then a - 1 else j - 1];
    }
    assert r[0] == c[0] && r[|r| - 1] == c[|c| - 1];
  }

  lemma CutNodes(c: seq<Entry>, a: nat, b: nat, repr: set<object>)
    requires 1 <= a <= b < |c| && Distinct(c) && forall e :: e in c ==> e in repr
    ensures var r := Cut(c, a, b);
      Distinct(r) && (forall e :: e in r ==> e in repr) && r[0] == c[0] && r[|r| - 1] == c[|c| - 1]
  {
    CutAt(c, a, b);
    hide Cut;
    var r := Cut(c, a, b);
    assert r[0] == c[0] && r[|r| - 1] == c[|c| - 1];
    forall i, j | 0 <= i < j < |r|
      ensures r[i] != r[j]
    {
      assert r[i] == c[CutIndex(a, b, i)] && r[j] == c[CutIndex(a, b, j)];
    }
    forall e | e in r
      ensures e in repr
    {
      var i :| 0 <= i < |r| && r[i] == e;
      assert r[i] == c[CutIndex(a, b, i)];
    }
  }

  lemma CutData(c: seq<Entry>, a: nat, b: nat)
    requires 1 <= a <= b < |c|
    ensures DataOf(Cut(c, a, b), |c| - (b - a) - 2) == Cut(DataOf(c, |c| - 2), a - 1, b - 1)
  {
    CutAt(c, a, b);
    CutAt(DataOf(c, |c| - 2), a - 1, b - 1);
    hide Cut, DataOf;
    var d := DataOf(Cut(c, a, b), |c| - (b - a) - 2);
    var e := Cut(DataOf(c, |c| - 2), a - 1, b - 1);
    forall i | 0 <= i < |d|
      ensures d[i] == e[i]
    {
      assert CutIndex(a, b, i + 1) == CutIndex(a - 1, b - 1, i) + 1;
    }
  }

  /** The middle of what a cut of the elements posstart to posend leaves. */
  lemma CutMiddle(c: seq<Entry>, posstart: nat, posend: nat)
    requires |c| >= 2 && posstart <= posend < |c| - 2 && posend - posstart + 1 < |c| - 2
    ensures var numdel := posend - posstart + 1;
      Middle(Cut(c, posstart + 1, posend + 2)) == c[CutIndex(posstart, posend + 1, (|c| - 3 - numdel) / 2) + 1]
  {
    CutAt(c, posstart + 1, posend + 2);
  }

  lemma KeptAt<T>(s: seq<T>, more: seq<T>)
    requires |s| <= MAX_SPARE_ELEMS
    ensures forall i :: 0 <= i < |Kept(s, more)| ==> Kept(s, more)[i] == if i < |s| then s[i] else more[i - |s|]
  {
  }

  lemma CutRest(c: seq<Entry>, a: nat, b: nat, i: nat)
    requires a <= i < b <= |c| && Distinct(c)
    ensures c[i] !in Cut(c, a, b)
  {
  }

  /** Nodes cut out of the chain may be offered to the store of spare nodes. */
  lemma KeptGood(s: seq<Entry?>, c: seq<Entry>, a: nat, b: nat, repr: set<object>)
    requires a <= b <= |c| && Distinct(c) && forall e :: e in c ==> e in repr
    requires |s| <= MAX_SPARE_ELEMS && GoodSpares(s, c, repr)
    ensures GoodSpares(Kept(s, c[a..b]), Cut(c, a, b), repr)
  {
    var k, r := Kept(s, c[a..b]), Cut(c, a, b);
    KeptAt(s, c[a..b]);
    assert forall e :: e in r ==> e in c;
    hide Kept, Cut;
    forall i | 0 <= i < |k|
      ensures k[i] != null && k[i] !in r && k[i] in repr
    {
      if i >= |s| {
        CutRest(c, a, b, a + i - |s|);
        assert k[i] == c[a + i - |s|];
      }
    }
    forall i, j | 0 <= i < j < |k|
      ensures k[i] != k[j]
    {
      if i >= |s| {
        assert k[i] == c[a + i - |s|] && k[j] == c[a + j - |s|];
      } else if j >= |s| {
        assert k[j] == c[a + j - |s|] && k[j] in c;
      }
    }
  }

  // ---------- the walk of the middle pointer ----------

  const INT_BOUND := 0x8000_0000
  const WORD := 0x1_0000_0000

  /** The signed number of steps list_delete_range computes, in its 32-bit arithmetic. */
  function Walk(numels: nat, posstart: nat, posend: nat): int
    requires posstart <= posend < numels
  {
    var numdel := posend - posstart + 1;
    var m := (numels - 1 - numdel) % WORD / 2;
    var midposafter := if m < posstart then m else (m + numdel) % WORD;
    var w := (midposafter - (numels - 1) / 2) % WORD;
    if w < INT_BOUND then w else w - WORD
  }

  lemma Signed(x: int)
    requires -INT_BOUND <= x < INT_BOUND
    ensures var w := x % WORD; (if w < INT_BOUND then w else w - WORD) == x
  {
    if x < 0 {
      assert x % WORD == x + WORD;
    }
  }

  /** The walk ends on the middle of the remaining elements if and only if there are any; when
      the whole list is deleted the unsigned subtraction wraps and the walk leaves the list. */
  lemma WalkExactly(numels: nat, posstart: nat, posend: nat)
    requires posstart <= posend < numels < INT_BOUND
    ensures var target := (numels - 1) / 2 + Walk(numels, posstart, posend);
      var left := numels - (posend - posstart + 1);
      (0 <= target < numels && target == CutIndex(posstart, posend + 1, (left - 1) / 2)) <==> left > 0
  {
    if posend - posstart + 1 < numels {
      WalkArrives(numels, posstart, posend);
    } else {
      WalkLeaves(numels);
    }
    hide Walk;
  }

  lemma WalkArrives(numels: nat, posstart: nat, posend: nat)
    requires posstart <= posend < numels < INT_BOUND && posend - posstart + 1 < numels
    ensures var target := (numels - 1) / 2 + Walk(numels, posstart, posend);
      0 <= target < numels && target == CutIndex(posstart, posend + 1, (numels - 1 - (posend - posstart + 1)) / 2)
  {
    var numdel := posend - posstart + 1;
    assert (numels - 1 - numdel) % WORD == numels - 1 - numdel;
    var after := CutIndex(posstart, posend + 1, (numels - 1 - numdel) / 2);
    assert after < numels && after % WORD == after;
    Signed(after - (numels - 1) / 2);
  }

  lemma WalkLeaves(numels: nat)
    requires 0 < numels < INT_BOUND
    ensures (numels - 1) / 2 + Walk(numels, 0, numels - 1) < 0
  {
    var half := (numels - 1) / 2;
    assert (0 - 1) % WORD == WORD - 1;
    assert (WORD - 1) / 2 == INT_BOUND - 1 && (INT_BOUND - 1 + numels) % WORD == INT_BOUND - 1 + numels;
    assert (INT_BOUND - 1 + numels - half) % WORD == INT_BOUND - 1 + numels - half;
  }

  // ---------- searching ----------

  datatype Comparator = NoComparator | By(compare: (Data, Data) -> int)

  /** What list_locate looks for: an equal element by the comparator, or the same pointer. */
  predicate Matches(c: Comparator, x: Data, y: Data) {
    match c
    case NoComparator => y == x
    case By(compare) => compare(x, y) == 0
  }

  /** The first index from i on at which x is found, -1 if there is none. */
  function IndexOf(s: seq<Data>, x: Data, c: Comparator, i: nat): (r: int)
    requires i <= |s|
    ensures r == -1 || (i <= r < |s| && Matches(c, x, s[r]) && forall k :: i <= k < r ==> !Matches(c, x, s[k]))
    ensures r == -1 ==> forall k :: i <= k < |s| ==> !Matches(c, x, s[k])
    decreases |s| - i
  {
    if i == |s| then -1 else if Matches(c, x, s[i]) then i else IndexOf(s, x, c, i + 1)
  }

  /** C's division, which truncates towards zero. */
  function TruncHalf(n: int): int {
    if n >= 0 then n / 2 else -((-n) / 2)
  }

  // ---------- a chain being built ----------

  /** Nodes linked in order, the last one still without a successor. */
  ghost predicate Building(c: seq<Entry>)
    reads c`next, c`prev
  {
    |c| >= 1 && c[0].prev == null && Distinct(c) &&
    (forall i {:trigger c[i].next} :: 0 <= i < |c| - 1 ==> c[i].next == c[i + 1]) &&
    (forall i {:trigger c[i].prev} :: 1 <= i < |c| ==> c[i].prev == c[i - 1])
  }

  lemma ClosedLinked(c: seq<Entry>, t: Entry)
    requires Building(c) && t !in c && c[|c| - 1].next == t && t.prev == c[|c| - 1] && t.next == null
    ensures Linked(c + [t]) && Distinct(c + [t])
  {
  }

  lemma HeadAlone(h: Entry)
    requires h.prev == null
    ensures Building([h]) && DataOf([h], 0) == []
  {
  }

  // ---------- the list ----------

  class List {
    var head: Entry
    var tail: Entry
    var mid: Entry?
    var numels: nat
    var spareels: array<Entry?>
    var spareelsnum: nat
    var iterActive: bool
    var comparator: Comparator
    ghost var chain: seq<Entry>  // head, the elements in order, tail
    ghost var Repr: set<object>

    ghost predicate ChainOk()
      reads this`head, this`tail, this`numels, this`chain, this`Repr, chain`next, chain`prev
    {
      Linked(chain) && Distinct(chain) && chain[0] == head && chain[|chain| - 1] == tail &&
      numels == |chain| - 2 && forall e :: e in chain ==> e in Repr
    }

    /** The spare nodes are distinct, at most MAX_SPARE_ELEMS, and in no chain. */
    ghost predicate SparesOk()
      reads this`spareels, this`spareelsnum, this`chain, this`Repr, spareels
    {
      spareels.Length == MAX_SPARE_ELEMS && spareelsnum <= MAX_SPARE_ELEMS &&
      GoodSpares(spareels[..spareelsnum], chain, Repr)
    }

    /** list_repOk, and what it does not look at: the spare nodes and the footprint. */
    ghost predicate Valid()
      reads this, Repr
    {
      this in Repr && spareels in Repr && (forall e :: e in chain ==> e in Repr) &&
      ChainOk() && mid == Middle(chain) && SparesOk()
    }

    /** The data of the elements, in order. */
    ghost function Contents(): (s: seq<Data>)
      requires |chain| >= 2
      reads this`chain, chain`data
    {
      DataOf(chain, |chain| - 2)
    }

    /** The nodes kept for later insertions. */
    ghost function Spares(): seq<Entry?>
      requires spareelsnum <= spareels.Length
      reads this`spareels, this`spareelsnum, spareels
    {
      spareels[..spareelsnum]
    }

    /** list_init. */
    constructor ()
      ensures Valid() && fresh(Repr) && Contents() == [] && Spares() == [] && !iterActive
    {
      var h := new Entry();
      var t := new Entry();
      head, tail := h, t;
      spareels := new Entry?[MAX_SPARE_ELEMS];
      new;
      Empty();
    }

    /** list_init on a list that may have been in use; its nodes are left to themselves. */
    method Init()
      modifies this
      ensures Valid() && fresh(Repr - {this}) && Contents() == [] && Spares() == [] && !iterActive
    {
      var h := new Entry();
      var t := new Entry();
      head, tail := h, t;
      spareels := new Entry?[MAX_SPARE_ELEMS];
      Empty();
    }

    /** The sentinels are linked to each other and the other fields take their first values. */
    method Empty()
      requires head != tail && head.prev == null && tail.next == null && spareels.Length == MAX_SPARE_ELEMS
      modifies this, head, tail
      ensures head == old(head) && tail == old(tail) && spareels == old(spareels) &&
        Repr == {this, spareels, head, tail}
      ensures Valid() && Contents() == [] && Spares() == [] && !iterActive
    {
      head.next := tail;
      tail.prev := head;
      mid, numels, spareelsnum, iterActive, comparator := null, 0, 0, false, NoComparator;
      chain := [head, tail];
      Repr := {this, spareels, head, tail};
    }

    /** list_findpos: from the nearest of head, mid and tail, by which quarter of the list the
        position is in. The C code decides by a quotient, which for an empty list is not a number. */
    method FindPos(posstart: int) returns (ptr: Entry?)
      requires Valid()
      ensures ptr == if -1 <= posstart <= numels then chain[posstart + 1] else null
    {
      if posstart < -1 || posstart > numels {
        return null;
      }
      if numels > 0 && 4 * (posstart + 1) <= numels {
        var i := -1;
        ptr := head;
        while i < posstart
          invariant -1 <= i <= posstart && ptr == chain[i + 1]
        {
          ptr := ptr.next;
          i := i + 1;
        }
      } else if numels > 0 && 2 * (posstart + 1) < numels {
        var i := (numels - 1) / 2;
        ptr := mid;
        while i > posstart
          invariant posstart <= i < numels && ptr == chain[i + 1]
        {
          ptr := ptr.prev;
          i := i - 1;
        }
      } else if numels > 0 && 4 * (posstart + 1) <= 3 * numels {
        var i := (numels - 1) / 2;
        ptr := mid;
        while i < posstart
          invariant 0 <= i <= posstart && ptr == chain[i + 1]
        {
          ptr := ptr.next;
          i := i + 1;
        }
      } else {
        var i := numels as int;
        ptr := tail;
        while i > posstart
          invariant posstart <= i <= numels && ptr == chain[i + 1]
        {
          ptr := ptr.prev;
          i := i - 1;
        }
      }
    }

    // ---------- inserting ----------

    /** Link a node into the chain in front of its k-th node, and count it. */
    method LinkIn(prec: Entry, lent: Entry, succ: Entry, ghost k: nat)
      requires ChainOk() && 1 <= k < |chain| && lent !in chain && lent in Repr
      requires prec == chain[k - 1] && succ == chain[k]
      modifies this`chain, this`numels, lent`next, lent`prev, prec`next, succ`prev
      ensures chain == Inserted(old(chain), k, lent) && ChainOk()
      ensures Contents() == Inserted(old(Contents()), k - 1, lent.data)
    {
      hide Inserted, DataOf;
      ghost var c, data := chain, DataOf(chain, |chain| - 2);
      prec.next := lent;
      lent.prev := prec;
      lent.next := succ;
      succ.prev := lent;
      assert DataOf(c, |c| - 2) == data;
      numels := numels + 1;
      chain := Inserted(c, k, lent);
      InsertedLinked(c, k, lent);
      InsertedNodes(c, k, lent, Repr);
      InsertedData(c, k, lent);
    }

    /** The middle moves by at most one node when an element was inserted at pos. */
    method FixMidInserted(lent: Entry, pos: nat, ghost before: seq<Entry>)
      requires |before| >= 2 && pos <= |before| - 2 && mid == Middle(before)
      requires Linked(chain) && chain == Inserted(before, pos + 1, lent) && numels == |chain| - 2
      modifies this`mid
      ensures mid == Middle(chain)
    {
      hide Inserted, Distinct;
      InsertedAt(before, pos + 1, lent);
      ghost var m := (|before| - 3) / 2 + 1;
      assert |before| > 2 ==> chain[if m <= pos then m else m + 1] == before[m];
      if numels == 1 {
        mid := lent;
      } else if numels % 2 == 1 {
        if pos >= (numels - 1) / 2 {
          mid := mid.next;
        }
      } else {
        if pos <= (numels - 1) / 2 {
          mid := mid.prev;
        }
      }
    }

    /** A node for a new element: the last spare one, or a new one. */
    method TakeNode() returns (lent: Entry)
      requires Valid()
      modifies this`spareelsnum, this`Repr
      ensures Valid() && lent in Repr && lent !in chain && lent !in Spares()
      ensures Repr == old(Repr) || (fresh(lent) && Repr == old(Repr) + {lent})
      ensures var n := old(spareelsnum);
        if n > 0 then lent == old(Spares())[n - 1] && Spares() == old(Spares())[..n - 1] else Spares() == []
    {
      hide Linked, Distinct;
      ghost var s := Spares();
      SparesFewer(s, chain, Repr);
      if spareelsnum > 0 {
        lent := spareels[spareelsnum - 1];
        spareelsnum := spareelsnum - 1;
        assert Spares() == s[..|s| - 1];
      } else {
        lent := new Entry();
        Repr := Repr + {lent};
        assert Spares() == [] && GoodSpares([], chain, Repr);
      }
      hide GoodSpares;
    }

    /** The part of list_insert_at behind its checks and the choice of a node. */
    method InsertNode(lent: Entry, pos: nat)
      requires Valid() && pos <= numels && lent in Repr && lent !in chain && lent !in Spares()
      modifies Repr
      ensures Valid() && Repr == old(Repr) && iterActive == old(iterActive) && comparator == old(comparator)
      ensures Contents() == Inserted(old(Contents()), pos, old(lent.data))
    {
      hide Inserted, DataOf, GoodSpares, Distinct;
      var prec := FindPos(pos - 1);
      SparesApart(Spares(), chain, pos + 1, lent, Repr);
      LinkIn(prec, lent, prec.next, pos + 1);
      FixMidInserted(lent, pos, old(chain));
    }

    /** list_insert_at: 1 on success, -1 while the list is iterated or past its end. */
    method InsertAt(data: Data, pos: nat) returns (r: int)
      requires Valid()
      modifies Repr
      ensures Valid() && fresh(Repr - old(Repr))
      ensures r == if old(iterActive) || pos > old(numels) then -1 else 1
      ensures r == 1 ==> Contents() == Inserted(old(Contents()), pos, data)
      ensures r == -1 ==> chain == old(chain) && Contents() == old(Contents())
      ensures iterActive == old(iterActive) && comparator == old(comparator)
    {
      hide Inserted, DataOf;
      if iterActive || pos > numels {
        return -1;
      }
      ghost var s := Contents();
      var lent := TakeNode();
      lent.data := data;
      assert Contents() == s;
      InsertNode(lent, pos);
      r := 1;
    }

    // ---------- removing ----------

    /** Link the node before a range to the node behind it, and count the range out. */
    method LinkOver(prec: Entry, succ: Entry, ghost a: nat, ghost b: nat, n: nat)
      requires ChainOk() && 1 <= a <= b < |chain| && n == b - a
      requires prec == chain[a - 1] && succ == chain[b]
      modifies this`chain, this`numels, prec`next, succ`prev
      ensures chain == Cut(old(chain), a, b) && ChainOk()
      ensures Contents() == Cut(old(Contents()), a - 1, b - 1)
    {
      hide Cut, DataOf;
      ghost var c, data := chain, DataOf(chain, |chain| - 2);
      prec.next := succ;
      succ.prev := prec;
      assert DataOf(c, |c| - 2) == data;
      numels := numels - n;
      chain := Cut(c, a, b);
      CutLinked(c, a, b);
      CutNodes(c, a, b, Repr);
      CutData(c, a, b);
    }

    /** A node that leaves the chain becomes a spare one, or is freed when there are enough. */
    method Recycle(tmp: Entry)
      requires spareels.Length == MAX_SPARE_ELEMS && spareelsnum <= MAX_SPARE_ELEMS
      modifies this`spareelsnum, spareels
      ensures spareels == old(spareels) && spareelsnum <= MAX_SPARE_ELEMS
      ensures Spares() == Kept(old(Spares()), [tmp])
    {
      ghost var s := Spares();
      if spareelsnum < MAX_SPARE_ELEMS {
        spareels[spareelsnum] := tmp;
        spareelsnum := spareelsnum + 1;
        assert Spares() == s + [tmp];
      }
    }

    /** The middle moves by at most one node when the element at pos goes. */
    method FixMidRemoved(pos: nat)
      requires ChainOk() && mid == Middle(chain) && pos < numels
      modifies this`mid
      ensures mid == Middle(Cut(chain, pos + 1, pos + 2))
    {
      if numels > 1 {
        CutMiddle(chain, pos, pos);
      }
      hide Cut;
      if numels % 2 == 1 {
        if numels == 1 {
          mid := null;
        } else if pos >= numels / 2 {
          mid := mid.prev;
        }
      } else {
        if pos < numels / 2 {
          mid := mid.next;
        }
      }
    }

    /** list_drop_elem and the decrement behind its calls: fix the middle as the list still
        stands, unlink the node, keep it as a spare if there is room. */
    method DropElem(tmp: Entry, pos: nat)
      requires Valid() && pos < numels && tmp == chain[pos + 1]
      modifies Repr
      ensures Valid() && Repr == old(Repr) && iterActive == old(iterActive) && comparator == old(comparator)
      ensures chain == Cut(old(chain), pos + 1, pos + 2) && Contents() == Cut(old(Contents()), pos, pos + 1)
      ensures Spares() == Kept(old(Spares()), [tmp])
    {
      hide Cut, Kept, DataOf, GoodSpares;
      FixMidRemoved(pos);
      assert chain[pos + 1..pos + 2] == [tmp];
      KeptGood(Spares(), chain, pos + 1, pos + 2, Repr);
      LinkOver(tmp.prev, tmp.next, pos + 1, pos + 2, 1);
      Recycle(tmp);
    }

    /** list_delete_at. */
    method DeleteAt(pos: nat) returns (r: int)
      requires Valid()
      modifies Repr
      ensures Valid() && Repr == old(Repr) && iterActive == old(iterActive) && comparator == old(comparator)
      ensures r == if old(iterActive) || pos >= old(numels) then -1 else 0
      ensures r == 0 ==> chain == Cut(old(chain), pos + 1, pos + 2) && Contents() == Cut(old(Contents()), pos, pos + 1)
      ensures r == -1 ==> chain == old(chain) && Contents() == old(Contents())
    {
      hide Cut, DataOf;
      if iterActive || pos >= numels {
        return -1;
      }
      var delendo := FindPos(pos);
      DropElem(delendo, pos);
      r := 0;
    }

    /** list_extract_at: the data of the removed element, NULL when there is none. */
    method ExtractAt(pos: nat) returns (data: Data)
      requires Valid()
      modifies Repr
      ensures Valid() && Repr == old(Repr) && iterActive == old(iterActive) && comparator == old(comparator)
      ensures old(iterActive) || pos >= old(numels) ==>
        data == NULL && chain == old(chain) && Contents() == old(Contents())
      ensures !old(iterActive) && pos < old(numels) ==>
        data == old(Contents())[pos] && chain == Cut(old(chain), pos + 1, pos + 2) &&
        Contents() == Cut(old(Contents()), pos, pos + 1)
    {
      if iterActive || pos >= numels {
        return NULL;
      }
      data := ExtractNode(pos);
    }

    method ExtractNode(pos: nat) returns (data: Data)
      requires Valid() && pos < numels
      modifies Repr
      ensures Valid() && Repr == old(Repr) && iterActive == old(iterActive) && comparator == old(comparator)
      ensures data == old(Contents())[pos] && chain == Cut(old(chain), pos + 1, pos + 2)
      ensures Contents() == Cut(old(Contents()), pos, pos + 1)
    {
      hide DataOf;
      var tmp := FindPos(pos);
      data := tmp.data;
      ghost var s := Contents();
      tmp.data := NULL;
      assert Cut(Contents(), pos, pos + 1) == Cut(s, pos, pos + 1);
      hide Cut;
      DropElem(tmp, pos);
    }

    /** list_delete_range on a range that leaves at least one element. */
    method DeleteRange(posstart: nat, posend: nat) returns (r: int)
      requires Valid()
      requires !(posstart == 0 && posend == numels - 1)
      modifies Repr
      ensures Valid() && Repr == old(Repr) && iterActive == old(iterActive) && comparator == old(comparator)
      ensures r == if old(iterActive) || posend < posstart || posend >= old(numels) then -1 else 0
      ensures r == 0 ==> Contents() == Cut(old(Contents()), posstart, posend + 1)
      ensures r == 0 ==> chain == Cut(old(chain), posstart + 1, posend + 2) &&
                         Spares() == Kept(old(Spares()), old(chain)[posstart + 1..posend + 2])
      ensures r == -1 ==> chain == old(chain) && Contents() == old(Contents())
    {
      hide Cut, Kept, DataOf;
      if iterActive || posend < posstart || posend >= numels {
        return -1;
      }
      var tmp := FindPos(posstart);
      DeleteFrom(tmp, posstart, posend);
      r := 0;
    }

    /** The part of list_delete_range behind its checks. */
    method DeleteFrom(first: Entry, posstart: nat, posend: nat)
      requires Valid() && posstart <= posend < numels && posend - posstart + 1 < numels && first == chain[posstart + 1]
      modifies Repr
      ensures Valid() && Repr == old(Repr) && iterActive == old(iterActive) && comparator == old(comparator)
      ensures chain == Cut(old(chain), posstart + 1, posend + 2)
      ensures Contents() == Cut(old(Contents()), posstart, posend + 1)
      ensures Spares() == Kept(old(Spares()), old(chain)[posstart + 1..posend + 2])
    {
      hide Cut, Kept, GoodSpares, DataOf;
      var lastvalid := first.prev;
      MoveMid(posstart, posend);
      KeptGood(Spares(), chain, posstart + 1, posend + 2, Repr);
      var tmp := RecycleRange(first, posstart, posend);
      LinkOver(lastvalid, tmp, posstart + 1, posend + 2, posend - posstart + 1);
    }

    /** The signed walk of the middle pointer, along the chain as it still stands, to the middle
        of what will remain. */
    method MoveMid(posstart: nat, posend: nat)
      requires ChainOk() && mid == Middle(chain) && posstart <= posend < numels && posend - posstart + 1 < numels
      modifies this`mid
      ensures mid == Middle(Cut(chain, posstart + 1, posend + 2))
    {
      hide Cut;
      var numdel := posend - posstart + 1;
      var midposafter := (numels - 1 - numdel) / 2;
      midposafter := if midposafter < posstart then midposafter else midposafter + numdel;
      var movedx := midposafter - (numels - 1) / 2;
      CutMiddle(chain, posstart, posend);
      if movedx > 0 {
        MidRight((numels - 1) / 2 + 1, movedx);
      } else {
        MidLeft((numels - 1) / 2 + 1, -movedx);
      }
    }

    /** The loop that keeps or frees the deleted nodes; the result is the node behind them. */
    method RecycleRange(first: Entry, posstart: nat, posend: nat) returns (tmp: Entry)
      requires ChainOk() && posstart <= posend < numels && first == chain[posstart + 1]
      requires spareels.Length == MAX_SPARE_ELEMS && spareelsnum <= MAX_SPARE_ELEMS
      modifies this`spareelsnum, spareels
      ensures spareels == old(spareels) && spareelsnum <= MAX_SPARE_ELEMS && tmp == chain[posend + 2]
      ensures Spares() == Kept(old(Spares()), chain[posstart + 1..posend + 2])
    {
      tmp := first;
      var i := posstart;
      while i <= posend
        invariant posstart <= i <= posend + 1 && tmp == chain[i + 1]
        invariant spareels == old(spareels) && spareelsnum <= MAX_SPARE_ELEMS
        invariant Spares() == Kept(old(Spares()), chain[posstart + 1..i + 1])
      {
        var tmp2 := tmp;
        tmp := tmp.next;
        Recycle(tmp2);
        i := i + 1;
        assert chain[posstart + 1..i + 1] == chain[posstart + 1..i] + [tmp2];
      }
    }

    /** list_clear: -1 while the list is iterated. */
    method Clear() returns (r: int)
      requires Valid()
      modifies Repr
      ensures Valid() && Repr == old(Repr) && iterActive == old(iterActive) && comparator == old(comparator)
      ensures r == if old(iterActive) then -1 else 0
      ensures r == 0 ==> Contents() == [] && numels == 0
      ensures r == 0 ==> Spares() == Kept(old(Spares()), old(chain)[1..|old(chain)| - 1])
      ensures r == -1 ==> chain == old(chain) && Contents() == old(Contents())
    {
      if iterActive {
        return -1;
      }
      ClearAll();
      r := 0;
    }

    method ClearAll()
      requires Valid()
      modifies Repr
      ensures Valid() && Repr == old(Repr) && iterActive == old(iterActive) && comparator == old(comparator)
      ensures Contents() == [] && numels == 0
      ensures Spares() == Kept(old(Spares()), old(chain)[1..|old(chain)| - 1])
    {
      hide Cut, Kept, GoodSpares;
      KeptGood(Spares(), chain, 1, |chain| - 1, Repr);
      RecycleAll();
      LinkOver(head, tail, 1, |chain| - 1, numels);
      mid := null;
    }

    /** The first loop of list_clear: spare nodes while there is room. */
    method FillSpares() returns (s: Entry, ghost i: nat)
      requires ChainOk() && spareels.Length == MAX_SPARE_ELEMS && spareelsnum <= MAX_SPARE_ELEMS
      modifies this`spareelsnum, spareels
      ensures spareels == old(spareels) && spareelsnum <= MAX_SPARE_ELEMS
      ensures 1 <= i < |chain| && s == chain[i] && (spareelsnum == MAX_SPARE_ELEMS || s == tail)
      ensures Spares() == old(Spares()) + chain[1..i]
    {
      hide Distinct;
      s, i := head.next, 1;
      while spareelsnum < MAX_SPARE_ELEMS && s != tail
        invariant 1 <= i < |chain| && s == chain[i]
        invariant spareels == old(spareels) && spareelsnum <= MAX_SPARE_ELEMS
        invariant Spares() == old(Spares()) + chain[1..i]
        decreases |chain| - i
      {
        ghost var sp := Spares();
        spareels[spareelsnum] := s;
        spareelsnum := spareelsnum + 1;
        assert Spares() == sp + [s];
        assert chain[1..i + 1] == chain[1..i] + [s];
        s := s.next;
        i := i + 1;
      }
    }

    /** The two loops of list_clear: spare nodes while there is room, the others are freed. */
    method RecycleAll()
      requires Valid()
      modifies this`spareelsnum, spareels
      ensures spareels == old(spareels) && spareelsnum <= MAX_SPARE_ELEMS
      ensures Spares() == Kept(old(Spares()), chain[1..|chain| - 1])
    {
      hide GoodSpares;
      var s;
      ghost var i;
      s, i := FillSpares();
      while s != tail
        invariant 1 <= i < |chain| && s == chain[i]
        decreases |chain| - i
      {
        s := s.next;
        i := i + 1;
      }
    }

    // ---------- searching ----------

    /** list_locate. */
    method Locate(data: Data) returns (pos: int)
      requires Valid()
      ensures pos == IndexOf(Contents(), data, comparator, 0)
    {
      var el := head.next;
      pos := 0;
      while el != tail
        invariant 0 <= pos <= numels && el == chain[pos + 1]
        invariant IndexOf(Contents(), data, comparator, 0) == IndexOf(Contents(), data, comparator, pos)
        decreases numels - pos
      {
        if Matches(comparator, data, el.data) {
          return;
        }
        el := el.next;
        pos := pos + 1;
      }
      pos := -1;
    }

    /** list_delete: the first matching element goes; -1 when there is none or the list is iterated. */
    method Delete(data: Data) returns (r: int)
      requires Valid()
      modifies Repr
      ensures Valid() && Repr == old(Repr) && iterActive == old(iterActive) && comparator == old(comparator)
      ensures var pos := IndexOf(old(Contents()), data, old(comparator), 0);
        if pos < 0 || old(iterActive) then r == -1 && Contents() == old(Contents())
        else r == 0 && Contents() == Cut(old(Contents()), pos, pos + 1)
    {
      hide Cut, DataOf;
      var pos := Locate(data);
      if pos < 0 {
        return -1;
      }
      r := DeleteAt(pos);
    }

    /** The loops that move the middle pointer n nodes to the right. */
    method MidRight(ghost k: nat, n: nat)
      requires Linked(chain) && k + n < |chain| && mid == chain[k]
      modifies this`mid
      ensures mid == chain[k + n]
    {
      var i := 0;
      while i < n
        invariant 0 <= i <= n && mid == chain[k + i]
      {
        mid := mid.next;
        i := i + 1;
      }
    }

    /** The loops that move the middle pointer n nodes to the left. */
    method MidLeft(ghost k: nat, n: nat)
      requires Linked(chain) && n <= k < |chain| && mid == chain[k]
      modifies this`mid
      ensures mid == chain[k - n]
    {
      var i := 0;
      while i < n
        invariant 0 <= i <= n && mid == chain[k - i]
      {
        mid := mid.prev;
        i := i + 1;
      }
    }

    // ---------- joining two lists ----------

    /** list_concat: dest becomes a list with the elements of l1 and then those of l2, which may be
        the same list; neither is changed. A missing list, and a source as destination, are refused. */
    static method Concat(l1: List?, l2: List?, dest: List?) returns (r: int)
      requires l1 != null ==> l1.Valid() && (dest != null && dest != l1 ==> dest !in l1.Repr)
      requires l2 != null ==> l2.Valid() && (dest != null && dest != l2 ==> dest !in l2.Repr)
      modifies if dest == null then {} else {dest}
      ensures if l1 == null || l2 == null || dest == null || l1 == dest || l2 == dest then
                r == -1 && (dest != null ==> unchanged(dest))
              else
                r == 0 && dest.Valid() && fresh(dest.Repr - {dest}) &&
                dest.Contents() == old(l1.Contents() + l2.Contents())
    {
      if l1 == null || l2 == null || dest == null || l1 == dest || l2 == dest {
        return -1;
      }
      dest.Init();
      assert dest.chain[0] in dest.chain && dest.chain[|dest.chain| - 1] in dest.chain;
      if l1.numels + l2.numels == 0 {
        return 0;
      }
      dest.Join(l1, l2);
      r := 0;
    }

    /** The part of list_concat behind the test for two empty lists. */
    method Join(l1: List, l2: List)
      requires Valid() && numels == 0 && l1.Valid() && l2.Valid() && l1.numels + l2.numels > 0
      requires Repr !! l1.Repr && Repr !! l2.Repr && Spares() == []
      modifies Repr
      ensures Valid() && fresh(Repr - old(Repr))
      ensures Contents() == old(l1.Contents() + l2.Contents())
    {
      hide DataOf, Linked;
      assert chain == [head, tail] && head in chain && tail in chain by { assert |chain| == 2; }
      assert chain[0] != chain[1];
      hide Distinct;
      numels := l1.numels + l2.numels;
      JoinChains(l1, l2);
      assert Spares() == [] && GoodSpares([], chain, Repr);
      hide GoodSpares;
    }

    /** The two copies, the link to the tail and the middle pointer. */
    method JoinChains(l1: List, l2: List)
      requires l1.ChainOk() && l2.ChainOk() && l1.numels + l2.numels > 0
      requires chain == [head, tail] && Linked(chain) && head != tail && head in Repr && tail in Repr
      requires head !in l1.chain && head !in l2.chain
      modifies this`mid, this`chain, this`Repr, head`next, tail`prev
      ensures Linked(chain) && Distinct(chain) && mid == Middle(chain)
      ensures |chain| == l1.numels + l2.numels + 2 && chain[0] == head && chain[|chain| - 1] == tail
      ensures old(Repr) <= Repr && fresh(Repr - old(Repr)) && forall e :: e in chain ==> e in Repr
      ensures DataOf(chain, |chain| - 2) == old(l1.Contents() + l2.Contents())
    {
      hide DataOf, Distinct;
      var el;
      ghost var c;
      el, c := CopyBoth(l1, l2);
      assert el in c;
      hide Building;
      Close(el, c);
      hide Linked;
      CentreMid(l1.numels, l2.numels);
    }

    /** The two copying loops; the middle pointer is left at the end of the first. */
    method CopyBoth(l1: List, l2: List) returns (el: Entry, ghost c: seq<Entry>)
      requires l1.ChainOk() && l2.ChainOk() && head !in l1.chain && head !in l2.chain
      requires head.prev == null
      modifies this`mid, head`next
      ensures Building(c) && el == c[|c| - 1] && |c| == l1.numels + l2.numels + 1
      ensures c[0] == head && mid == c[l1.numels]
      ensures forall e :: e in c ==> e == head || fresh(e)
      ensures DataOf(c, |c| - 1) == old(l1.Contents() + l2.Contents())
    {
      hide DataOf, Building, ChainOk;
      HeadAlone(head);
      ChainSize(l1);
      ChainSize(l2);
      el, c := Copy(l1, head, [head]);
      mid := el;
      ghost var c1 := c;
      assert el in c1;
      el, c := Copy(l2, el, c1);
    }

    /** Link the last copied node to the tail sentinel. */
    method Close(el: Entry, ghost c: seq<Entry>)
      requires |c| >= 1 && Building(c) && el == c[|c| - 1] && tail !in c && tail.next == null
      modifies this`chain, this`Repr, el`next, tail`prev
      ensures chain == c + [tail] && Linked(chain) && Distinct(chain)
      ensures DataOf(chain, |c| - 1) == old(DataOf(c, |c| - 1))
      ensures Repr == old(Repr) + (set e | e in c)
    {
      el.next := tail;
      tail.prev := el;
      chain := c + [tail];
      Repr := Repr + (set e | e in c);
      ClosedLinked(c, tail);
      assert forall i :: 1 <= i < |c| ==> chain[i] == c[i];
      assert DataOf(chain, |c| - 1) == DataOf(c, |c| - 1);
    }

    /** One step of the copying loops: a new node behind the last one. */
    method Extend(el: Entry, x: Data, ghost c: seq<Entry>) returns (e: Entry)
      requires Building(c) && el == c[|c| - 1]
      modifies el`next
      ensures fresh(e) && Building(c + [e])
      ensures DataOf(c + [e], |c|) == old(DataOf(c, |c| - 1)) + [x]
    {
      e := new Entry();
      el.next := e;
      e.prev := el;
      e.data := x;
      ghost var c' := c + [e];
      assert forall i :: 1 <= i < |c| ==> c'[i] == c[i];
      assert DataOf(c', |c| - 1) == DataOf(c, |c| - 1);
    }

    /** The copying loop of list_concat: behind el, new nodes for the elements of l. */
    method Copy(l: List, first: Entry, ghost c: seq<Entry>) returns (el: Entry, ghost c': seq<Entry>)
      requires l.ChainOk() && first !in l.chain
      requires Building(c) && first == c[|c| - 1]
      modifies first`next
      ensures Building(c') && el == c'[|c'| - 1] && |c'| == |c| + l.numels && c <= c'
      ensures forall e :: e in c' ==> e in c || fresh(e)
      ensures el == first || fresh(el)
      ensures DataOf(c', |c'| - 1) == old(DataOf(c, |c| - 1)) + old(l.Contents())
    {
      hide DataOf;
      var srcel := l.head.next;
      el := first;
      c' := c;
      ghost var k := 0;
      ghost var d, s := DataOf(c, |c| - 1), l.Contents();
      while srcel != l.tail
        invariant 0 <= k <= l.numels && srcel == l.chain[k + 1]
        invariant Building(c') && el == c'[|c'| - 1] && |c'| == |c| + k && c <= c'
        invariant el == first || fresh(el)
        invariant forall e :: e in c' ==> e in c || fresh(e)
        invariant Linked(l.chain)
        invariant DataOf(c', |c'| - 1) == d + s[..k]
        invariant l.Contents() == s
        decreases l.numels - k
      {
        var e := Extend(el, srcel.data, c');
        c' := c' + [e];
        assert s[..k + 1] == s[..k] + [s[k]];
        el := e;
        srcel := srcel.next;
        k := k + 1;
      }
      assert s[..k] == s;
    }

    /** From the last node of the first list, or the head, to the middle of both. */
    method CentreMid(n1: nat, n2: nat)
      requires Linked(chain) && |chain| == n1 + n2 + 2 && n1 + n2 > 0 && mid == chain[n1]
      modifies this`mid
      ensures mid == Middle(chain)
    {
      var err := n2 - n1;
      if TruncHalf(err + 1) > 0 {
        MidRight(n1, TruncHalf(err + 1));
      } else if TruncHalf(err) < 0 {
        MidLeft(n1, TruncHalf(-err));
      }
    }
  }

  lemma ChainSize(l: List)
    requires l.ChainOk()
    ensures |l.chain| == l.numels + 2
  {
  }
}
