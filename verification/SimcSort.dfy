/** The sort of SimCList: a quicksort whose pivot is drawn at random, over the nodes of the list,
    that hands short ranges to a selection sort. Only the data of the nodes moves. */
module SimcSort {
  import opened SimcList

  const MIN_QUICKSORT_ELS := 24

  type Compare = (Data, Data) -> int

  // ---------- orders ----------

  /** What the sort looks at: positive if x must come behind y. */
  function Key(cmp: Compare, versus: int, x: Data, y: Data): int {
    cmp(x, y) * -versus
  }

  ghost predicate TotalPreorder(cmp: Compare) {
    (forall x, y :: cmp(x, y) <= 0 <==> cmp(y, x) >= 0) &&
    (forall x, y, z :: cmp(x, y) <= 0 && cmp(y, z) <= 0 ==> cmp(x, z) <= 0)
  }

  ghost predicate Lawful(cmp: Compare, versus: int) {
    (forall x, y :: Key(cmp, versus, x, y) <= 0 <==> Key(cmp, versus, y, x) >= 0) &&
    (forall x, y, z :: Key(cmp, versus, x, y) <= 0 && Key(cmp, versus, y, z) <= 0 ==> Key(cmp, versus, x, z) <= 0)
  }

  lemma KeySign(cmp: Compare, versus: int, x: Data, y: Data)
    ensures versus > 0 ==> (Key(cmp, versus, x, y) <= 0 <==> cmp(x, y) >= 0)
    ensures versus > 0 ==> (Key(cmp, versus, x, y) >= 0 <==> cmp(x, y) <= 0)
    ensures versus < 0 ==> (Key(cmp, versus, x, y) <= 0 <==> cmp(x, y) <= 0)
    ensures versus < 0 ==> (Key(cmp, versus, x, y) >= 0 <==> cmp(x, y) >= 0)
    ensures versus == 0 ==> Key(cmp, versus, x, y) == 0
  {
  }

  /** A total preorder stays one in either direction. */
  lemma PreorderLawful(cmp: Compare, versus: int)
    requires TotalPreorder(cmp)
    ensures Lawful(cmp, versus)
  {
    forall x, y
      ensures Key(cmp, versus, x, y) <= 0 <==> Key(cmp, versus, y, x) >= 0
    {
      KeySign(cmp, versus, x, y);
      KeySign(cmp, versus, y, x);
    }
    forall x, y, z | Key(cmp, versus, x, y) <= 0 && Key(cmp, versus, y, z) <= 0
      ensures Key(cmp, versus, x, z) <= 0
    {
      KeySign(cmp, versus, x, y);
      KeySign(cmp, versus, y, z);
      KeySign(cmp, versus, x, z);
    }
  }

  // ---------- sequences ----------

  /** Sorted from lo up to hi. */
  ghost predicate Sorted(cmp: Compare, versus: int, s: seq<Data>, lo: nat, hi: nat)
    requires hi <= |s|
  {
    forall i, j :: lo <= i < j < hi ==> Key(cmp, versus, s[i], s[j]) <= 0
  }

  /** b rearranges a, and only from lo up to hi. */
  ghost predicate Permuted(a: seq<Data>, b: seq<Data>, lo: nat, hi: nat) {
    |a| == |b| && multiset(a) == multiset(b) &&
    forall i :: 0 <= i < |a| && !(lo <= i < hi) ==> b[i] == a[i]
  }

  /** From lo up to hi nothing belongs behind pv, and nothing from mid up to end before it. */
  ghost predicate Split(cmp: Compare, versus: int, s: seq<Data>, pv: Data, lo: nat, l: nat, r: nat, hi: nat)
    requires l <= |s| && hi <= |s|
  {
    (forall i :: lo <= i < l ==> Key(cmp, versus, s[i], pv) <= 0) &&
    (forall i :: r <= i < hi ==> Key(cmp, versus, s[i], pv) >= 0)
  }

  lemma Cancel(p: multiset<Data>, x: multiset<Data>, y: multiset<Data>, q: multiset<Data>)
    requires p + x + q == p + y + q
    ensures x == y
  {
    forall e: Data
      ensures x[e] == y[e]
    {
      assert (p + x + q)[e] == p[e] + x[e] + q[e] && (p + y + q)[e] == p[e] + y[e] + q[e];
    }
  }

  lemma PermutedTrans(a: seq<Data>, b: seq<Data>, c: seq<Data>, lo: nat, hi: nat)
    requires Permuted(a, b, lo, hi) && Permuted(b, c, lo, hi)
    ensures Permuted(a, c, lo, hi)
  {
  }

  lemma PermutedBag(a: seq<Data>, b: seq<Data>, lo: nat, hi: nat)
    requires Permuted(a, b, lo, hi)
    ensures multiset(a) == multiset(b)
  {
  }

  lemma PermutedSelf(a: seq<Data>, lo: nat, hi: nat)
    ensures Permuted(a, a, lo, hi)
  {
  }

  lemma PermutedWider(a: seq<Data>, b: seq<Data>, from: nat, to: nat, lo: nat, hi: nat)
    requires Permuted(a, b, from, to) && lo <= from && to <= hi
    ensures Permuted(a, b, lo, hi)
  {
  }

  lemma SwapPermuted(s: seq<Data>, i: nat, j: nat, lo: nat, hi: nat)
    requires lo <= i < hi <= |s| && lo <= j < hi
    ensures Permuted(s, s[i := s[j]][j := s[i]], lo, hi)
  {
  }

  /** Three elements, of which i and q may be one, change places in a round. */
  lemma RoundPermuted(s: seq<Data>, i: nat, p: nat, q: nat, lo: nat, hi: nat)
    requires lo <= i < hi <= |s| && lo <= p < hi && lo <= q < hi && p != q && p != i
    ensures Permuted(s, s[i := s[q]][q := s[p]][p := s[i]], lo, hi)
  {
    SwapPermuted(s, p, q, lo, hi);
    if q == i {
      assert s[i := s[q]][q := s[p]][p := s[i]] == s[p := s[q]][q := s[p]];
    } else {
      var t := s[p := s[q]][q := s[p]];
      SwapPermuted(t, i, p, lo, hi);
      PermutedTrans(s, t, t[i := t[p]][p := t[i]], lo, hi);
      assert s[i := s[q]][q := s[p]][p := s[i]] == t[i := t[p]][p := t[i]];
    }
  }

  lemma SlicePermuted(a: seq<Data>, b: seq<Data>, lo: nat, hi: nat)
    requires lo <= hi <= |a| && Permuted(a, b, lo, hi)
    ensures multiset(a[lo..hi]) == multiset(b[lo..hi])
  {
    assert a == a[..lo] + a[lo..hi] + a[hi..];
    assert b == b[..lo] + b[lo..hi] + b[hi..];
    assert a[..lo] == b[..lo] && a[hi..] == b[hi..];
    Cancel(multiset(a[..lo]), multiset(a[lo..hi]), multiset(b[lo..hi]), multiset(a[hi..]));
  }

  /** Every element of the rearranged range was in it before. */
  lemma Members(a: seq<Data>, b: seq<Data>, lo: nat, hi: nat, i: nat) returns (j: nat)
    requires lo <= i < hi <= |a| && Permuted(a, b, lo, hi)
    ensures lo <= j < hi && b[i] == a[j]
  {
    SlicePermuted(a, b, lo, hi);
    assert b[i] == b[lo..hi][i - lo];
    assert b[i] in multiset(b[lo..hi]);
    assert b[i] in a[lo..hi];
    var k :| 0 <= k < hi - lo && a[lo..hi][k] == b[i];
    j := lo + k;
  }

  /** A split survives rearranging either of its parts. */
  lemma SplitKept(cmp: Compare, versus: int, a: seq<Data>, b: seq<Data>, lo: nat, p: nat, hi: nat, from: nat, to: nat)
    requires lo <= p < hi <= |a| && Split(cmp, versus, a, a[p], lo, p, p + 1, hi)
    requires (from == lo && to == p) || (from == p + 1 && to == hi)
    requires Permuted(a, b, from, to)
    ensures b[p] == a[p] && Split(cmp, versus, b, b[p], lo, p, p + 1, hi)
  {
    hide Key, Permuted;
    assert |a| == |b| && forall i :: 0 <= i < |a| && !(from <= i < to) ==> b[i] == a[i]
      by { PermutedOutside(a, b, from, to); }
    forall i | from <= i < to
      ensures i < p ==> Key(cmp, versus, b[i], a[p]) <= 0
      ensures i > p ==> Key(cmp, versus, b[i], a[p]) >= 0
    {
      var j := Members(a, b, from, to, i);
    }
  }

  lemma PermutedOutside(a: seq<Data>, b: seq<Data>, lo: nat, hi: nat)
    requires Permuted(a, b, lo, hi)
    ensures |a| == |b| && forall i :: 0 <= i < |a| && !(lo <= i < hi) ==> b[i] == a[i]
  {
  }

  /** Two sorted parts around an element that splits them are sorted as a whole. */
  lemma SortedJoin(cmp: Compare, versus: int, s: seq<Data>, lo: nat, p: nat, hi: nat)
    requires lo <= p < hi <= |s| && Lawful(cmp, versus) && Split(cmp, versus, s, s[p], lo, p, p + 1, hi)
    requires Sorted(cmp, versus, s, lo, p) && Sorted(cmp, versus, s, p + 1, hi)
    ensures Sorted(cmp, versus, s, lo, hi)
  {
    hide Key;
    forall i, j | lo <= i < j < hi
      ensures Key(cmp, versus, s[i], s[j]) <= 0
    {
      if i < p < j {
        assert Key(cmp, versus, s[i], s[p]) <= 0 && Key(cmp, versus, s[p], s[j]) <= 0;
      }
    }
  }

  // ---------- nodes ----------

  ghost predicate Nodes(c: seq<Entry>)
    reads c`next, c`prev
  {
    Linked(c) && Distinct(c)
  }

  lemma NextAt(c: seq<Entry>, i: nat)
    requires Nodes(c) && i + 1 < |c|
    ensures c[i].next == c[i + 1]
  {
  }

  lemma PrevAt(c: seq<Entry>, i: nat)
    requires Nodes(c) && 1 <= i < |c|
    ensures c[i].prev == c[i - 1]
  {
  }

  lemma SameNode(c: seq<Entry>, i: nat, j: nat)
    requires Nodes(c) && i < |c| && j < |c|
    ensures c[i] == c[j] <==> i == j
  {
  }

  /** The data of the elements of a chain. */
  ghost function Datas(c: seq<Entry>): (s: seq<Data>)
    requires |c| >= 2
    reads c`data
    ensures |s| == |c| - 2
  {
    DataOf(c, |c| - 2)
  }

  /** Exchange the data of two elements. */
  method SwapData(p: Entry, q: Entry, ghost c: seq<Entry>, ghost i: nat, ghost j: nat, ghost lo: nat, ghost hi: nat)
    requires |c| >= 2 && Nodes(c) && lo <= i < hi <= |c| - 2 && lo <= j < hi && p == c[i + 1] && q == c[j + 1]
    modifies p`data, q`data
    ensures Datas(c) == old(Datas(c))[i := old(Datas(c))[j]][j := old(Datas(c))[i]]
    ensures Permuted(old(Datas(c)), Datas(c), lo, hi)
  {
    hide Permuted;
    SwapPermuted(Datas(c), i, j, lo, hi);
    var tmpdata := p.data;
    p.data := q.data;
    q.data := tmpdata;
    assert Datas(c) == old(Datas(c))[i := old(Datas(c))[j]][j := old(Datas(c))[i]];
  }

  // ---------- selection sort ----------

  /** Sorted from lo up to u, and nothing there belongs behind anything from u up to hi. */
  ghost predicate Selected(cmp: Compare, versus: int, s: seq<Data>, lo: nat, u: nat, hi: nat)
    requires u <= hi <= |s|
  {
    forall i, j :: lo <= i < u && i < j < hi ==> Key(cmp, versus, s[i], s[j]) <= 0
  }

  /** Nothing is selected at first; when one element remains, all is sorted. */
  lemma SelectedEnds(cmp: Compare, versus: int, s: seq<Data>, lo: nat, hi: nat)
    requires lo < hi <= |s|
    ensures Selected(cmp, versus, s, lo, lo, hi)
    ensures Selected(cmp, versus, s, lo, hi - 1, hi) ==> Sorted(cmp, versus, s, lo, hi)
  {
  }

  /** The element at t belongs in front of everything from u up to k. */
  ghost predicate Foremost(cmp: Compare, versus: int, s: seq<Data>, t: nat, u: nat, k: nat)
    requires t < |s| && k <= |s|
  {
    forall j :: u <= j < k ==> Key(cmp, versus, s[t], s[j]) <= 0
  }

  lemma SelectNext(cmp: Compare, versus: int, s: seq<Data>, s': seq<Data>, lo: nat, u: nat, t: nat, hi: nat)
    requires lo <= u <= t < hi <= |s| && Lawful(cmp, versus)
    requires Selected(cmp, versus, s, lo, u, hi) && Foremost(cmp, versus, s, t, u, hi)
    requires s' == s[u := s[t]][t := s[u]]
    ensures Selected(cmp, versus, s', lo, u + 1, hi)
  {
    hide Key;
  }

  /** The scan for the element to put at position u. */
  method FindForemost(cmp: Compare, versus: int, fu: Entry, lel: Entry, ghost c: seq<Entry>, ghost u: nat,
      ghost last: nat)
    returns (toswap: Entry, ghost t: nat)
    requires Nodes(c) && u <= last < |c| - 2 && fu == c[u + 1] && lel == c[last + 1]
    ensures u <= t <= last && toswap == c[t + 1]
    ensures Lawful(cmp, versus) ==> Foremost(cmp, versus, Datas(c), t, u, last + 1)
  {
    ghost var s := Datas(c);
    toswap := fu;
    t := u;
    var cursor := fu.next;
    ghost var k := u + 1;
    hide Key, DataOf;
    while cursor != lel.next
      invariant u <= t < k <= last + 1 && toswap == c[t + 1] && cursor == c[k + 1]
      invariant Lawful(cmp, versus) ==> Foremost(cmp, versus, s, t, u, k)
      decreases last + 1 - k
    {
      assert s[t] == toswap.data && s[k] == cursor.data;
      if Key(cmp, versus, toswap.data, cursor.data) > 0 {
        toswap := cursor;
        t := k;
      }
      cursor := cursor.next;
      k := k + 1;
    }
  }

  /** Swap unless the element is in place already. */
  method PutForemost(fu: Entry, toswap: Entry, ghost c: seq<Entry>, ghost u: nat, ghost t: nat, ghost first: nat,
      ghost last: nat)
    requires Nodes(c) && first <= u <= t <= last < |c| - 2 && fu == c[u + 1] && toswap == c[t + 1]
    modifies fu`data, toswap`data
    ensures var s := old(Datas(c)); Datas(c) == s[u := s[t]][t := s[u]]
    ensures Permuted(old(Datas(c)), Datas(c), first, last + 1)
  {
    hide Nodes, Permuted, DataOf;
    SameNode(c, u + 1, t + 1);
    if toswap != fu {
      SwapData(fu, toswap, c, u, t, first, last + 1);
    } else {
      PermutedSelf(Datas(c), first, last + 1);
    }
  }

  /** Put the foremost of what remains at position u. */
  method SelectOne(cmp: Compare, versus: int, fu: Entry, lel: Entry, ghost c: seq<Entry>, ghost first: nat,
      ghost u: nat, ghost last: nat)
    requires Nodes(c) && first <= u <= last < |c| - 2 && fu == c[u + 1] && lel == c[last + 1]
    modifies c`data
    ensures Permuted(old(Datas(c)), Datas(c), first, last + 1)
    ensures Lawful(cmp, versus) && Selected(cmp, versus, old(Datas(c)), first, u, last + 1) ==>
              Selected(cmp, versus, Datas(c), first, u + 1, last + 1)
  {
    hide Nodes, Permuted, Key, DataOf, Lawful, Datas, Foremost, Selected;
    ghost var s := Datas(c);
    var toswap;
    ghost var t;
    toswap, t := FindForemost(cmp, versus, fu, lel, c, u, last);
    PutForemost(fu, toswap, c, u, t, first, last);
    if Lawful(cmp, versus) && Selected(cmp, versus, s, first, u, last + 1) {
      SelectNext(cmp, versus, s, Datas(c), first, u, t, last + 1);
    }
  }

  /** list_sort_selectionsort. */
  method SelectionSort(cmp: Compare, versus: int, first: nat, fel: Entry, last: nat, lel: Entry, ghost c: seq<Entry>)
    requires Nodes(c) && first <= last < |c| - 2 && fel == c[first + 1] && lel == c[last + 1]
    modifies c`data
    ensures Permuted(old(Datas(c)), Datas(c), first, last + 1)
    ensures Lawful(cmp, versus) ==> Sorted(cmp, versus, Datas(c), first, last + 1)
  {
    hide Nodes, Permuted, Key, DataOf, Lawful, Datas, Selected, Sorted;
    ghost var s0 := Datas(c);
    PermutedSelf(s0, first, last + 1);
    SelectedEnds(cmp, versus, s0, first, last + 1);
    if last <= first {
      return;
    }
    SameNode(c, first + 1, last + 1);
    var firstunsorted := fel;
    ghost var u := first;
    while firstunsorted != lel
      invariant first <= u <= last && firstunsorted == c[u + 1] && (firstunsorted == lel <==> u == last)
      invariant Permuted(s0, Datas(c), first, last + 1)
      invariant Lawful(cmp, versus) ==> Selected(cmp, versus, Datas(c), first, u, last + 1)
      decreases last - u
    {
      ghost var s := Datas(c);
      SelectOne(cmp, versus, firstunsorted, lel, c, first, u, last);
      PermutedTrans(s0, s, Datas(c), first, last + 1);
      NextAt(c, u + 1);
      SameNode(c, u + 2, last + 1);
      firstunsorted := firstunsorted.next;
      u := u + 1;
    }
    SelectedEnds(cmp, versus, Datas(c), first, last + 1);
  }

  // ---------- quicksort ----------

  /** Draw the pivot and walk to it from the nearer end. */
  method FindPivot(first: nat, fel: Entry, last: nat, lel: Entry, ghost c: seq<Entry>)
    returns (pivotid: nat, pivot: Entry)
    requires Nodes(c) && first < last < |c| - 2 && fel == c[first + 1] && lel == c[last + 1]
    ensures pivotid <= last - first && pivot == c[first + pivotid + 1]
  {
    var random: nat := *;
    pivotid := random % (last - first + 1);
    if pivotid < (last - first + 1) / 2 {
      var i := 0;
      pivot := fel;
      while i < pivotid
        invariant i <= pivotid && pivot == c[first + i + 1]
      {
        pivot := pivot.next;
        i := i + 1;
      }
    } else {
      var i := last - first;
      pivot := lel;
      while i > pivotid
        invariant pivotid <= i <= last - first && pivot == c[first + i + 1]
      {
        pivot := pivot.prev;
        i := i - 1;
      }
    }
  }

  /** The two inner loops: skip what already lies on its side of the pivot. */
  method Scan(cmp: Compare, versus: int, left: Entry, right: Entry, pivot: Entry,
              ghost c: seq<Entry>, ghost first: nat, ghost last: nat, ghost l: nat, ghost p: nat, ghost r: nat)
    returns (left': Entry, right': Entry, ghost l': nat, ghost r': nat)
    requires Nodes(c) && first <= l < p < r <= last < |c| - 2
    requires left == c[l + 1] && right == c[r + 1] && pivot == c[p + 1]
    requires Split(cmp, versus, Datas(c), Datas(c)[p], first, l, r + 1, last + 1)
    ensures l <= l' <= p <= r' <= r && left' == c[l' + 1] && right' == c[r' + 1]
    ensures Split(cmp, versus, Datas(c), Datas(c)[p], first, l', r' + 1, last + 1)
    ensures l' < p ==> Key(cmp, versus, Datas(c)[l'], Datas(c)[p]) > 0
    ensures r' > p ==> Key(cmp, versus, Datas(c)[r'], Datas(c)[p]) < 0
  {
    hide Key, DataOf;
    left', right', l', r' := left, right, l, r;
    while left' != pivot && Key(cmp, versus, left'.data, pivot.data) <= 0
      invariant l <= l' <= p && left' == c[l' + 1]
      invariant Split(cmp, versus, Datas(c), Datas(c)[p], first, l', r + 1, last + 1)
      decreases p - l'
    {
      left' := left'.next;
      l' := l' + 1;
    }
    while right' != pivot && Key(cmp, versus, right'.data, pivot.data) >= 0
      invariant p <= r' <= r && right' == c[r' + 1]
      invariant Split(cmp, versus, Datas(c), Datas(c)[p], first, l', r' + 1, last + 1)
      decreases r' - p
    {
      right' := right'.prev;
      r' := r' - 1;
    }
  }

  /** What an exchange of two misplaced elements does to a split. */
  lemma SplitSwapped(cmp: Compare, versus: int, s: seq<Data>, s': seq<Data>, first: nat, last: nat, l: nat, p: nat,
      r: nat)
    requires first <= l < p < r <= last < |s|
    requires Split(cmp, versus, s, s[p], first, l, r + 1, last + 1)
    requires Key(cmp, versus, s[l], s[p]) > 0 && Key(cmp, versus, s[r], s[p]) < 0
    requires s' == s[l := s[r]][r := s[l]]
    ensures s'[p] == s[p] && Split(cmp, versus, s', s[p], first, l + 1, r, last + 1)
  {
    hide Key;
  }

  /** Swap two misplaced elements, then move both iterators. */
  method Exchange(cmp: Compare, versus: int, left: Entry, right: Entry,
                  ghost c: seq<Entry>, ghost first: nat, ghost last: nat, ghost l: nat, ghost p: nat, ghost r: nat)
    returns (left': Entry, right': Entry)
    requires Nodes(c) && first <= l < p < r <= last < |c| - 2 && left == c[l + 1] && right == c[r + 1]
    requires Split(cmp, versus, Datas(c), Datas(c)[p], first, l, r + 1, last + 1)
    requires Key(cmp, versus, Datas(c)[l], Datas(c)[p]) > 0 && Key(cmp, versus, Datas(c)[r], Datas(c)[p]) < 0
    modifies left`data, right`data
    ensures left' == c[l + 2] && right' == c[r]
    ensures Permuted(old(Datas(c)), Datas(c), first, last + 1)
    ensures Split(cmp, versus, Datas(c), Datas(c)[p], first, l + 1, r, last + 1)
  {
    ghost var s := Datas(c);
    hide Permuted, Split, Key, Datas;
    NextAt(c, l + 1);
    PrevAt(c, r + 1);
    hide Nodes;
    SwapData(left, right, c, l, r, first, last + 1);
    SplitSwapped(cmp, versus, s, Datas(c), first, last, l, p, r);
    left' := left.next;
    right' := right.prev;
  }

  /** One turn of that loop. */
  method Advance(cmp: Compare, versus: int, left: Entry, right: Entry, pivot: Entry,
                 ghost c: seq<Entry>, ghost first: nat, ghost last: nat, ghost l: nat, ghost p: nat, ghost r: nat)
    returns (left': Entry, right': Entry, ghost l': nat, ghost r': nat)
    requires Nodes(c) && first <= l < p < r <= last < |c| - 2
    requires left == c[l + 1] && right == c[r + 1] && pivot == c[p + 1]
    requires Split(cmp, versus, Datas(c), Datas(c)[p], first, l, r + 1, last + 1)
    modifies c`data
    ensures l <= l' <= p <= r' <= r && r' - l' < r - l && left' == c[l' + 1] && right' == c[r' + 1]
    ensures Permuted(old(Datas(c)), Datas(c), first, last + 1)
    ensures Split(cmp, versus, Datas(c), Datas(c)[p], first, l', r' + 1, last + 1)
  {
    hide Nodes, Permuted, Key, DataOf, Split, Datas;
    PermutedSelf(Datas(c), first, last + 1);
    left', right', l', r' := Scan(cmp, versus, left, right, pivot, c, first, last, l, p, r);
    SameNode(c, l' + 1, p + 1);
    SameNode(c, r' + 1, p + 1);
    if left' != pivot && right' != pivot {
      left', right' := Exchange(cmp, versus, left', right', c, first, last, l', p, r');
      l' := l' + 1;
      r' := r' - 1;
    }
  }

  /** The loop that moves left and right towards the pivot; one of them arrives. */
  method Partition(cmp: Compare, versus: int, fel: Entry, lel: Entry, pivot: Entry,
                   ghost c: seq<Entry>, ghost first: nat, ghost last: nat, ghost p: nat)
    returns (left: Entry, right: Entry, ghost l: nat, ghost r: nat)
    requires Nodes(c) && first <= p <= last < |c| - 2
    requires fel == c[first + 1] && lel == c[last + 1] && pivot == c[p + 1]
    modifies c`data
    ensures first <= l <= p <= r <= last && left == c[l + 1] && right == c[r + 1] && (l == p || r == p)
    ensures Permuted(old(Datas(c)), Datas(c), first, last + 1)
    ensures Split(cmp, versus, Datas(c), Datas(c)[p], first, l, r + 1, last + 1)
  {
    hide Nodes, Permuted, Key, DataOf;
    ghost var s0 := Datas(c);
    PermutedSelf(s0, first, last + 1);
    assert Split(cmp, versus, s0, s0[p], first, first, last + 1, last + 1);
    hide Split, Datas;
    left, right, l, r := fel, lel, first, last;
    SameNode(c, l + 1, p + 1);
    SameNode(c, r + 1, p + 1);
    while left != pivot && right != pivot
      invariant first <= l <= p <= r <= last && left == c[l + 1] && right == c[r + 1]
      invariant (left == pivot <==> l == p) && (right == pivot <==> r == p)
      invariant Permuted(s0, Datas(c), first, last + 1)
      invariant Split(cmp, versus, Datas(c), Datas(c)[p], first, l, r + 1, last + 1)
      decreases r - l
    {
      ghost var s := Datas(c);
      left, right, l, r := Advance(cmp, versus, left, right, pivot, c, first, last, l, p, r);
      PermutedTrans(s0, s, Datas(c), first, last + 1);
      SameNode(c, l + 1, p + 1);
      SameNode(c, r + 1, p + 1);
    }
  }

  /** Move the element at i to the other side of the pivot at p, whose neighbour at q takes its
      place while the pivot takes the neighbour's. */
  method MoveAcross(x: Entry, pivot: Entry, neighbour: Entry, ghost c: seq<Entry>,
                    ghost i: nat, ghost p: nat, ghost q: nat, ghost lo: nat, ghost hi: nat)
    requires |c| >= 2 && Nodes(c) && lo <= i < hi <= |c| - 2 && lo <= p < hi && lo <= q < hi && p != q && p != i
    requires x == c[i + 1] && pivot == c[p + 1] && neighbour == c[q + 1]
    modifies x`data, pivot`data, neighbour`data
    ensures var s := old(Datas(c)); Datas(c) == s[i := s[q]][q := s[p]][p := s[i]]
    ensures Permuted(old(Datas(c)), Datas(c), lo, hi)
  {
    hide Permuted;
    ghost var s := Datas(c);
    RoundPermuted(s, i, p, q, lo, hi);
    var tmpdata := x.data;
    x.data := neighbour.data;
    neighbour.data := pivot.data;
    pivot.data := tmpdata;
    assert Datas(c) == s[i := s[q]][q := s[p]][p := s[i]];
  }

  lemma SplitLeft(cmp: Compare, versus: int, s: seq<Data>, s': seq<Data>, first: nat, last: nat, k: nat, p: nat)
    requires first <= k < p <= last < |s| && Split(cmp, versus, s, s[p], first, k, p + 1, last + 1)
    requires Key(cmp, versus, s[k], s[p]) > 0 && s' == s[k := s[p - 1]][p - 1 := s[p]][p := s[k]]
    ensures s'[p - 1] == s[p] && Split(cmp, versus, s', s[p], first, k, p, last + 1)
  {
    hide Key;
  }

  lemma SplitRight(cmp: Compare, versus: int, s: seq<Data>, s': seq<Data>, first: nat, last: nat, k: nat, p: nat)
    requires first <= p < k <= last < |s| && Split(cmp, versus, s, s[p], first, p, k + 1, last + 1)
    requires Key(cmp, versus, s[k], s[p]) < 0 && s' == s[k := s[p + 1]][p + 1 := s[p]][p := s[k]]
    ensures s'[p + 1] == s[p] && Split(cmp, versus, s', s[p], first, p + 1, k + 1, last + 1)
  {
    hide Key;
  }

  /** What belongs behind the pivot, on its left, goes to its right. */
  method CrossLeft(cmp: Compare, versus: int, left: Entry, pivot: Entry,
                   ghost c: seq<Entry>, ghost first: nat, ghost last: nat, ghost k: nat, ghost p: nat)
    returns (pivot': Entry)
    requires Nodes(c) && first <= k < p <= last < |c| - 2 && left == c[k + 1] && pivot == c[p + 1]
    requires Split(cmp, versus, Datas(c), Datas(c)[p], first, k, p + 1, last + 1)
    requires Key(cmp, versus, Datas(c)[k], Datas(c)[p]) > 0
    modifies c`data
    ensures pivot' == c[p]
    ensures Permuted(old(Datas(c)), Datas(c), first, last + 1)
    ensures Split(cmp, versus, Datas(c), Datas(c)[p - 1], first, k, p, last + 1)
  {
    ghost var s := Datas(c);
    hide Permuted, Split, Key, Datas;
    PrevAt(c, p + 1);
    hide Nodes;
    MoveAcross(left, pivot, pivot.prev, c, k, p, p - 1, first, last + 1);
    SplitLeft(cmp, versus, s, Datas(c), first, last, k, p);
    pivot' := pivot.prev;
  }

  /** What belongs before the pivot, on its right, goes to its left. */
  method CrossRight(cmp: Compare, versus: int, right: Entry, pivot: Entry,
                    ghost c: seq<Entry>, ghost first: nat, ghost last: nat, ghost k: nat, ghost p: nat)
    returns (pivot': Entry)
    requires Nodes(c) && first <= p < k <= last < |c| - 2 && right == c[k + 1] && pivot == c[p + 1]
    requires Split(cmp, versus, Datas(c), Datas(c)[p], first, p, k + 1, last + 1)
    requires Key(cmp, versus, Datas(c)[k], Datas(c)[p]) < 0
    modifies c`data
    ensures pivot' == c[p + 2]
    ensures Permuted(old(Datas(c)), Datas(c), first, last + 1)
    ensures Split(cmp, versus, Datas(c), Datas(c)[p + 1], first, p + 1, k + 1, last + 1)
  {
    ghost var s := Datas(c);
    hide Permuted, Split, Key, Datas;
    NextAt(c, p + 1);
    hide Nodes;
    MoveAcross(right, pivot, pivot.next, c, k, p, p + 1, first, last + 1);
    SplitRight(cmp, versus, s, Datas(c), first, last, k, p);
    pivot' := pivot.next;
  }

  /** A split grows on either side by what already lies on that side. */
  lemma SplitMore(cmp: Compare, versus: int, s: seq<Data>, lo: nat, l: nat, r: nat, hi: nat, p: nat)
    requires l < |s| && r <= hi <= |s| && p < |s|
    ensures Split(cmp, versus, s, s[p], lo, l, r, hi) && Key(cmp, versus, s[l], s[p]) <= 0 ==>
              Split(cmp, versus, s, s[p], lo, l + 1, r, hi)
    ensures r < |s| && Split(cmp, versus, s, s[p], lo, l, r + 1, hi) && Key(cmp, versus, s[r], s[p]) >= 0 ==>
              Split(cmp, versus, s, s[p], lo, l, r, hi)
  {
    hide Key;
  }

  /** The tail for a longer left part: the pivot moves left past what belongs behind it. */
  method TailLeft(cmp: Compare, versus: int, left: Entry, pivot: Entry, pivotid: nat,
                  ghost c: seq<Entry>, ghost first: nat, ghost last: nat, ghost l: nat)
    returns (pivot': Entry, pivotid': nat)
    requires Nodes(c) && first <= l <= first + pivotid <= last < |c| - 2
    requires left == c[l + 1] && pivot == c[first + pivotid + 1]
    requires Split(cmp, versus, Datas(c), Datas(c)[first + pivotid], first, l, first + pivotid + 1, last + 1)
    modifies c`data
    ensures pivotid' <= pivotid && pivot' == c[first + pivotid' + 1]
    ensures Permuted(old(Datas(c)), Datas(c), first, last + 1)
    ensures var p := first + pivotid'; Split(cmp, versus, Datas(c), Datas(c)[p], first, p, p + 1, last + 1)
  {
    hide Nodes, Permuted, Split, Key, DataOf;
    ghost var s0 := Datas(c);
    PermutedSelf(s0, first, last + 1);
    pivot', pivotid' := pivot, pivotid;
    var left' := left;
    ghost var k := l;
    SameNode(c, k + 1, first + pivotid + 1);
    while left' != pivot'
      invariant first <= k <= first + pivotid' && pivotid' <= pivotid && (left' == pivot' <==> k == first + pivotid')
      invariant left' == c[k + 1] && pivot' == c[first + pivotid' + 1]
      invariant Permuted(s0, Datas(c), first, last + 1)
      invariant Split(cmp, versus, Datas(c), Datas(c)[first + pivotid'], first, k, first + pivotid' + 1, last + 1)
      decreases first + pivotid' - k
    {
      ghost var p, s := first + pivotid', Datas(c);
      assert s[k] == left'.data && s[p] == pivot'.data;
      if Key(cmp, versus, left'.data, pivot'.data) > 0 {
        SameNode(c, k + 1, p);
        pivot' := CrossLeft(cmp, versus, left', pivot', c, first, last, k, p);
        PermutedTrans(s0, s, Datas(c), first, last + 1);
        pivotid' := pivotid' - 1;
        if pivot' == left' {
          break;
        }
      } else {
        NextAt(c, k + 1);
        SameNode(c, k + 2, p + 1);
        SplitMore(cmp, versus, s, first, k, p + 1, last + 1, p);
        left' := left'.next;
        k := k + 1;
      }
    }
  }

  /** The tail for a longer right part. */
  method TailRight(cmp: Compare, versus: int, right: Entry, pivot: Entry, pivotid: nat,
                   ghost c: seq<Entry>, ghost first: nat, ghost last: nat, ghost r: nat)
    returns (pivot': Entry, pivotid': nat)
    requires Nodes(c) && first + pivotid <= r <= last < |c| - 2
    requires right == c[r + 1] && pivot == c[first + pivotid + 1]
    requires Split(cmp, versus, Datas(c), Datas(c)[first + pivotid], first, first + pivotid, r + 1, last + 1)
    modifies c`data
    ensures pivotid <= pivotid' <= last - first && pivot' == c[first + pivotid' + 1]
    ensures Permuted(old(Datas(c)), Datas(c), first, last + 1)
    ensures var p := first + pivotid'; Split(cmp, versus, Datas(c), Datas(c)[p], first, p, p + 1, last + 1)
  {
    hide Nodes, Permuted, Split, Key, DataOf;
    ghost var s0 := Datas(c);
    PermutedSelf(s0, first, last + 1);
    pivot', pivotid' := pivot, pivotid;
    var right' := right;
    ghost var k := r;
    SameNode(c, k + 1, first + pivotid + 1);
    while right' != pivot'
      invariant pivotid <= pivotid' && first + pivotid' <= k <= last && (right' == pivot' <==> k == first + pivotid')
      invariant right' == c[k + 1] && pivot' == c[first + pivotid' + 1]
      invariant Permuted(s0, Datas(c), first, last + 1)
      invariant Split(cmp, versus, Datas(c), Datas(c)[first + pivotid'], first, first + pivotid', k + 1, last + 1)
      decreases k - (first + pivotid')
    {
      ghost var p, s := first + pivotid', Datas(c);
      assert s[k] == right'.data && s[p] == pivot'.data;
      if Key(cmp, versus, right'.data, pivot'.data) < 0 {
        SameNode(c, k + 1, p + 2);
        pivot' := CrossRight(cmp, versus, right', pivot', c, first, last, k, p);
        PermutedTrans(s0, s, Datas(c), first, last + 1);
        pivotid' := pivotid' + 1;
        if pivot' == right' {
          break;
        }
      } else {
        PrevAt(c, k + 1);
        SameNode(c, k, p + 1);
        SplitMore(cmp, versus, s, first, p, k, last + 1, p);
        right' := right'.prev;
        k := k - 1;
      }
    }
  }

  /** list_sort_quicksort, up to the two recursive calls: a pivot with everything on its side. */
  method Divide(cmp: Compare, versus: int, first: nat, fel: Entry, last: nat, lel: Entry, ghost c: seq<Entry>)
    returns (pivotid: nat, pivot: Entry)
    requires Nodes(c) && first < last < |c| - 2 && fel == c[first + 1] && lel == c[last + 1]
    modifies c`data
    ensures pivotid <= last - first && pivot == c[first + pivotid + 1]
    ensures Permuted(old(Datas(c)), Datas(c), first, last + 1)
    ensures var p := first + pivotid; Split(cmp, versus, Datas(c), Datas(c)[p], first, p, p + 1, last + 1)
  {
    hide Nodes, Permuted, Split, Key, DataOf;
    ghost var s0 := Datas(c);
    pivotid, pivot := FindPivot(first, fel, last, lel, c);
    var left, right;
    ghost var l, r;
    left, right, l, r := Partition(cmp, versus, fel, lel, pivot, c, first, last, first + pivotid);
    ghost var s1 := Datas(c);
    SameNode(c, l + 1, first + pivotid + 1);
    SameNode(c, r + 1, first + pivotid + 1);
    if right == pivot {
      pivot, pivotid := TailLeft(cmp, versus, left, pivot, pivotid, c, first, last, l);
    } else {
      pivot, pivotid := TailRight(cmp, versus, right, pivot, pivotid, c, first, last, r);
    }
    PermutedTrans(s0, s1, Datas(c), first, last + 1);
  }

  /** What the sort of one of the parts around p leaves true of the whole range. */
  lemma PartSorted(cmp: Compare, versus: int, s0: seq<Data>, a: seq<Data>, b: seq<Data>, lo: nat, p: nat, hi: nat,
      from: nat, to: nat)
    requires lo <= p < hi <= |a| && Split(cmp, versus, a, a[p], lo, p, p + 1, hi) && Permuted(s0, a, lo, hi)
    requires (from == lo && to == p) || (from == p + 1 && to == hi)
    requires Permuted(a, b, from, to)
    ensures b[p] == a[p] && Split(cmp, versus, b, b[p], lo, p, p + 1, hi) && Permuted(s0, b, lo, hi)
    ensures from > p && Sorted(cmp, versus, a, lo, p) ==> Sorted(cmp, versus, b, lo, p)
  {
    SplitKept(cmp, versus, a, b, lo, p, hi, from, to);
    PermutedOutside(a, b, from, to);
    PermutedWider(a, b, from, to, lo, hi);
    PermutedTrans(s0, a, b, lo, hi);
    hide Permuted, Split, Key;
  }

  lemma EmptySorted(cmp: Compare, versus: int, s: seq<Data>, lo: nat, p: nat, hi: nat)
    requires lo <= p < hi <= |s|
    ensures p <= lo ==> Sorted(cmp, versus, s, lo, p)
    ensures hi <= p + 1 ==> Sorted(cmp, versus, s, p + 1, hi)
  {
  }

  /** list_sort_quicksort: for every pivot drawn and every comparator a rearrangement of the
      range, and a sorted one if the comparator is a total preorder. */
  method QuickSort(cmp: Compare, versus: int, first: nat, fel: Entry, last: nat, lel: Entry, ghost c: seq<Entry>)
    requires Nodes(c) && first <= last < |c| - 2 && fel == c[first + 1] && lel == c[last + 1]
    modifies c`data
    ensures Permuted(old(Datas(c)), Datas(c), first, last + 1)
    ensures Lawful(cmp, versus) ==> Sorted(cmp, versus, Datas(c), first, last + 1)
    decreases last - first, 1
  {
    assert last <= first ==> Sorted(cmp, versus, Datas(c), first, last + 1);
    hide Nodes, Permuted, Key, DataOf, Lawful, Split, Datas, Sorted;
    ghost var s0 := Datas(c);
    PermutedSelf(s0, first, last + 1);
    if last <= first {
      return;
    }
    if last - first + 1 <= MIN_QUICKSORT_ELS {
      SelectionSort(cmp, versus, first, fel, last, lel, c);
      return;
    }
    var pivotid, pivot := Divide(cmp, versus, first, fel, last, lel, c);
    ghost var s := Datas(c);
    SortParts(cmp, versus, first, fel, pivotid, pivot, last, lel, c);
    PermutedTrans(s0, s, Datas(c), first, last + 1);
  }

  /** The two recursive calls, around the pivot. */
  method SortParts(cmp: Compare, versus: int, first: nat, fel: Entry, pivotid: nat, pivot: Entry,
                   last: nat, lel: Entry, ghost c: seq<Entry>)
    requires Nodes(c) && first < last < |c| - 2 && fel == c[first + 1] && lel == c[last + 1]
    requires pivotid <= last - first && pivot == c[first + pivotid + 1]
    requires var p := first + pivotid; Split(cmp, versus, Datas(c), Datas(c)[p], first, p, p + 1, last + 1)
    modifies c`data
    ensures Permuted(old(Datas(c)), Datas(c), first, last + 1)
    ensures Lawful(cmp, versus) ==> Sorted(cmp, versus, Datas(c), first, last + 1)
    decreases last - first, 0
  {
    hide Nodes, Permuted, Key, DataOf, Lawful, Split, Datas, Sorted;
    ghost var p, s := first + pivotid, Datas(c);
    PermutedSelf(s, first, last + 1);
    if pivotid > 0 {
      PrevAt(c, p + 1);
      QuickSort(cmp, versus, first, fel, first + pivotid - 1, pivot.prev, c);
      PartSorted(cmp, versus, s, s, Datas(c), first, p, last + 1, first, p);
    }
    ghost var s' := Datas(c);
    EmptySorted(cmp, versus, s', first, p, last + 1);
    if first + pivotid < last {
      NextAt(c, p + 1);
      QuickSort(cmp, versus, first + pivotid + 1, pivot.next, last, lel, c);
      PartSorted(cmp, versus, s, s', Datas(c), first, p, last + 1, p + 1, last + 1);
    }
    if Lawful(cmp, versus) {
      SortedJoin(cmp, versus, Datas(c), first, p, last + 1);
    }
  }

  /** The part of list_sort behind its checks. */
  method SortAll(cmp: Compare, versus: int, head: Entry, tail: Entry, numels: nat, ghost c: seq<Entry>)
    requires Nodes(c) && 2 <= numels == |c| - 2 && head == c[0] && tail == c[|c| - 1]
    modifies c`data
    ensures multiset(Datas(c)) == multiset(old(Datas(c)))
    ensures TotalPreorder(cmp) ==> Sorted(cmp, versus, Datas(c), 0, numels)
  {
    hide Key, DataOf, Sorted, TotalPreorder, Lawful, Permuted, Nodes;
    ghost var s0 := Datas(c);
    NextAt(c, 0);
    PrevAt(c, |c| - 1);
    QuickSort(cmp, versus, 0, head.next, numels - 1, tail.prev, c);
    PermutedBag(s0, Datas(c), 0, numels);
    if TotalPreorder(cmp) {
      PreorderLawful(cmp, versus);
    }
  }

  /** One element or none is sorted already. */
  method SortUnlessShort(cmp: Compare, versus: int, head: Entry, tail: Entry, numels: nat, ghost c: seq<Entry>)
    requires Nodes(c) && |c| >= 2 && numels == |c| - 2 && head == c[0] && tail == c[|c| - 1]
    modifies c`data
    ensures multiset(Datas(c)) == multiset(old(Datas(c)))
    ensures TotalPreorder(cmp) ==> Sorted(cmp, versus, Datas(c), 0, numels)
  {
    hide Nodes, DataOf, Key;
    if numels > 1 {
      SortAll(cmp, versus, head, tail, numels, c);
    }
  }

  lemma ChainFacts(l: List)
    requires l.ChainOk()
    ensures Nodes(l.chain) && |l.chain| >= 2 && l.numels == |l.chain| - 2
    ensures l.head == l.chain[0] && l.tail == l.chain[|l.chain| - 1]
  {
  }

  /** list_sort. Links, middle pointer, length and spare nodes are outside its frame. */
  method Sort(l: List, versus: int) returns (r: int)
    requires l.Valid()
    modifies l.chain`data
    ensures l.Valid()
    ensures r == if l.iterActive || l.comparator.NoComparator? then -1 else 0
    ensures r == -1 ==> l.Contents() == old(l.Contents())
    ensures multiset(l.Contents()) == multiset(old(l.Contents()))
    ensures r == 0 && TotalPreorder(l.comparator.compare) ==>
              Sorted(l.comparator.compare, versus, l.Contents(), 0, l.numels)
  {
    hide List.ChainOk, List.SparesOk, DataOf, Sorted, TotalPreorder, Middle, Linked, Distinct, GoodSpares, Key;
    if l.iterActive || l.comparator.NoComparator? {
      return -1;
    }
    r := 0;
    ChainFacts(l);
    hide Nodes;
    SortUnlessShort(l.comparator.compare, versus, l.head, l.tail, l.numels, l.chain);
  }
}
