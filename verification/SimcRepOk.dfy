/** SimCList's own check of a list, list_repOk: for every heap it ends, and it answers whether the
    fields of the list describe a chain. */
module SimcRepOk {
  import opened SimcList

  /** The fields of the list describe the chain c. */
  ghost predicate Represents(l: List, c: seq<Entry>)
    reads l`head, l`tail, l`mid, l`numels, c`next, c`prev
  {
    Linked(c) && Distinct(c) && c[0] == l.head && c[|c| - 1] == l.tail &&
    |c| == l.numels + 2 && l.mid == Middle(c)
  }

  /** A set of nodes no link leads out of. */
  ghost predicate Closed(nodes: set<Entry>)
    reads nodes`next
  {
    forall e :: e in nodes && e.next != null ==> e.next in nodes
  }

  // ---------- walks ----------

  /** The nodes w were passed on the way from the head of l, over links that are mutually inverse. */
  ghost predicate Walked(l: List, w: seq<Entry>, nodes: set<Entry>)
    reads l`head, w`next, w`prev
  {
    Building(w) && w[0] == l.head && forall e :: e in w ==> e in nodes
  }

  /** The walk cannot go on over a link that is mutually inverse. */
  ghost predicate Stuck(s: Entry)
    reads s, s.next
  {
    s.next == null || s.next.prev != s
  }

  /** A walk from a node without predecessor never comes back. */
  lemma WalkGrows(l: List, w: seq<Entry>, nodes: set<Entry>)
    requires Walked(l, w, nodes) && Closed(nodes) && !Stuck(w[|w| - 1])
    ensures Walked(l, w + [w[|w| - 1].next], nodes)
  {
    var t := w[|w| - 1].next;
    var v := w + [t];
    forall i | 0 <= i < |w|
      ensures w[i] != t
    {
      if i == 0 {
        assert w[0].prev != t.prev;
      } else {
        assert w[i].prev == w[i - 1];
      }
    }
    assert forall i :: 0 <= i < |w| ==> v[i] == w[i];
    assert v[|w|] == t;
  }

  lemma {:induction false} DistinctBound(w: seq<Entry>, nodes: set<Entry>)
    requires Distinct(w) && forall e :: e in w ==> e in nodes
    ensures |w| <= |nodes|
  {
    if w != [] {
      var n := |w| - 1;
      assert w[n] in nodes;
      forall e | e in w[..n]
        ensures e in nodes - {w[n]}
      {
        assert e in w;
      }
      DistinctBound(w[..n], nodes - {w[n]});
    }
  }

  /** Every walk from the head of a chain is a prefix of it. */
  lemma {:induction false} WalkIsPrefix(w: seq<Entry>, c: seq<Entry>)
    requires Building(w) && Linked(c) && w[0] == c[0]
    ensures w <= c
  {
    var n := |w| - 1;
    if n > 0 {
      var v := w[..n];
      assert Building(v);
      WalkIsPrefix(v, c);
      assert v[n - 1] == w[n - 1] == c[n - 1];
      assert w[n - 1].next == w[n];
      assert c[n - 1].next == c[n];
      assert w == v + [w[n]];
    }
  }

  lemma WalkInChain(l: List, w: seq<Entry>, c: seq<Entry>, nodes: set<Entry>)
    requires Represents(l, c) && Walked(l, w, nodes)
    ensures |w| <= |c| && w[|w| - 1] == c[|w| - 1]
    ensures |w| < |c| <==> !Stuck(w[|w| - 1])
  {
    WalkIsPrefix(w, c);
    if |w| < |c| {
      assert c[|w| - 1].next == c[|w|];
      assert c[|w|].prev == c[|w| - 1];
    }
  }

  /** The fields of a list determine its chain. */
  lemma ChainUnique(l: List, c: seq<Entry>, d: seq<Entry>)
    requires Represents(l, c) && Represents(l, d)
    ensures c == d
  {
    WalkIsPrefix(c, d);
  }

  /** In a list that describes a chain the first loop arrives at the middle. */
  lemma MiddleReached(l: List, w: seq<Entry>, c: seq<Entry>, nodes: set<Entry>)
    requires Represents(l, c) && Walked(l, w, nodes) && l.numels >= 1
    requires |w| - 2 == (l.numels - 1) / 2 || (|w| - 2 < (l.numels - 1) / 2 && Stuck(w[|w| - 1]))
    ensures |w| - 2 == (l.numels - 1) / 2 && l.mid == w[|w| - 1]
  {
    WalkInChain(l, w, c, nodes);
  }

  /** A walk that is stuck at the tail, with the middle pointer on its middle, is the chain; in a
      list that describes a chain every walk that is stuck is one. */
  lemma EndReached(l: List, w: seq<Entry>, nodes: set<Entry>)
    requires Walked(l, w, nodes) && Stuck(w[|w| - 1]) && l.tail.next == null && l.numels >= 1
    requires |w| >= (l.numels - 1) / 2 + 2 && l.mid == w[(l.numels - 1) / 2 + 1]
    ensures |w| == l.numels + 2 && w[|w| - 1] == l.tail ==> Represents(l, w)
    ensures forall c :: Represents(l, c) ==> |w| == l.numels + 2 && w[|w| - 1] == l.tail
  {
    forall c | Represents(l, c)
      ensures |w| == l.numels + 2 && w[|w| - 1] == l.tail
    {
      WalkInChain(l, w, c, nodes);
    }
  }

  // ---------- the check ----------

  /** What list_repOk looks at before it walks. */
  predicate EndsOk(l: List)
    reads l, l.head, l.tail
  {
    l.head != l.tail && l.head.prev == null && l.tail.next == null &&
    (l.numels > 0 || (l.mid == null && l.head.next == l.tail && l.tail.prev == l.head)) &&
    l.spareelsnum <= MAX_SPARE_ELEMS
  }

  lemma EndsOfChain(l: List, c: seq<Entry>)
    requires Represents(l, c) && l.spareelsnum <= MAX_SPARE_ELEMS
    ensures EndsOk(l)
  {
    assert c[0] != c[|c| - 1];
    assert c[0].next == c[1] && c[1].prev == c[0];
  }

  lemma EmptyChain(l: List)
    requires EndsOk(l) && l.numels == 0
    ensures Represents(l, [l.head, l.tail])
  {
  }

  /** list_repOk ends on any heap, even one whose links run in a circle, and accepts the list if and
      only if its fields describe a chain. In C every node lies in the finite set nodes. */
  method RepOk(l: List, ghost nodes: set<Entry>) returns (ok: bool)
    requires l.head in nodes && Closed(nodes)
    ensures ok <==> l.spareelsnum <= MAX_SPARE_ELEMS && exists c :: Represents(l, c)
  {
    ok := EndsOk(l);
    if !ok {
      forall c | l.spareelsnum <= MAX_SPARE_ELEMS && Represents(l, c)
        ensures EndsOk(l)
      {
        EndsOfChain(l, c);
      }
      return;
    }
    if l.numels == 0 {
      EmptyChain(l);
      return;
    }
    var half := (l.numels - 1) / 2;
    var i, s: Entry := -1, l.head;
    ghost var w: seq<Entry> := [s];
    while i < half && s.next != null
      invariant Walked(l, w, nodes) && s == w[|w| - 1] && i == |w| - 2 <= half
    {
      if s.next.prev != s {
        break;
      }
      WalkGrows(l, w, nodes);
      w := w + [s.next];
      i, s := i + 1, s.next;
    }
    forall c | Represents(l, c)
      ensures i == half && l.mid == s
    {
      MiddleReached(l, w, c, nodes);
    }
    ok := i == half && l.mid == s;
    if !ok {
      return;
    }
    DistinctBound(w, nodes);
    while s.next != null
      invariant Walked(l, w, nodes) && s == w[|w| - 1] && i == |w| - 2 >= half
      invariant w[half + 1] == l.mid && |w| <= |nodes|
      decreases |nodes| - |w|
    {
      if s.next.prev != s {
        break;
      }
      WalkGrows(l, w, nodes);
      w := w + [s.next];
      i, s := i + 1, s.next;
      DistinctBound(w, nodes);
    }
    ok := i == l.numels && s == l.tail;
    EndReached(l, w, nodes);
  }

  /** The invariant that every operation on lists keeps is one that list_repOk accepts. */
  lemma ValidAccepted(l: List)
    requires l.Valid()
    ensures l.spareelsnum <= MAX_SPARE_ELEMS && exists c :: Represents(l, c)
  {
    assert Represents(l, l.chain);
  }
}
