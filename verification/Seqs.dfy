/** Operations on sequences that several files of the program share. */
module Seqs {
  /** s without its element k. */
  function Without<T>(s: seq<T>, k: nat): (r: seq<T>)
    requires k < |s|
    ensures |r| == |s| - 1 && forall j :: 0 <= j < |r| ==> r[j] == s[if j < k then j else j + 1]
  {
    s[..k] + s[k + 1..]
  }

  function Concat<T>(parts: seq<seq<T>>): seq<T> {
    if parts == [] then [] else parts[0] + Concat(parts[1..])
  }

  lemma {:induction false} ConcatLast<T>(parts: seq<seq<T>>, k: nat)
    requires k < |parts|
    ensures Concat(parts[..k + 1]) == Concat(parts[..k]) + parts[k]
    decreases k
  {
    if k == 0 {
      assert parts[..1] == [parts[0]];
      assert parts[..1][1..] == [];
    } else {
      ConcatLast(parts[1..], k - 1);
      assert parts[..k + 1][1..] == parts[1..][..k];
      assert parts[..k][1..] == parts[1..][..k - 1];
    }
  }
}
