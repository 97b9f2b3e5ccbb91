/** The bitwise operators of C on unsigned numbers, by their binary digits. */
module Bits {
  function And(a: nat, b: nat): nat
    decreases a
  {
    if a == 0 || b == 0 then 0 else 2 * And(a / 2, b / 2) + a % 2 * (b % 2)
  }

  function Or(a: nat, b: nat): nat
    decreases a + b
  {
    if a == 0 then b else if b == 0 then a else 2 * Or(a / 2, b / 2) + if a % 2 == 1 || b % 2 == 1 then 1 else 0
  }

  function Pow2(k: nat): (p: nat)
    ensures p > 0
  {
    if k == 0 then 1 else 2 * Pow2(k - 1)
  }

  /** a << k */
  function Shl(a: nat, k: nat): nat {
    if k == 0 then a else 2 * Shl(a, k - 1)
  }

  /** a >> k */
  function Shr(a: nat, k: nat): nat {
    if k == 0 then a else Shr(a / 2, k - 1)
  }

  lemma {:induction false} AndOne(a: nat, b: nat)
    ensures And(a, b) == 2 * And(a / 2, b / 2) + a % 2 * (b % 2)
  {
  }

  lemma {:induction false} OrOne(a: nat, b: nat)
    ensures Or(a, b) == 2 * Or(a / 2, b / 2) + if a % 2 == 1 || b % 2 == 1 then 1 else 0
  {
    if a == 0 {
      assert Or(0, b / 2) == b / 2;
    }
  }

  lemma PartsStep(pa: nat, x: nat, pb: nat, y: nat, high: nat, high': nat)
    requires And(pa + x / 2, pb + y / 2) == high + And(x / 2, y / 2)
    requires Or(pa + x / 2, pb + y / 2) == high' + Or(x / 2, y / 2)
    ensures And(2 * pa + x, 2 * pb + y) == 2 * high + And(x, y)
    ensures Or(2 * pa + x, 2 * pb + y) == 2 * high' + Or(x, y)
  {
    AndOne(2 * pa + x, 2 * pb + y);
    OrOne(2 * pa + x, 2 * pb + y);
    AndOne(x, y);
    OrOne(x, y);
    hide And, Or;
    assert (2 * pa + x) / 2 == pa + x / 2 && (2 * pb + y) / 2 == pb + y / 2;
    assert (2 * pa + x) % 2 == x % 2 && (2 * pb + y) % 2 == y % 2;
  }

  /** Both operators work on high and low digits separately. */
  lemma {:induction false} Parts(k: nat, a: nat, x: nat, b: nat, y: nat)
    requires x < Pow2(k) && y < Pow2(k)
    ensures And(Shl(a, k) + x, Shl(b, k) + y) == Shl(And(a, b), k) + And(x, y)
    ensures Or(Shl(a, k) + x, Shl(b, k) + y) == Shl(Or(a, b), k) + Or(x, y)
  {
    if k > 0 {
      hide And, Or;
      Parts(k - 1, a, x / 2, b, y / 2);
      PartsStep(Shl(a, k - 1), x, Shl(b, k - 1), y, Shl(And(a, b), k - 1), Shl(Or(a, b), k - 1));
    }
  }

  /** A mask of k ones keeps the k low digits. */
  lemma {:induction false} Mask(k: nat, n: nat)
    ensures And(n, Pow2(k) - 1) == n % Pow2(k)
  {
    if k > 0 {
      Mask(k - 1, n / 2);
      MaskStep(n, Pow2(k - 1));
    } else {
      assert n % 1 == 0;
    }
  }

  lemma MaskStep(n: nat, p: nat)
    requires p > 0 && And(n / 2, p - 1) == n / 2 % p
    ensures And(n, 2 * p - 1) == n % (2 * p)
  {
    hide *;
    AndOne(n, 2 * p - 1);
    assert (2 * p - 1) / 2 == p - 1 && (2 * p - 1) % 2 == 1;
    ModHalves(n, p);
  }

  lemma ModHalves(n: nat, p: nat)
    requires p > 0
    ensures n % (2 * p) == 2 * (n / 2 % p) + n % 2
  {
    var h := n / 2;
    var q, r := h / p, h % p;
    assert h == q * p + r;
    Double(q, p);
    ModIs(n, 2 * p, q, 2 * r + n % 2);
  }

  lemma Double(q: nat, p: nat)
    ensures q * (2 * p) == 2 * (q * p)
  {
  }

  lemma Multiple(x: int, m: int)
    requires m >= 0
    ensures (x >= 1 ==> x * m >= m) && (x <= -1 ==> x * m <= -m)
  {
  }

  lemma ModIs(n: nat, m: nat, q: nat, r: nat)
    requires r < m && n == q * m + r
    ensures n % m == r
  {
    var d, e := n / m, n % m;
    assert n == d * m + e;
    Distribute(d, q, m);
    Multiple(d - q, m);
  }

  lemma Distribute(d: int, q: int, m: int)
    ensures (d - q) * m == d * m - q * m
  {
  }

  /** Low digits put beside high ones. */
  lemma Beside(k: nat, a: nat, y: nat)
    requires y < Pow2(k)
    ensures Or(Shl(a, k), y) == Shl(a, k) + y && Or(y, Shl(a, k)) == Shl(a, k) + y
  {
    assert Or(a, 0) == a && Or(0, a) == a && Or(0, y) == y && Or(y, 0) == y && Pow2(k) > 0;
    hide *;
    ShlZero(k);
    Parts(k, a, 0, 0, y);
    Parts(k, 0, y, a, 0);
  }

  lemma {:induction false} ShlZero(k: nat)
    ensures Shl(0, k) == 0
  {
    if k > 0 {
      ShlZero(k - 1);
    }
  }

  /** The shifts by the distances that the program uses. */
  lemma Shifts(a: nat)
    ensures Shl(a, 6) == 0x40 * a && Shl(a, 10) == 0x400 * a && Shr(a, 6) == a / 0x40
    ensures Pow2(6) == 0x40 && Pow2(10) == 0x400
  {
    assert Shl(a, 1) == 2 * a && Shl(a, 2) == 4 * a && Shl(a, 3) == 8 * a && Shl(a, 4) == 16 * a;
    assert Shl(a, 5) == 32 * a && Shl(a, 6) == 64 * a && Shl(a, 7) == 128 * a && Shl(a, 8) == 256 * a;
    assert Shl(a, 9) == 512 * a;
    assert Pow2(1) == 2 && Pow2(2) == 4 && Pow2(3) == 8 && Pow2(4) == 16 && Pow2(5) == 32 && Pow2(6) == 64;
    assert Pow2(7) == 128 && Pow2(8) == 256 && Pow2(9) == 512;
    assert Shr(a, 6) == Shr(a / 2, 5) == Shr(a / 4, 4) by { assert a / 2 / 2 == a / 4; }
    assert Shr(a / 4, 4) == Shr(a / 8, 3) == Shr(a / 16, 2) by { assert a / 4 / 2 == a / 8 && a / 8 / 2 == a / 16; }
    assert Shr(a / 16, 2) == Shr(a / 32, 1) == a / 64 by { assert a / 16 / 2 == a / 32 && a / 32 / 2 == a / 64; }
  }

  lemma Parts6(a: nat, x: nat, b: nat, y: nat)
    requires x < 0x40 && y < 0x40
    ensures And(0x40 * a + x, 0x40 * b + y) == 0x40 * And(a, b) + And(x, y)
    ensures Or(0x40 * a + x, 0x40 * b + y) == 0x40 * Or(a, b) + Or(x, y)
  {
    hide *;
    Shifts(a);
    Shifts(b);
    Shifts(And(a, b));
    Shifts(Or(a, b));
    Parts(6, a, x, b, y);
  }
}
