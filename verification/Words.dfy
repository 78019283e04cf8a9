/** Unsigned machine words as natural numbers: powers of two, bitwise operators and
    bit reversal. A word of w bits is a number below Pow2(w). All definitions recurse
    on the low bit. */
module Words {

  function Pow2(n: nat): (p: nat)
    ensures p >= 1
  {
    if n == 0 then 1 else 2 * Pow2(n - 1)
  }

  function And(a: nat, b: nat): nat
    decreases a + b
  {
    if a == 0 && b == 0 then 0
    else (if a % 2 == 1 && b % 2 == 1 then 1 else 0) + 2 * And(a / 2, b / 2)
  }

  function Or(a: nat, b: nat): nat
    decreases a + b
  {
    if a == 0 && b == 0 then 0
    else (if a % 2 == 1 || b % 2 == 1 then 1 else 0) + 2 * Or(a / 2, b / 2)
  }

  function Xor(a: nat, b: nat): nat
    decreases a + b
  {
    if a == 0 && b == 0 then 0
    else (if a % 2 != b % 2 then 1 else 0) + 2 * Xor(a / 2, b / 2)
  }

  /** Bitwise complement within a word of w bits. */
  function Not(w: nat, a: nat): (r: nat)
    requires a < Pow2(w)
    ensures r < Pow2(w)
  {
    Pow2(w) - 1 - a
  }

  /** Increment of a word of w bits, wrapping around. */
  function Inc(w: nat, a: nat): (r: nat)
    requires a < Pow2(w)
    ensures r < Pow2(w)
  {
    if a + 1 == Pow2(w) then 0 else a + 1
  }

  /** The low k bits of v. */
  function Low(v: nat, k: nat): (r: nat)
    ensures r < Pow2(k)
  {
    if k == 0 then 0 else v % 2 + 2 * Low(v / 2, k - 1)
  }

  /** v shifted right by k bits. */
  function Shr(v: nat, k: nat): nat {
    if k == 0 then v else Shr(v / 2, k - 1)
  }

  /** The bits of v at positions 0..n-1 in the opposite order. */
  function BitRev(n: nat, v: nat): (r: nat)
    ensures r < Pow2(n)
  {
    if n == 0 then 0 else (if v % 2 == 1 then Pow2(n - 1) else 0) + BitRev(n - 1, v / 2)
  }

  function Log2(n: nat): nat {
    if n <= 1 then 0 else 1 + Log2(n / 2)
  }

  predicate IsPow2(n: nat) {
    n == Pow2(Log2(n))
  }

  // ---- powers of two and low bits ------------------------------------------------

  lemma {:induction false} Pow2Monotone(a: nat, b: nat)
    requires a <= b
    ensures Pow2(a) <= Pow2(b)
    ensures a < b ==> Pow2(a) < Pow2(b)
  {
    if a < b { Pow2Monotone(a, b - 1); }
  }

  lemma {:induction false} Log2Pow2(k: nat)
    ensures Log2(Pow2(k)) == k && IsPow2(Pow2(k))
  {
    if k != 0 { Log2Pow2(k - 1); }
  }

  lemma DoublePow2(n: nat)
    ensures Pow2(n + 1) == 2 * Pow2(n)
  {
  }

  lemma Half(a: nat, p: nat)
    ensures a < 2 * p <==> a / 2 < p
  {
  }

  lemma AddEven(x: nat, p: nat)
    ensures (x + 2 * p) % 2 == x % 2 && (x + 2 * p) / 2 == x / 2 + p
  {
  }

  lemma HalvesOf(x: nat, p: nat, y: nat)
    requires y == x + 2 * p
    ensures y % 2 == x % 2 && y / 2 == x / 2 + p
  {
  }

  lemma NextHalf(v: nat)
    ensures if v % 2 == 0 then (v + 1) / 2 == v / 2 && (v + 1) % 2 == 1
            else (v + 1) / 2 == v / 2 + 1 && (v + 1) % 2 == 0
  {
  }

  /** A word of ones, halved. */
  lemma OnesHalf(n: nat)
    requires n > 0
    ensures (Pow2(n) - 1) % 2 == 1 && (Pow2(n) - 1) / 2 == Pow2(n - 1) - 1
  {
    hide Pow2;
    DoublePow2(n - 1);
    AddEven(1, Pow2(n - 1) - 1);
  }

  lemma NoMask(a: nat)
    ensures Pow2(0) - 1 == 0 && Low(a, 0) == 0
  {
  }

  lemma LowUnfold(v: nat, k: nat)
    requires k > 0
    ensures Low(v, k) == v % 2 + 2 * Low(v / 2, k - 1)
  {
  }

  /** The low bits of a number given as its lowest bit and the rest. */
  lemma LowCons(y: nat, k: nat, r: nat, h: nat)
    requires k > 0 && r < 2 && y == r + 2 * h
    ensures Low(y, k) == r + 2 * Low(h, k - 1)
  {
    hide Low, Pow2;
    HalvesOf(r, h, y);
    LowUnfold(y, k);
  }

  lemma LowAddEven(x: nat, p: nat, y: nat, k: nat)
    requires k > 0 && y == x + 2 * p && Low(x / 2 + p, k - 1) == Low(x / 2, k - 1)
    ensures Low(y, k) == Low(x, k)
  {
    hide Low, Pow2;
    HalvesOf(x, p, y);
    LowUnfold(x, k);
    LowUnfold(y, k);
  }

  lemma {:induction false} LowId(v: nat, k: nat)
    requires v < Pow2(k)
    ensures Low(v, k) == v
  {
    if k != 0 {
      hide Low, Pow2;
      DoublePow2(k - 1);
      Half(v, Pow2(k - 1));
      LowId(v / 2, k - 1);
      LowUnfold(v, k);
    }
  }

  lemma MulLess(d: nat, a: nat, b: nat)
    requires a < b
    ensures d * a + d <= d * b
  {
    var c := b - a - 1;
    assert d * b == d * a + d + d * c;
  }

  /** Quotient and remainder are unique. */
  lemma Division(d: nat, a: nat, r: nat, b: nat, s: nat)
    requires r < d && s < d && d * a + r == d * b + s
    ensures a == b && r == s
  {
    if a < b { MulLess(d, a, b); }
    if b < a { MulLess(d, b, a); }
  }

  function Quotient(v: nat, d: nat): nat
    requires d > 0
  {
    v / d
  }

  function Remainder(v: nat, d: nat): nat
    requires d > 0
  {
    v % d
  }

  lemma Euclid(v: nat, d: nat)
    requires d > 0
    ensures v == d * Quotient(v, d) + Remainder(v, d) && Remainder(v, d) < d
  {
  }

  /** Halving a number, its quotient and its remainder together. */
  lemma HalfDivMod(v: nat, h: nat, b: nat, p: nat, d: nat)
    requires p > 0 && d == 2 * p && v == 2 * h + b && b < 2
    ensures Remainder(v, d) == b + 2 * Remainder(h, p) && Quotient(v, d) == Quotient(h, p)
  {
    hide Quotient, Remainder;
    var q, r := Quotient(h, p), Remainder(h, p);
    Euclid(h, p);
    Euclid(v, d);
    assert 2 * (p * q) == d * q;
    Division(d, Quotient(v, d), Remainder(v, d), q, b + 2 * r);
  }

  /** The low bits are the remainder. */
  lemma {:induction false} LowIsRemainder(v: nat, k: nat)
    ensures Low(v, k) == Remainder(v, Pow2(k))
  {
    if k != 0 {
      hide Low, Pow2, Remainder;
      LowIsRemainder(v / 2, k - 1);
      LowUnfold(v, k);
      DoublePow2(k - 1);
      HalfDivMod(v, v / 2, v % 2, Pow2(k - 1), Pow2(k));
    } else {
      NoMask(v);
    }
  }

  lemma {:induction false} ShrIsQuotient(v: nat, k: nat)
    ensures Shr(v, k) == Quotient(v, Pow2(k))
  {
    if k != 0 {
      hide Shr, Pow2, Quotient;
      ShrIsQuotient(v / 2, k - 1);
      ShrUnfold(v, k);
      DoublePow2(k - 1);
      HalfDivMod(v, v / 2, v % 2, Pow2(k - 1), Pow2(k));
    }
  }

  lemma {:induction false} LowLow(v: nat, a: nat, b: nat)
    requires a <= b
    ensures Low(Low(v, b), a) == Low(v, a)
  {
    if a != 0 {
      hide Low, Pow2;
      var r, h := v % 2, v / 2;
      LowCons(v, a, r, h);
      LowCons(v, b, r, h);
      LowCons(Low(v, b), a, r, Low(h, b - 1));
      LowLow(h, a - 1, b - 1);
    }
  }

  /** Adding a higher power of two does not disturb the low bits. */
  lemma {:induction false} LowAddPow2(x: nat, m: nat, k: nat)
    requires k <= m
    ensures Low(x + Pow2(m), k) == Low(x, k)
  {
    if k != 0 {
      hide Low, Pow2;
      DoublePow2(m - 1);
      LowAddPow2(x / 2, m - 1, k - 1);
      LowAddEven(x, Pow2(m - 1), x + Pow2(m), k);
    }
  }

  lemma {:induction false} LowInc(v: nat, k: nat)
    ensures Low(v + 1, k) == Inc(k, Low(v, k))
  {
    if k != 0 {
      hide Low, Pow2;
      DoublePow2(k - 1);
      LowInc(v / 2, k - 1);
      LowUnfold(v, k);
      LowUnfold(v + 1, k);
      NextHalf(v);
    }
  }

  lemma SameLow(x: nat, y: nat, k: nat)
    requires k > 0
    ensures Low(x, k) == Low(y, k) <==> x % 2 == y % 2 && Low(x / 2, k - 1) == Low(y / 2, k - 1)
  {
    hide Low, Pow2;
    LowUnfold(x, k);
    LowUnfold(y, k);
    BitThenRest(x % 2, Low(x / 2, k - 1), y % 2, Low(y / 2, k - 1));
  }

  lemma BitThenRest(p: nat, q: nat, r: nat, s: nat)
    requires p < 2 && r < 2
    ensures p + 2 * q == r + 2 * s <==> p == r && q == s
  {
  }

  lemma ShrUnfold(v: nat, k: nat)
    requires k > 0
    ensures Shr(v, k) == Shr(v / 2, k - 1)
  {
  }

  /** Low k0 bits and the next k1-k0 bits together determine the low k1 bits. */
  lemma {:induction false} LowJoin(x: nat, y: nat, k0: nat, k1: nat)
    requires k0 <= k1
    ensures Low(x, k1) == Low(y, k1)
            <==> Low(x, k0) == Low(y, k0) && Low(Shr(x, k0), k1 - k0) == Low(Shr(y, k0), k1 - k0)
  {
    if k0 != 0 {
      hide Low, Shr, Pow2;
      LowJoin(x / 2, y / 2, k0 - 1, k1 - 1);
      ShrUnfold(x, k0);
      ShrUnfold(y, k0);
      SameLow(x, y, k0);
      SameLow(x, y, k1);
    }
  }

  // ---- bitwise operators with masks -----------------------------------------------

  lemma OrHalf(a: nat, b: nat)
    ensures Or(a, b) == (if a % 2 == 1 || b % 2 == 1 then 1 else 0) + 2 * Or(a / 2, b / 2)
  {
  }

  lemma AndHalf(a: nat, b: nat)
    ensures And(a, b) == (if a % 2 == 1 && b % 2 == 1 then 1 else 0) + 2 * And(a / 2, b / 2)
  {
  }

  lemma XorHalf(a: nat, b: nat)
    ensures Xor(a, b) == (if a % 2 != b % 2 then 1 else 0) + 2 * Xor(a / 2, b / 2)
  {
  }

  lemma {:induction false} AndLe(a: nat, b: nat)
    ensures And(a, b) <= b
    decreases a + b
  {
    if a != 0 || b != 0 {
      AndLe(a / 2, b / 2);
      AndHalf(a, b);
      hide And;
    }
  }

  lemma {:induction false} AndMask(a: nat, n: nat)
    ensures And(a, Pow2(n) - 1) == Low(a, n)
    decreases n, a
  {
    hide And, Low, Pow2;
    if n != 0 {
      OnesHalf(n);
      AndHalf(a, Pow2(n) - 1);
      AndMask(a / 2, n - 1);
      LowUnfold(a, n);
    } else {
      NoMask(a);
      AndZero(a);
    }
  }

  lemma {:induction false} OrZero(a: nat)
    ensures Or(a, 0) == a
  {
    if a != 0 { OrZero(a / 2); }
  }

  lemma {:induction false} AndZero(a: nat)
    ensures And(a, 0) == 0
  {
    if a != 0 { AndZero(a / 2); }
  }

  lemma {:induction false} OrBound(a: nat, b: nat, w: nat)
    requires a < Pow2(w) && b < Pow2(w)
    ensures Or(a, b) < Pow2(w)
  {
    if w != 0 {
      hide Or, Pow2;
      DoublePow2(w - 1);
      Half(a, Pow2(w - 1));
      Half(b, Pow2(w - 1));
      OrBound(a / 2, b / 2, w - 1);
      OrHalf(a, b);
    } else {
      OrZero(0);
    }
  }

  lemma {:induction false} OrOnes(a: nat, w: nat)
    requires a < Pow2(w)
    ensures Or(a, Pow2(w) - 1) == Pow2(w) - 1
  {
    if w != 0 {
      hide Or, Pow2;
      DoublePow2(w - 1);
      OnesHalf(w);
      Half(a, Pow2(w - 1));
      OrOnes(a / 2, w - 1);
      OrHalf(a, Pow2(w) - 1);
    } else {
      OrZero(0);
    }
  }

  lemma {:induction false} XorMasks(n: nat, m: nat)
    requires n <= m
    ensures Pow2(n) <= Pow2(m)
    ensures Xor(Pow2(n) - 1, Pow2(m) - 1) == Pow2(m) - Pow2(n)
    decreases m
  {
    hide Xor;
    Pow2Monotone(n, m);
    var a, b := Pow2(n) - 1, Pow2(m) - 1;
    XorHalf(a, b);
    if n != 0 {
      XorMasks(n - 1, m - 1);
      assert a / 2 == Pow2(n - 1) - 1 && b / 2 == Pow2(m - 1) - 1;
    } else if m != 0 {
      XorMasks(0, m - 1);
      assert a / 2 == 0 && b / 2 == Pow2(m - 1) - 1;
    }
  }

  /** Testing the bits between two masks. */
  lemma {:induction false} AndBetweenMasks(a: nat, n: nat, m: nat)
    requires n <= m
    ensures Pow2(n) <= Pow2(m)
    ensures And(a, Pow2(m) - Pow2(n)) == 0 <==> Low(Shr(a, n), m - n) == 0
  {
    Pow2Monotone(n, m);
    if n == 0 {
      AndMask(a, m);
      NoMask(0);
    } else {
      hide And, Low, Pow2, Shr;
      Pow2Monotone(n - 1, m - 1);
      DoublePow2(m - 1);
      DoublePow2(n - 1);
      var b, b' := Pow2(m) - Pow2(n), Pow2(m - 1) - Pow2(n - 1);
      AndBetweenMasks(a / 2, n - 1, m - 1);
      ShrUnfold(a, n);
      HalvesOf(0, b', b);
      AndHalf(a, b);
    }
  }

  // ---- bit reversal ------------------------------------------------------------------

  lemma BitRevUnfold(w: nat, x: nat)
    requires w > 0
    ensures BitRev(w, x) == (if x % 2 == 1 then Pow2(w - 1) else 0) + BitRev(w - 1, x / 2)
  {
  }

  lemma BitRevBase(lo: nat, x: nat)
    requires lo < Pow2(0)
    ensures lo == 0 && Pow2(0) == 1 && BitRev(0, lo) == 0 && BitRev(0, x / 2) == 0
  {
  }

  lemma {:induction false} BitRevLow(n: nat, v: nat)
    ensures BitRev(n, Low(v, n)) == BitRev(n, v)
  {
    if n != 0 {
      hide Low, BitRev, Pow2;
      LowUnfold(v, n);
      AddEven(v % 2, Low(v / 2, n - 1));
      BitRevUnfold(n, v);
      BitRevUnfold(n, Low(v, n));
      BitRevLow(n - 1, v / 2);
    }
  }

  lemma {:induction false} BitRevZero(n: nat)
    ensures BitRev(n, 0) == 0
  {
    if n != 0 { BitRevZero(n - 1); }
  }

  lemma {:induction false} BitRevOnes(n: nat)
    ensures BitRev(n, Pow2(n) - 1) == Pow2(n) - 1
  {
    if n != 0 {
      hide BitRev, Pow2;
      DoublePow2(n - 1);
      OnesHalf(n);
      BitRevUnfold(n, Pow2(n) - 1);
      BitRevOnes(n - 1);
    }
  }

  /** The top bit of a number becomes the low bit of its reversal. */
  lemma {:induction false} BitRevTop(n: nat, lo: nat, top: bool)
    requires lo < Pow2(n)
    ensures BitRev(n + 1, lo + if top then Pow2(n) else 0)
            == 2 * BitRev(n, lo) + if top then 1 else 0
  {
    hide BitRev, Pow2;
    var x := lo + if top then Pow2(n) else 0;
    BitRevUnfold(n + 1, x);
    if n == 0 {
      BitRevBase(lo, x);
      AddEven(x, 0);
    } else {
      DoublePow2(n - 1);
      Half(lo, Pow2(n - 1));
      AddEven(lo, if top then Pow2(n - 1) else 0);
      BitRevUnfold(n, lo);
      BitRevTop(n - 1, lo / 2, top);
    }
  }

  lemma {:induction false} BitRevInvolution(n: nat, v: nat)
    ensures BitRev(n, BitRev(n, v)) == Low(v, n)
  {
    if n != 0 {
      hide BitRev, Low, Pow2;
      BitRevUnfold(n, v);
      LowUnfold(v, n);
      BitRevTop(n - 1, BitRev(n - 1, v / 2), v % 2 == 1);
      BitRevInvolution(n - 1, v / 2);
    } else {
      BitRevZero(0);
      NoMask(v);
    }
  }

  lemma BitRevInjective(n: nat, v: nat, w: nat)
    requires BitRev(n, v) == BitRev(n, w)
    ensures Low(v, n) == Low(w, n)
  {
    BitRevInvolution(n, v);
    BitRevInvolution(n, w);
  }

  /** The reversal of a number whose low n bits are zero has no bit at or above k. */
  lemma {:induction false} BitRevOfMultiple(n: nat, k: nat, x: nat)
    requires Low(x, n) == 0
    ensures BitRev(n + k, x) < Pow2(k)
  {
    if n != 0 {
      hide BitRev, Low, Pow2;
      LowUnfold(x, n);
      BitRevUnfold(n + k, x);
      BitRevOfMultiple(n - 1, k, x / 2);
    }
  }
}
