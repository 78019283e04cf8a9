/** The reverse-binary cursor arithmetic of dictScan (dict.c), free of any table.

    w is the number of bits of an unsigned long. A cursor is read through its
    reversal: BitRev(w, v) is the position of the scan, and a hash h has been passed
    once BitRev(w, h) is below that position. */
module ScanCursor {
  import opened Words

  /** Set the bits above the mask, reverse, increment, reverse. */
  function Advance(w: nat, v: nat, m0: nat): (r: nat)
    requires m0 < Pow2(w)
    ensures r < Pow2(w)
  {
    BitRev(w, Inc(w, BitRev(w, Or(v, Not(w, m0)))))
  }

  /** Increment the bits not covered by the smaller mask. */
  function ExpandStep(w: nat, v: nat, m0: nat): nat
    requires m0 < Pow2(w) && v < Pow2(w)
  {
    OrBound(v, m0, w);
    Or(And(Inc(w, Or(v, m0)), Not(w, m0)), And(v, m0))
  }

  /** The bits of v lying between a mask of k0 bits and a mask of k1 bits. */
  function HighPart(v: nat, k0: nat, k1: nat): nat
    requires k0 <= k1
  {
    Low(Shr(v, k0), k1 - k0)
  }

  /** The position of the scan after a step with a mask of k bits: one past every
      word that agrees with v on the low k bits. It is Pow2(w) when the scan is over. */
  function PositionAfter(w: nat, v: nat, k: nat): (p: nat)
    requires k <= w
    ensures 0 < p <= Pow2(w)
  {
    if k == 0 then Pow2(w)
    else (if v % 2 == 1 then Pow2(w - 1) else 0) + PositionAfter(w - 1, v / 2, k - 1)
  }

  /** A number whose bits are j ones below zeros. */
  ghost predicate IsRunOfOnes(x: nat) {
    exists j: nat :: x == Pow2(j) - 1
  }

  // ---- what the two cursor updates compute ------------------------------------

  lemma {:induction false} ReversedAdvance(w: nat, v: nat, k: nat)
    requires k <= w && v < Pow2(w)
    ensures Pow2(k) <= Pow2(w)
    ensures BitRev(w, Or(v, Pow2(w) - Pow2(k))) + 1 == PositionAfter(w, v, k)
  {
    hide Or, BitRev;
    Pow2Monotone(k, w);
    if k == 0 {
      OrOnes(v, w);
      BitRevOnes(w);
    } else {
      ReversedAdvance(w - 1, v / 2, k - 1);
      var b, b' := Pow2(w) - Pow2(k), Pow2(w - 1) - Pow2(k - 1);
      assert b == 2 * b';
      OrEven(v, b, b');
      BitRevUnfold(w, Or(v, b));
    }
  }

  lemma OrEven(a: nat, b: nat, b': nat)
    requires b == 2 * b'
    ensures Or(a, b) == a % 2 + 2 * Or(a / 2, b')
    ensures Or(a, b) % 2 == a % 2 && Or(a, b) / 2 == Or(a / 2, b')
  {
    hide Or;
    OrHalf(a, b);
    assert b % 2 == 0 && b / 2 == b';
  }

  lemma {:induction false} PositionIsMultiple(w: nat, v: nat, k: nat)
    requires k <= w
    ensures Low(PositionAfter(w, v, k), w - k) == 0
  {
    if k == 0 {
      LowAddPow2(0, w, w);
      LowId(0, w);
    } else {
      PositionIsMultiple(w - 1, v / 2, k - 1);
      LowAddPow2(PositionAfter(w - 1, v / 2, k - 1), w - 1, w - k);
    }
  }

  /** The returned cursor is zero exactly when the reversed counter overflowed;
      otherwise it stands at PositionAfter. It has no bit above the mask. */
  lemma AdvanceMeaning(w: nat, v: nat, k: nat)
    requires k <= w && v < Pow2(w)
    ensures Pow2(k) <= Pow2(w)
    ensures var next := Advance(w, v, Pow2(k) - 1);
            && (next == 0 <==> PositionAfter(w, v, k) == Pow2(w))
            && (next != 0 ==> BitRev(w, next) == PositionAfter(w, v, k))
            && next < Pow2(k)
  {
    hide Low, PositionAfter, BitRev, Or, Pow2;
    Pow2Monotone(k, w);
    ReversedAdvance(w, v, k);
    BitRevZero(w);
    var p := PositionAfter(w, v, k);
    if p != Pow2(w) {
      BitRevInvolution(w, p);
      LowId(p, w);
      PositionIsMultiple(w, v, k);
      BitRevOfMultiple(w - k, k, p);
    }
  }

  /** The expansion step keeps the bits of the smaller mask and increments, cyclically,
      the bits between the masks. */
  lemma {:induction false} ExpandStepMeaning(w: nat, v: nat, k0: nat, k1: nat)
    requires k0 <= k1 <= w && v < Pow2(w)
    ensures Pow2(k0) <= Pow2(w)
    ensures var v' := ExpandStep(w, v, Pow2(k0) - 1);
            && v' < Pow2(w)
            && Low(v', k0) == Low(v, k0)
            && HighPart(v', k0, k1) == Inc(k1 - k0, HighPart(v, k0, k1))
  {
    hide ExpandStep, HighPart, Low, Inc;
    Pow2Monotone(k0, w);
    if k0 == 0 {
      ExpandFromZero(w, v, k1);
    } else {
      Pow2Monotone(k0 - 1, w - 1);
      ExpandStepMeaning(w - 1, v / 2, k0 - 1, k1 - 1);
      ExpandStepHalf(w, v, k0);
      PrependBit(ExpandStep(w - 1, v / 2, Pow2(k0 - 1) - 1), v, k0, k1);
    }
  }

  lemma PrependBit(x: nat, v: nat, k0: nat, k1: nat)
    requires 0 < k0 <= k1
    ensures Low(v % 2 + 2 * x, k0) == v % 2 + 2 * Low(x, k0 - 1)
    ensures HighPart(v % 2 + 2 * x, k0, k1) == HighPart(x, k0 - 1, k1 - 1)
    ensures Low(v, k0) == v % 2 + 2 * Low(v / 2, k0 - 1)
    ensures HighPart(v, k0, k1) == HighPart(v / 2, k0 - 1, k1 - 1)
  {
    var y := v % 2 + 2 * x;
    assert y / 2 == x && y % 2 == v % 2;
  }

  lemma ExpandFromZero(w: nat, v: nat, k1: nat)
    requires k1 <= w && v < Pow2(w)
    ensures ExpandStep(w, v, Pow2(0) - 1) == Inc(w, v)
    ensures Low(Inc(w, v), 0) == Low(v, 0)
    ensures HighPart(Inc(w, v), 0, k1) == Inc(k1, HighPart(v, 0, k1))
  {
    OrZero(v);
    AndMask(Inc(w, v), w);
    LowId(Inc(w, v), w);
    AndZero(v);
    OrZero(Inc(w, v));
    LowOfInc(w, v, k1);
  }

  lemma LowOfInc(w: nat, v: nat, k: nat)
    requires k <= w && v < Pow2(w)
    ensures Low(Inc(w, v), k) == Inc(k, Low(v, k))
  {
    LowInc(v, k);
    var x := v + 1;
    if x == Pow2(w) {
      LowAddPow2(0, w, k);
      assert 0 + Pow2(w) == x;
    }
  }

  lemma ExpandStepHalf(w: nat, v: nat, k0: nat)
    requires 0 < k0 <= w && v < Pow2(w) && Pow2(k0) <= Pow2(w)
    ensures ExpandStep(w, v, Pow2(k0) - 1)
            == v % 2 + 2 * ExpandStep(w - 1, v / 2, Pow2(k0 - 1) - 1)
  {
    hide And, Or;
    var m0, m0' := Pow2(k0) - 1, Pow2(k0 - 1) - 1;
    assert m0 == 2 * m0' + 1;
    OrBound(v, m0, w);
    OrBound(v / 2, m0', w - 1);
    OrHalf(v, m0);
    var x, x' := Inc(w, Or(v, m0)), Inc(w - 1, Or(v / 2, m0'));
    var n, n' := Not(w, m0), Not(w - 1, m0');
    DoubleInc(w, Or(v, m0), Or(v / 2, m0'));
    assert n == 2 * n';
    AndDoubled(x', n');
    AndOddMask(v, m0');
    OrDoubled(And(x', n'), v % 2, And(v / 2, m0'));
  }

  lemma DoubleInc(w: nat, a: nat, a': nat)
    requires w > 0 && a == 2 * a' + 1 && a < Pow2(w)
    ensures a' < Pow2(w - 1) && Inc(w, a) == 2 * Inc(w - 1, a')
  {
  }

  lemma AndDoubled(x: nat, n: nat)
    ensures And(2 * x, 2 * n) == 2 * And(x, n)
  {
    AndHalf(2 * x, 2 * n);
  }

  lemma AndOddMask(v: nat, m: nat)
    ensures And(v, 2 * m + 1) == v % 2 + 2 * And(v / 2, m)
  {
    AndHalf(v, 2 * m + 1);
  }

  lemma OrDoubled(y: nat, bit: nat, z: nat)
    requires bit < 2
    ensures Or(2 * y, bit + 2 * z) == bit + 2 * Or(y, z)
  {
    OrHalf(2 * y, bit + 2 * z);
  }

  // ---- coverage ------------------------------------------------------------------

  /** On a single table every hash passed by the step was already passed or lies in
      the emitted bucket; and the emitted bucket is passed. */
  lemma {:induction false} SingleTableCoverage(w: nat, h: nat, v: nat, k: nat)
    requires k <= w
    ensures BitRev(w, h) < PositionAfter(w, v, k)
            <==> BitRev(w, h) < BitRev(w, v) || Low(h, k) == Low(v, k)
  {
    if k != 0 && h % 2 == v % 2 { SingleTableCoverage(w - 1, h / 2, v / 2, k - 1); }
  }

  /** Words agreeing on the low k0 bits are ordered by the remaining bits. */
  lemma {:induction false} SameBucketOrder(w: nat, h: nat, v: nat, k0: nat)
    requires k0 <= w && Low(h, k0) == Low(v, k0)
    ensures BitRev(w, h) < BitRev(w, v) <==> BitRev(w - k0, Shr(h, k0)) < BitRev(w - k0, Shr(v, k0))
  {
    if k0 != 0 { SameBucketOrder(w - 1, h / 2, v / 2, k0 - 1); }
  }

  lemma {:induction false} PrefixOrder(w: nat, x: nat, y: nat, d: nat)
    requires d <= w && BitRev(d, x) < BitRev(d, y)
    ensures BitRev(w, x) < BitRev(w, y)
  {
    if d != 0 && x % 2 == y % 2 { PrefixOrder(w - 1, x / 2, y / 2, d - 1); }
  }

  /** Below a run of ones, bit reversal respects the order. */
  lemma {:induction false} RunOrders(d: nat, x: nat, y: nat)
    requires IsRunOfOnes(x) && y < x < Pow2(d)
    ensures BitRev(d, y) < BitRev(d, x)
  {
    RunOfOnesOdd(x);
    if y % 2 == 1 {
      RunOfOnesHalf(x);
      RunOrders(d - 1, x / 2, y / 2);
    }
  }

  /** Below any other number, it does not. */
  lemma {:induction false} NonRunWitness(d: nat, x: nat) returns (y: nat)
    requires !IsRunOfOnes(x) && x < Pow2(d)
    ensures y < x && BitRev(d, y) >= BitRev(d, x)
  {
    ZeroIsRun();
    if x % 2 == 0 {
      y := 1;
    } else {
      RunOfOnesHalf(x);
      var z := NonRunWitness(d - 1, x / 2);
      y := 2 * z + 1;
    }
  }

  lemma ZeroIsRun()
    ensures IsRunOfOnes(0)
  {
    assert 0 == Pow2(0) - 1;
  }

  lemma RunOfOnesOdd(x: nat)
    requires x != 0
    ensures IsRunOfOnes(x) ==> x % 2 == 1
  {
    if IsRunOfOnes(x) {
      var j: nat :| x == Pow2(j) - 1;
      assert Pow2(j) == 2 * Pow2(j - 1);
    }
  }

  lemma RunOfOnesHalf(x: nat)
    requires x % 2 == 1
    ensures IsRunOfOnes(x) <==> IsRunOfOnes(x / 2)
  {
    if IsRunOfOnes(x) {
      var j: nat :| x == Pow2(j) - 1;
      assert j > 0 && x / 2 == Pow2(j - 1) - 1;
    }
    if IsRunOfOnes(x / 2) {
      var j: nat :| x / 2 == Pow2(j) - 1;
      assert x == Pow2(j + 1) - 1;
    }
  }

  /** A hash is emitted from the larger table when it shares the bucket of the smaller
      mask and the upward expansion loop reaches it. */
  predicate ExpansionReaches(h: nat, v: nat, k0: nat, k1: nat)
    requires k0 <= k1
  {
    Low(h, k0) == Low(v, k0) && HighPart(h, k0, k1) >= HighPart(v, k0, k1)
  }

  /** With two tables the step loses nothing exactly when the cursor bits between the
      masks are a run of ones (in particular when they are all zero). */
  lemma TwoTableCoverage(w: nat, v: nat, k0: nat, k1: nat)
    requires k0 <= k1 <= w && v < Pow2(w)
    ensures (forall h: nat | h < Pow2(w) && BitRev(w, h) < PositionAfter(w, v, k0) ::
               BitRev(w, h) < BitRev(w, v) || ExpansionReaches(h, v, k0, k1))
            <==> IsRunOfOnes(HighPart(v, k0, k1))
  {
    hide BitRev, PositionAfter, Pow2, Low, Shr;
    var hi := HighPart(v, k0, k1);
    if IsRunOfOnes(hi) {
      forall h: nat | h < Pow2(w) && BitRev(w, h) < PositionAfter(w, v, k0)
        ensures BitRev(w, h) < BitRev(w, v) || ExpansionReaches(h, v, k0, k1)
      {
        SingleTableCoverage(w, h, v, k0);
        if !ExpansionReaches(h, v, k0, k1) && Low(h, k0) == Low(v, k0) {
          RunOrders(k1 - k0, hi, HighPart(h, k0, k1));
          HighPartOrder(w, h, v, k0, k1);
        }
      }
    } else {
      var y := NonRunWitness(k1 - k0, hi);
      MissedHash(w, v, k0, k1, y);
    }
  }

  lemma HighPartOrder(w: nat, h: nat, v: nat, k0: nat, k1: nat)
    requires k0 <= k1 <= w && Low(h, k0) == Low(v, k0)
    requires BitRev(k1 - k0, HighPart(h, k0, k1)) < BitRev(k1 - k0, HighPart(v, k0, k1))
    ensures BitRev(w, h) < BitRev(w, v)
  {
    BitRevLow(k1 - k0, Shr(h, k0));
    BitRevLow(k1 - k0, Shr(v, k0));
    PrefixOrder(w - k0, Shr(h, k0), Shr(v, k0), k1 - k0);
    SameBucketOrder(w, h, v, k0);
  }

  /** The word with the low k0 bits of v below y. */
  function Join(v: nat, y: nat, k0: nat): nat {
    if k0 == 0 then y else v % 2 + 2 * Join(v / 2, y, k0 - 1)
  }

  lemma NoBits(y: nat, v: nat, k1: nat)
    ensures Low(y, 0) == Low(v, 0) && Shr(y, 0) == y && HighPart(y, 0, k1) == Low(y, k1)
    ensures y < Pow2(k1) ==> HighPart(y, 0, k1) == y
  {
    if y < Pow2(k1) { LowId(y, k1); }
  }

  lemma {:induction false} JoinParts(v: nat, y: nat, k0: nat, k1: nat)
    requires k0 <= k1 && y < Pow2(k1 - k0)
    ensures var h := Join(v, y, k0); h < Pow2(k1) && Low(h, k0) == Low(v, k0) && Shr(h, k0) == y && HighPart(h, k0, k1) == y
  {
    hide Low, Shr, HighPart;
    if k0 == 0 {
      NoBits(y, v, k1);
    } else {
      var x := Join(v / 2, y, k0 - 1);
      JoinParts(v / 2, y, k0 - 1, k1 - 1);
      PrependBit(x, v, k0, k1);
      ShrUnfold(v % 2 + 2 * x, k0);
      assert (v % 2 + 2 * x) / 2 == x;
    }
  }

  /** The low k1 bits of a word are its low k0 bits joined to those above. */
  lemma {:induction false} JoinOf(h: nat, v: nat, k0: nat, k1: nat)
    requires k0 <= k1 && Low(h, k0) == Low(v, k0)
    ensures Join(v, HighPart(h, k0, k1), k0) == Low(h, k1)
  {
    hide Low, Shr, HighPart;
    if k0 == 0 {
      NoBits(h, v, k1);
    } else {
      PrependBit(0, h, k0, k1);
      PrependBit(0, v, k0, k1);
      LowUnfold(h, k1);
      JoinOf(h / 2, v / 2, k0 - 1, k1 - 1);
    }
  }

  /** y, as bits between the masks, stands for hashes that a call with cursor v passes for the
      first time although its expansion loop has started above them. */
  predicate Skipped(y: nat, v: nat, k0: nat, k1: nat)
    requires k0 <= k1
  {
    y < HighPart(v, k0, k1) && BitRev(k1 - k0, y) >= BitRev(k1 - k0, HighPart(v, k0, k1))
  }

  /** The hashes that a call passes and its expansion loop does not reach are those whose bits
      between the masks are skipped. */
  lemma PassedUnreached(w: nat, h: nat, v: nat, k0: nat, k1: nat)
    requires k0 <= k1 <= w
    ensures (BitRev(w, v) <= BitRev(w, h) < PositionAfter(w, v, k0) && !ExpansionReaches(h, v, k0, k1))
            <==> (Low(h, k0) == Low(v, k0) && Skipped(HighPart(h, k0, k1), v, k0, k1))
  {
    hide BitRev, PositionAfter, Pow2, Low, Shr;
    SingleTableCoverage(w, h, v, k0);
    var y, hi, d := HighPart(h, k0, k1), HighPart(v, k0, k1), k1 - k0;
    if Low(h, k0) == Low(v, k0) && y < hi {
      LowId(y, d);
      LowId(hi, d);
      if BitRev(d, y) < BitRev(d, hi) {
        HighPartOrder(w, h, v, k0, k1);
      } else {
        if BitRev(d, y) == BitRev(d, hi) { BitRevInjective(d, y, hi); }
        HighPartOrder(w, v, h, k0, k1);
      }
    }
  }

  /** A hash that the step passes over without emitting it. */
  lemma MissedHash(w: nat, v: nat, k0: nat, k1: nat, y: nat)
    requires k0 <= k1 <= w && v < Pow2(w) && Skipped(y, v, k0, k1)
    ensures var h := Join(v, y, k0);
            && h < Pow2(k1) <= Pow2(w)
            && BitRev(w, v) <= BitRev(w, h) < PositionAfter(w, v, k0)
            && !ExpansionReaches(h, v, k0, k1)
  {
    hide BitRev, PositionAfter, Low, Shr, Join;
    JoinParts(v, y, k0, k1);
    Pow2Monotone(k1, w);
    PassedUnreached(w, Join(v, y, k0), v, k0, k1);
  }
}
