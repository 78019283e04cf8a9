/** The parallel bit reversal of dict.c: log2(w) rounds of swapping ever smaller blocks
    reverse a word, for every word size that is a power of two. */
module ReverseBits {
  import opened Words

  function Bit(v: nat, i: nat): bool {
    if i == 0 then v % 2 == 1 else Bit(v / 2, i - 1)
  }

  lemma {:induction false} BitOfShr(v: nat, i: nat)
    ensures Bit(v, i) <==> Shr(v, i) % 2 == 1
  {
    if i != 0 { BitOfShr(v / 2, i - 1); }
  }

  /** Bit i is the i-th binary digit. */
  lemma BitIsDigit(v: nat, i: nat)
    ensures Bit(v, i) <==> v / Pow2(i) % 2 == 1
  {
    hide Shr, Bit, Pow2;
    BitOfShr(v, i);
    ShrIsQuotient(v, i);
  }

  /** v << s in a word of w bits. */
  function Shl(w: nat, v: nat, s: nat): nat {
    Low(Double(v, s), w)
  }

  function Double(v: nat, s: nat): nat
    decreases s
  {
    if s == 0 then v else Double(2 * v, s - 1)
  }

  // ---- bits of each operator ------------------------------------------------------

  lemma {:induction false} BitZero(i: nat)
    ensures !Bit(0, i)
  {
    if i != 0 { BitZero(i - 1); }
  }

  lemma {:induction false} BitAnd(a: nat, b: nat, i: nat)
    ensures Bit(And(a, b), i) == (Bit(a, i) && Bit(b, i))
  {
    hide And;
    AndHalf(a, b);
    if i != 0 { BitAnd(a / 2, b / 2, i - 1); }
  }

  lemma {:induction false} BitOr(a: nat, b: nat, i: nat)
    ensures Bit(Or(a, b), i) == (Bit(a, i) || Bit(b, i))
  {
    hide Or;
    OrHalf(a, b);
    if i != 0 { BitOr(a / 2, b / 2, i - 1); }
  }

  lemma {:induction false} BitXor(a: nat, b: nat, i: nat)
    ensures Bit(Xor(a, b), i) == (Bit(a, i) != Bit(b, i))
  {
    hide Xor;
    XorHalf(a, b);
    if i != 0 { BitXor(a / 2, b / 2, i - 1); }
  }

  lemma {:induction false} BitNot(w: nat, a: nat, i: nat)
    requires a < Pow2(w) && i < w
    ensures Bit(Not(w, a), i) == !Bit(a, i)
  {
    if i != 0 {
      BitNot(w - 1, a / 2, i - 1);
      assert Not(w, a) / 2 == Not(w - 1, a / 2);
    }
  }

  lemma {:induction false} BitLow(v: nat, w: nat, i: nat)
    ensures Bit(Low(v, w), i) == (i < w && Bit(v, i))
  {
    if w == 0 {
      BitZero(i);
    } else if i != 0 {
      BitLow(v / 2, w - 1, i - 1);
    }
  }

  lemma {:induction false} BitShr(v: nat, s: nat, i: nat)
    ensures Bit(Shr(v, s), i) == Bit(v, i + s)
  {
    if s != 0 { BitShr(v / 2, s - 1, i); }
  }

  lemma {:induction false} BitDouble(v: nat, s: nat, i: nat)
    ensures Bit(Double(v, s), i) == (i >= s && Bit(v, i - s))
    decreases s
  {
    if s != 0 {
      BitDouble(2 * v, s - 1, i);
      if i == s - 1 { assert !Bit(2 * v, 0); }
      if i >= s { assert Bit(2 * v, i - s + 1) == Bit(v, i - s); }
    }
  }

  lemma {:induction false} AndPow2(x: nat, i: nat)
    ensures And(x, Pow2(i)) == if Bit(x, i) then Pow2(i) else 0
  {
    AndHalf(x, Pow2(i));
    if i == 0 {
      AndZero(x / 2);
      assert Pow2(0) / 2 == 0;
    } else {
      AndPow2(x / 2, i - 1);
      assert Pow2(i) / 2 == Pow2(i - 1);
    }
  }

  lemma {:induction false} BitPow2(i: nat, j: nat)
    ensures Bit(Pow2(i), j) == (i == j)
  {
    if i == 0 {
      if j != 0 { BitZero(j - 1); }
    } else if j != 0 {
      assert Pow2(i) / 2 == Pow2(i - 1);
      BitPow2(i - 1, j - 1);
    }
  }

  lemma {:induction false} BitRevBit(n: nat, v: nat, i: nat)
    requires i < n
    ensures Bit(BitRev(n, v), i) == Bit(v, n - 1 - i)
  {
    AddTop(n - 1, BitRev(n - 1, v / 2), v % 2 == 1, i);
    if i < n - 1 { BitRevBit(n - 1, v / 2, i); }
  }

  lemma {:induction false} AddTop(n: nat, lo: nat, top: bool, i: nat)
    requires lo < Pow2(n) && i <= n
    ensures Bit(lo + if top then Pow2(n) else 0, i) == if i == n then top else Bit(lo, i)
  {
    if n != 0 && i != 0 { AddTop(n - 1, lo / 2, top, i - 1); }
  }

  lemma {:induction false} HighBitsZero(v: nat, w: nat, i: nat)
    requires v < Pow2(w) && i >= w
    ensures !Bit(v, i)
  {
    if w == 0 { BitZero(i); } else { HighBitsZero(v / 2, w - 1, i - 1); }
  }

  lemma {:induction false} SameBits(w: nat, a: nat, b: nat)
    requires a < Pow2(w) && b < Pow2(w)
    requires forall i | 0 <= i < w :: Bit(a, i) == Bit(b, i)
    ensures a == b
  {
    if w != 0 {
      assert Bit(a, 0) == Bit(b, 0);
      forall i | 0 <= i < w - 1 ensures Bit(a / 2, i) == Bit(b / 2, i) {
        assert Bit(a, i + 1) == Bit(b, i + 1);
      }
      SameBits(w - 1, a / 2, b / 2);
    }
  }

  // ---- one round ---------------------------------------------------------------------

  function Position(q: nat, s: nat, r: nat): nat {
    q * s + r
  }

  /** After the round with block size s: the mask selects the even blocks, and the n blocks
      of v0 stand in reverse order. */
  ghost predicate BlocksReversed(n: nat, s: nat, mask: nat, v: nat, v0: nat) {
    forall q: nat, r: nat | q < n && r < s ::
      && Bit(mask, Position(q, s, r)) == (q % 2 == 0)
      && Bit(v, Position(q, s, r)) == Bit(v0, Position(n - 1 - q, s, r))
  }

  lemma HalfPosition(q: nat, s: nat, r: nat)
    ensures Position(2 * q, s, r) == Position(q, 2 * s, r)
    ensures Position(2 * q + 1, s, r) == Position(q, 2 * s, s + r) == Position(2 * q, s, r) + s
  {
  }

  lemma PositionBound(q: nat, s: nat, r: nat, n: nat)
    requires q < n && r < s
    ensures Position(q, s, r) < n * s
    ensures q > 0 ==> Position(q, s, r) == Position(q - 1, s, r) + s
  {
    assert (q + 1) * s <= n * s;
    assert q > 0 ==> q * s == (q - 1) * s + s;
  }

  lemma SwapBit(w: nat, v: nat, mask: nat, s: nat, i: nat)
    requires mask < Pow2(w) && i < w
    ensures Bit(Or(And(Shr(v, s), mask), And(Shl(w, v, s), Not(w, mask))), i)
            == if Bit(mask, i) then Bit(v, i + s) else i >= s && Bit(v, i - s)
  {
    BitOr(And(Shr(v, s), mask), And(Shl(w, v, s), Not(w, mask)), i);
    BitAnd(Shr(v, s), mask, i);
    BitAnd(Shl(w, v, s), Not(w, mask), i);
    BitShr(v, s, i);
    BitLow(Double(v, s), w, i);
    BitDouble(v, s, i);
    BitNot(w, mask, i);
  }

  lemma MaskBit(w: nat, mask: nat, s: nat, i: nat)
    requires i < w
    ensures Bit(Xor(mask, Shl(w, mask, s)), i) == (Bit(mask, i) != (i >= s && Bit(mask, i - s)))
  {
    BitXor(mask, Shl(w, mask, s), i);
    BitLow(Double(mask, s), w, i);
    BitDouble(mask, s, i);
  }

  /** An even block takes the upper half of its double block, an odd one the lower. */
  lemma PositionNeighbours(p: nat, s: nat, r: nat)
    ensures Position(p, 2 * s, r) + s == Position(p, 2 * s, s + r)
    ensures if p == 0 then Position(p, 2 * s, r) == r else Position(p, 2 * s, r) - s == Position(p - 1, 2 * s, s + r)
  {
    if p > 0 { assert p * (2 * s) == (p - 1) * (2 * s) + 2 * s; }
  }

  lemma RoundBit(w: nat, n: nat, s: nat, mask: nat, mask': nat, v: nat, v': nat, v0: nat, p: nat, r: nat)
    requires w == n * (2 * s) && BlocksReversed(n, 2 * s, mask, v, v0) && p < n && r < s
    requires mask' == Xor(mask, Shl(w, mask, s)) && mask' < Pow2(w)
    requires v' == Or(And(Shr(v, s), mask'), And(Shl(w, v, s), Not(w, mask')))
    ensures var i := Position(p, 2 * s, r);
            && Bit(mask', i) && !Bit(mask', i + s)
            && Bit(v', i) == Bit(v0, Position(n - 1 - p, 2 * s, s + r))
            && Bit(v', i + s) == Bit(v0, Position(n - 1 - p, 2 * s, r))
  {
    hide Bit, Xor, Or, And, Shl, Shr, Not, Pow2;
    var i := Position(p, 2 * s, r);
    PositionBound(p, 2 * s, r, n);
    PositionBound(p, 2 * s, s + r, n);
    PositionNeighbours(p, s, r);
    hide Position;
    MaskBit(w, mask, s, i);
    MaskBit(w, mask, s, i + s);
    SwapBit(w, v, mask', s, i);
    SwapBit(w, v, mask', s, i + s);
  }

  lemma Round(w: nat, n: nat, s: nat, mask: nat, mask': nat, v: nat, v': nat, v0: nat)
    requires w == n * (2 * s) && s > 0 && BlocksReversed(n, 2 * s, mask, v, v0)
    requires mask' == Xor(mask, Shl(w, mask, s)) && mask' < Pow2(w)
    requires v' == Or(And(Shr(v, s), mask'), And(Shl(w, v, s), Not(w, mask')))
    ensures BlocksReversed(2 * n, s, mask', v', v0)
  {
    hide Bit, Xor, Or, And, Shl, Shr, Not, Pow2, Position;
    forall q: nat, r: nat | q < 2 * n && r < s
      ensures Bit(mask', Position(q, s, r)) == (q % 2 == 0)
      ensures Bit(v', Position(q, s, r)) == Bit(v0, Position(2 * n - 1 - q, s, r))
    {
      var p := q / 2;
      RoundBit(w, n, s, mask, mask', v, v', v0, p, r);
      HalfPosition(p, s, r);
      HalfPosition(n - 1 - p, s, r);
    }
  }

  lemma {:induction false} XorBound(a: nat, b: nat, w: nat)
    requires a < Pow2(w) && b < Pow2(w)
    ensures Xor(a, b) < Pow2(w)
  {
    if w != 0 { XorBound(a / 2, b / 2, w - 1); }
  }

  lemma {:induction false} AndBound(a: nat, b: nat, w: nat)
    requires b < Pow2(w)
    ensures And(a, b) < Pow2(w)
  {
    AndLe(a, b);
  }

  lemma RoundBounds(w: nat, s: nat, mask: nat, v: nat)
    requires mask < Pow2(w) && v < Pow2(w)
    ensures var mask' := Xor(mask, Shl(w, mask, s));
            mask' < Pow2(w) && Or(And(Shr(v, s), mask'), And(Shl(w, v, s), Not(w, mask'))) < Pow2(w)
  {
    hide Xor, Or, And, Shr, Pow2;
    var mask' := Xor(mask, Shl(w, mask, s));
    XorBound(mask, Shl(w, mask, s), w);
    AndBound(Shr(v, s), mask', w);
    AndBound(Shl(w, v, s), Not(w, mask'), w);
    OrBound(And(Shr(v, s), mask'), And(Shl(w, v, s), Not(w, mask')), w);
  }

  lemma AllReversed(w: nat, mask: nat, v: nat, v0: nat)
    requires BlocksReversed(w, 1, mask, v, v0) && v < Pow2(w)
    ensures v == BitRev(w, v0)
  {
    hide Bit, BitRev, Pow2;
    forall i | 0 <= i < w ensures Bit(v, i) == Bit(BitRev(w, v0), i) {
      assert Position(i, 1, 0) == i && Position(w - 1 - i, 1, 0) == w - 1 - i;
      BitRevBit(w, v0, i);
    }
    SameBits(w, v, BitRev(w, v0));
  }

  lemma OneBlock(w: nat, v: nat)
    ensures BlocksReversed(1, w, Not(w, 0), v, v)
  {
    forall q: nat, r: nat | q < 1 && r < w ensures Bit(Not(w, 0), Position(q, w, r)) {
      BitNot(w, 0, r);
      BitZero(r);
    }
  }

  /** rev: the loop swaps blocks of w/2, w/4, ..., 1 bits. */
  method Rev(w: nat, v0: nat) returns (v: nat)
    requires IsPow2(w) && v0 < Pow2(w)
    ensures v == BitRev(w, v0)
  {
    hide Bit, Xor, Or, And, Shl, Shr, BlocksReversed, BitRev, Not, Pow2;
    v := v0;
    var s := w;
    var mask: nat := Not(w, 0);
    ghost var n: nat, k: nat, size: nat := 1, Log2(w), w;
    OneBlock(w, v0);
    s := s / 2;
    while s > 0
      invariant w == n * size && size == Pow2(k) && s == size / 2
      invariant mask < Pow2(w) && v < Pow2(w)
      invariant BlocksReversed(n, size, mask, v, v0)
      decreases s
    {
      HalveBlocks(w, n, size, k, s);
      ghost var mask1, v1 := mask, v;
      RoundBounds(w, s, mask, v);
      mask := Xor(mask, Shl(w, mask, s));
      v := Or(And(Shr(v, s), mask), And(Shl(w, v, s), Not(w, mask)));
      Round(w, n, s, mask1, mask, v1, v, v0);
      n, k, size := 2 * n, k - 1, s;
      s := s / 2;
    }
    SingleBits(w, n, size, k);
    AllReversed(w, mask, v, v0);
  }

  lemma HalveBlocks(w: nat, n: nat, size: nat, k: nat, s: nat)
    requires w == n * size && size == Pow2(k) && s == size / 2 && s > 0
    ensures k > 0 && size == 2 * s && s == Pow2(k - 1) && w == n * (2 * s) && w == 2 * n * s
  {
  }

  lemma SingleBits(w: nat, n: nat, size: nat, k: nat)
    requires w == n * size && size == Pow2(k) && size / 2 == 0
    ensures size == 1 && n == w
  {
  }
}
