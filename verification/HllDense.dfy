/** The dense HyperLogLog representation (hyperloglog.c): HLL_REGISTERS counters of six bits
    packed into bytes, low bit first, followed by the terminating byte of the string. */
module HllDense {
  import opened Words
  import opened ReverseBits

  /** HLL_REGISTERS, HLL_BITS and HLL_REGISTER_MAX */
  const REGISTERS: nat := 16384
  const BITS: nat := 6
  const REGISTER_MAX: nat := 63

  /** Register bytes plus the terminator. */
  const DENSE_BYTES: nat := 12289

  ghost predicate DenseOk(p: seq<nat>) {
    |p| == DENSE_BYTES && p[DENSE_BYTES - 1] == 0 && forall i | 0 <= i < |p| :: p[i] < Pow2(8)
  }

  /** HLL_DENSE_GET_REGISTER */
  function GetRegister(p: seq<nat>, r: nat): nat
    requires |p| == DENSE_BYTES && r < REGISTERS
  {
    var byte := r * BITS / 8;
    var fb := r * BITS % 8;
    And(Or(Shr(p[byte], fb), Double(p[byte + 1], 8 - fb)), REGISTER_MAX)
  }

  /** HLL_DENSE_SET_REGISTER; byte arithmetic keeps the low eight bits. */
  function SetRegister(p: seq<nat>, r: nat, v: nat): seq<nat>
    requires |p| == DENSE_BYTES && r < REGISTERS
  {
    var byte := r * BITS / 8;
    var fb := r * BITS % 8;
    var p1 := p[byte := And(p[byte], Not(8, Low(Double(REGISTER_MAX, fb), 8)))];
    var p2 := p1[byte := Low(Or(p1[byte], Double(v, fb)), 8)];
    MaskFits(fb);
    var p3 := p2[byte + 1 := And(p2[byte + 1], Not(8, Shr(REGISTER_MAX, 8 - fb)))];
    p3[byte + 1 := Or(p3[byte + 1], Shr(v, 8 - fb))]
  }

  lemma MaskFits(fb: nat)
    requires fb < 8
    ensures Shr(REGISTER_MAX, 8 - fb) < Pow2(8)
  {
    ShrBound(REGISTER_MAX, 8 - fb, 8);
  }

  lemma {:induction false} ShrBound(v: nat, s: nat, w: nat)
    requires v < Pow2(w)
    ensures Shr(v, s) < Pow2(w)
  {
    if s != 0 { ShrBound(v / 2, s - 1, w); }
  }

  /** Bit k of the packed bytes. */
  function StreamBit(p: seq<nat>, k: nat): bool
    requires k / 8 < |p|
  {
    Bit(p[k / 8], k % 8)
  }

  /** 63 has exactly the low six bits. */
  lemma BitOfMax(i: nat)
    ensures Bit(REGISTER_MAX, i) == (i < BITS)
  {
    if i >= BITS {
      HighBitsZero(REGISTER_MAX, BITS, i);
    } else {
      assert REGISTER_MAX == Not(6, 0);
      BitNot(6, 0, i);
      BitZero(i);
    }
  }

  /** A register consists of the six stream bits at its place. */
  lemma RegisterBits(p: seq<nat>, r: nat, i: nat)
    requires DenseOk(p) && r < REGISTERS && i < BITS
    ensures GetRegister(p, r) < Pow2(BITS)
    ensures Bit(GetRegister(p, r), i) == StreamBit(p, r * BITS + i)
  {
    hide Bit, And, Or, Shr, Double, Low;
    var byte, fb := r * BITS / 8, r * BITS % 8;
    var x := Or(Shr(p[byte], fb), Double(p[byte + 1], 8 - fb));
    AndMask(x, 6);
    BitAnd(x, REGISTER_MAX, i);
    BitOfMax(i);
    BitOr(Shr(p[byte], fb), Double(p[byte + 1], 8 - fb), i);
    BitShr(p[byte], fb, i);
    BitDouble(p[byte + 1], 8 - fb, i);
    var k := r * BITS + i;
    assert k == byte * 8 + fb + i;
    if fb + i < 8 {
      assert k / 8 == byte && k % 8 == fb + i;
    } else {
      HighBitsZero(p[byte], 8, fb + i);
      assert k / 8 == byte + 1 && k % 8 == fb + i - 8;
    }
  }

  /** The bits of the two bytes that SetRegister writes. */
  lemma WrittenBits(p: seq<nat>, r: nat, v: nat, j: nat)
    requires DenseOk(p) && r < REGISTERS && v < Pow2(BITS) && j < 8
    ensures var byte, fb := r * BITS / 8, r * BITS % 8;
            var q := SetRegister(p, r, v);
            && q[byte] < Pow2(8) && q[byte + 1] < Pow2(8)
            && Bit(q[byte], j) == (if fb <= j < fb + BITS then Bit(v, j - fb) else Bit(p[byte], j))
            && Bit(q[byte + 1], j) == (if j + 8 - fb < BITS then Bit(v, j + 8 - fb) else Bit(p[byte + 1], j))
  {
    hide Bit, And, Or, Shr, Double, Low, Pow2, Not;
    var byte, fb := r * BITS / 8, r * BITS % 8;
    var m0 := Low(Double(REGISTER_MAX, fb), 8);
    var a := And(p[byte], Not(8, m0));
    BitLow(Or(a, Double(v, fb)), 8, j);
    BitOr(a, Double(v, fb), j);
    BitAnd(p[byte], Not(8, m0), j);
    BitNot(8, m0, j);
    BitLow(Double(REGISTER_MAX, fb), 8, j);
    BitDouble(REGISTER_MAX, fb, j);
    BitDouble(v, fb, j);
    if j >= fb {
      BitOfMax(j - fb);
      if j - fb >= BITS { HighBitsZero(v, BITS, j - fb); }
    }
    MaskFits(fb);
    var m1 := Shr(REGISTER_MAX, 8 - fb);
    var b := And(p[byte + 1], Not(8, m1));
    BitOr(b, Shr(v, 8 - fb), j);
    BitAnd(p[byte + 1], Not(8, m1), j);
    BitNot(8, m1, j);
    BitShr(REGISTER_MAX, 8 - fb, j);
    BitShr(v, 8 - fb, j);
    BitOfMax(j + 8 - fb);
    if j + 8 - fb >= BITS { HighBitsZero(v, BITS, j + 8 - fb); }
    AndBound(p[byte + 1], Not(8, m1), 8);
    ValueFits(v);
    ShrBound(v, 8 - fb, 8);
    OrBound(b, Shr(v, 8 - fb), 8);
  }

  lemma ValueFits(v: nat)
    requires v < Pow2(BITS)
    ensures v < Pow2(8)
  {
    Pow2Monotone(6, 8);
  }

  /** SetRegister writes exactly the six stream bits of its register. */
  lemma SetRegisterBits(p: seq<nat>, r: nat, v: nat, k: nat)
    requires DenseOk(p) && r < REGISTERS && v < Pow2(BITS) && k / 8 < DENSE_BYTES
    ensures StreamBit(SetRegister(p, r, v), k)
            == if r * BITS <= k < r * BITS + BITS then Bit(v, k - r * BITS) else StreamBit(p, k)
  {
    hide Bit, And, Or, Shr, Double, Low, Pow2;
    WrittenBits(p, r, v, k % 8);
  }

  lemma SetRegisterOk(p: seq<nat>, r: nat, v: nat)
    requires DenseOk(p) && r < REGISTERS && v < Pow2(BITS)
    ensures DenseOk(SetRegister(p, r, v))
  {
    hide Bit, And, Or, Shr, Double, Low, Pow2;
    WrittenBits(p, r, v, 0);
    var q := SetRegister(p, r, v);
    if r * BITS / 8 + 1 == DENSE_BYTES - 1 {
      forall j | 0 <= j < 8 ensures Bit(q[DENSE_BYTES - 1], j) == Bit(0, j) {
        SetRegisterBits(p, r, v, (DENSE_BYTES - 1) * 8 + j);
        assert StreamBit(q, (DENSE_BYTES - 1) * 8 + j) == Bit(q[DENSE_BYTES - 1], j);
      }
      ZeroFits();
      SameBits(8, q[DENSE_BYTES - 1], 0);
    }
  }

  lemma ZeroFits()
    ensures 0 < Pow2(8)
  {
  }

  /** Setting one packed register changes that register and no other. */
  lemma GetAfterSet(p: seq<nat>, r: nat, v: nat, q: nat)
    requires DenseOk(p) && r < REGISTERS && v < Pow2(BITS) && q < REGISTERS
    ensures DenseOk(SetRegister(p, r, v))
    ensures GetRegister(SetRegister(p, r, v), q) == if q == r then v else GetRegister(p, q)
  {
    hide Bit, And, Or, Shr, Double, Low, Pow2, GetRegister, SetRegister, StreamBit;
    var p' := SetRegister(p, r, v);
    SetRegisterOk(p, r, v);
    var expected := if q == r then v else GetRegister(p, q);
    RegisterBits(p', q, 0);
    RegisterBits(p, q, 0);
    forall i | 0 <= i < BITS ensures Bit(GetRegister(p', q), i) == Bit(expected, i) {
      RegisterBits(p', q, i);
      RegisterBits(p, q, i);
      SetRegisterBits(p, r, v, q * BITS + i);
    }
    SameBits(BITS, GetRegister(p', q), expected);
  }

  /** All registers of a dense string. */
  ghost function Registers(p: seq<nat>): (regs: seq<nat>)
    requires |p| == DENSE_BYTES
    ensures |regs| == REGISTERS
  {
    seq(REGISTERS, r requires 0 <= r < REGISTERS => GetRegister(p, r))
  }

  lemma SetRegisterMeaning(p: seq<nat>, r: nat, v: nat)
    requires DenseOk(p) && r < REGISTERS && v < Pow2(BITS)
    ensures DenseOk(SetRegister(p, r, v))
    ensures Registers(SetRegister(p, r, v)) == Registers(p)[r := v]
  {
    hide GetRegister, SetRegister, Pow2;
    GetAfterSet(p, r, v, r);
    forall q | 0 <= q < REGISTERS
      ensures GetRegister(SetRegister(p, r, v), q) == if q == r then v else GetRegister(p, q)
    {
      GetAfterSet(p, r, v, q);
    }
  }

  /** The all-zero string stands for all-zero registers. */
  function ZeroDense(): seq<nat> {
    seq(DENSE_BYTES, _ => 0)
  }

  lemma ZeroDenseMeaning()
    ensures DenseOk(ZeroDense()) && Registers(ZeroDense()) == seq(REGISTERS, _ => 0)
  {
    hide GetRegister, Pow2, Bit;
    ZeroFits();
    forall r | 0 <= r < REGISTERS ensures GetRegister(ZeroDense(), r) == 0 {
      forall i | 0 <= i < BITS ensures Bit(GetRegister(ZeroDense(), r), i) == Bit(0, i) {
        RegisterBits(ZeroDense(), r, i);
        BitZero((r * BITS + i) % 8);
        BitZero(i);
      }
      RegisterBits(ZeroDense(), r, 0);
      SameBits(BITS, GetRegister(ZeroDense(), r), 0);
    }
  }
}
