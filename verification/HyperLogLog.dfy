/** HyperLogLog objects (hyperloglog.c): whatever the encoding, adding an element takes the
    maximum of one register, and merging takes the maximum of all. */
module HyperLogLog {
  import opened Basics
  import opened Words
  import opened Buffers
  import opened ReverseBits
  import opened HllDense
  import opened HllSparse

  /** HLL_HDR_SIZE, counted in the length of the string. */
  const HDR_SIZE: nat := 16

  /** The longest pattern that 64-P+1 bits can show. */
  const MAX_COUNT: nat := 50

  /** Register by register maximum. */
  function MaxRegs(a: seq<nat>, b: seq<nat>): seq<nat>
    requires |a| == |b|
  {
    seq(|a|, i requires 0 <= i < |a| => Max(a[i], b[i]))
  }

  // ---- hllPatLen ---------------------------------------------------------------------------

  /** Zero bits of the hash from bit i upwards, bit 63 being taken as set. */
  function Zeros(hash: nat, i: nat): (n: nat)
    ensures i <= 63 ==> n <= 63 - i
    decreases 63 - i
  {
    if i >= 63 || Bit(hash, i) then 0 else 1 + Zeros(hash, i + 1)
  }

  /** The register that an element with this hash belongs to. */
  function Index(hash: nat): (index: nat)
    ensures index < REGISTERS
  {
    IndexMask();
    Low(hash, 14)
  }

  /** The length of the pattern 0...01 above the index bits. */
  function Count(hash: nat): (count: nat)
    ensures 1 <= count <= MAX_COUNT
  {
    1 + Zeros(hash, 14)
  }

  method PatLen(hash: nat) returns (index: nat, count: nat)
    requires hash < Pow2(64)
    ensures index == hash % 16384 && 1 <= count <= 50
    ensures forall i | 14 <= i < 13 + count :: !Bit(hash, i)
    ensures count == 50 || Bit(hash, 13 + count)
    ensures index == Index(hash) && count == Count(hash)
  {
    hide Pow2, And, Or, Bit, Low, Zeros;
    IndexMask();
    LowIsRemainder(hash, 14);
    index := And(hash, 16383);
    AndMask(hash, 14);
    var h := Or(hash, Pow2(63));
    var bit := Pow2(14);
    count := 1;
    LastBit(hash);
    AndPow2(h, 14);
    while And(h, bit) == 0
      invariant 1 <= count <= MAX_COUNT && bit == Pow2(13 + count)
      invariant And(h, bit) == if Bit(h, 13 + count) then bit else 0
      invariant Count(hash) == count + Zeros(hash, 13 + count)
      invariant forall i | 14 <= i < 13 + count :: !Bit(hash, i)
      decreases MAX_COUNT - count
    {
      BelowLast(hash, 13 + count);
      OtherBits(hash, 13 + count);
      count := count + 1;
      DoublePow2(12 + count);
      bit := 2 * bit;
      AndPow2(h, 13 + count);
    }
    BelowLast(hash, 13 + count);
    OtherBits(hash, 13 + count);
  }

  lemma OtherBits(hash: nat, i: nat)
    ensures Bit(Or(hash, Pow2(63)), i) == (i == 63 || Bit(hash, i))
  {
    hide Pow2, Or, Bit;
    BitOr(hash, Pow2(63), i);
    BitPow2(63, i);
  }

  /** Forcing bit 63 changes no other bit, and ends the count. */
  lemma BelowLast(hash: nat, i: nat)
    requires i <= 63
    ensures Zeros(hash, i) == if Bit(Or(hash, Pow2(63)), i) then 0 else 1 + Zeros(hash, i + 1)
  {
    hide Pow2, Or, Bit;
    BitOr(hash, Pow2(63), i);
    BitPow2(63, i);
  }

  lemma IndexMask()
    ensures Pow2(14) == 16384 && 16383 == Pow2(14) - 1
  {
    assert Pow2(10) == 1024;
  }

  lemma LastBit(hash: nat)
    ensures Bit(Or(hash, Pow2(63)), 63)
  {
    hide Pow2, Or, Bit;
    BitOr(hash, Pow2(63), 63);
    BitPow2(63, 63);
  }

  // ---- byte buffers ------------------------------------------------------------------------

  /** Step 3 of hllSparseAdd: shift the tail by the change in length, then write the new
      opcodes. tail is the position after the old opcode, len the end of the string. */
  lemma SpliceMeaning(b: seq<nat>, p: nat, tail: nat, len: nat, s: seq<nat>)
    requires p <= tail <= len <= |b| && p + |s| + (len - tail) <= |b|
    ensures var moved := MemMove(b, p + |s|, tail, len - tail);
            MemCpy(moved, p, s)[..p + |s| + (len - tail)] == b[..p] + s + b[tail..len]
  {
  }

  lemma SpliceBytes(b: seq<nat>, p: nat, tail: nat, len: nat, s: seq<nat>)
    requires p <= tail <= len <= |b| && p + |s| + (len - tail) <= |b| && AreBytes(b) && AreBytes(s)
    ensures AreBytes(MemCpy(MemMove(b, p + |s|, tail, len - tail), p, s))
    ensures b[..p] + s + b[tail..len] == b[..len][..p] + s + b[..len][tail..]
  {
  }

  /** Moving bytes onto themselves, or no bytes, changes nothing. */
  lemma NoMove(b: seq<nat>, dst: nat, src: nat, n: nat)
    requires dst + n <= |b| && src + n <= |b| && (dst == src || n == 0)
    ensures MemMove(b, dst, src, n) == b
  {
  }

  /** Both steps together, the move being left out when it would change nothing. */
  lemma Spliced(b: seq<nat>, p: nat, oldlen: nat, len: nat, s: seq<nat>)
    requires p + oldlen <= len <= |b| && p + |s| + (len - (p + oldlen)) <= |b| && AreBytes(b) && AreBytes(s)
    ensures var moved := if |s| != oldlen && p + oldlen < len then MemMove(b, p + |s|, p + oldlen, len - (p + oldlen)) else b;
            var r := MemCpy(moved, p, s);
            && AreBytes(r) && |r| == |b|
            && r[..p + |s| + (len - (p + oldlen))] == b[..len][..p] + s + b[..len][p + oldlen..]
  {
    hide MemMove, MemCpy, AreBytes;
    SpliceMeaning(b, p, p + oldlen, len, s);
    SpliceBytes(b, p, p + oldlen, len, s);
    if |s| == oldlen || p + oldlen == len { NoMove(b, p + |s|, p + oldlen, len - (p + oldlen)); }
  }

  // ---- walking a sparse string --------------------------------------------------------------

  /** p is a boundary between opcodes of b. */
  ghost predicate Boundary(b: seq<nat>, p: nat) {
    p <= |b| && Parses(b[..p]) && Parses(b[p..])
  }

  lemma StepOp(b: seq<nat>, p: nat)
    requires Boundary(b, p) && p < |b|
    ensures var n := OpLen(b[p]);
            && p + n <= |b| && Boundary(b, p + n) && Parses(b)
            && Parses(b[p..p + n]) && Expand(b[p..p + n]) == Repeat(OpValue(b[p..]), Span(b[p..]))
            && Expand(b[..p + n]) == Expand(b[..p]) + Repeat(OpValue(b[p..]), Span(b[p..]))
            && |Expand(b[..p + n])| <= |Expand(b)|
            && b == b[..p] + b[p..p + n] + b[p + n..]
  {
    hide Parses, Expand;
    var n := OpLen(b[p]);
    FirstOp(b[p..]);
    assert b[p..][..n] == b[p..p + n] && b[p..][n..] == b[p + n..];
    ParsesAppend(b[..p], b[p..p + n]);
    assert b[..p] + b[p..p + n] == b[..p + n];
    ParsesAppend(b[..p + n], b[p + n..]);
    assert b[..p + n] + b[p + n..] == b;
  }

  lemma WholeBoundary(b: seq<nat>)
    requires Parses(b)
    ensures Boundary(b, 0) && Expand(b[..0]) == [] && Boundary(b, |b|) && Expand(b[..|b|]) == Expand(b)
  {
    assert b[0..] == b && b[..|b|] == b && b[|b|..] == [];
  }

  lemma BoundaryPrefix(b: seq<nat>, p: nat)
    requires Boundary(b, p)
    ensures Parses(b) && Expand(b) == Expand(b[..p]) + Expand(b[p..])
  {
    ParsesAppend(b[..p], b[p..]);
    assert b[..p] + b[p..] == b;
  }

  lemma DenseSize(d: seq<nat>)
    requires DenseOk(d)
    ensures |d| == DENSE_BYTES
  {
  }

  /** Every count that a hash can show fits a dense register. */
  lemma CountFits(count: nat)
    requires count <= MAX_COUNT
    ensures count < Pow2(BITS)
  {
    assert Pow2(6) == 64;
  }

  /** The inner loop of hllSparseToDense: one VAL opcode written into dense registers. */
  method FillRun(d0: seq<nat>, start: nat, runlen: nat, regval: nat, ghost before: seq<nat>) returns (d: seq<nat>)
    requires DenseOk(d0) && |d0| == DENSE_BYTES && start + runlen <= REGISTERS && regval <= MAX_COUNT
    requires |before| == start && Registers(d0) == before + Repeat(0, REGISTERS - start)
    ensures DenseOk(d) && |d| == DENSE_BYTES
    ensures Registers(d) == before + Repeat(regval, runlen) + Repeat(0, REGISTERS - start - runlen)
  {
    hide DenseOk, GetRegister, SetRegister;
    CountFits(regval);
    d := d0;
    for i := 0 to runlen
      invariant DenseOk(d) && |d| == DENSE_BYTES
      invariant Registers(d) == before + Repeat(regval, i) + Repeat(0, REGISTERS - start - i)
    {
      SetRegisterMeaning(d, start + i, regval);
      ghost var regs := Registers(d);
      d := SetRegister(d, start + i, regval);
      DenseSize(d);
      assert regs[start + i := regval]
          == before + Repeat(regval, i + 1) + Repeat(0, REGISTERS - start - (i + 1));
    }
  }

  /** No register of a sparse string exceeds 32. */
  lemma {:induction false} SparseValuesSmall(b: seq<nat>, index: nat)
    requires AreBytes(b) && Parses(b) && index < |Expand(b)|
    ensures Expand(b)[index] <= VAL_MAX_VALUE
    decreases |b|
  {
    if b != [] {
      var n := OpLen(b[0]);
      if index >= Span(b) {
        SparseValuesSmall(b[n..], index - Span(b));
      }
    }
  }

  /** The register found by the search has the value of the opcode that covers it. */
  lemma OldValue(b: seq<nat>, p: nat, index: nat)
    requires Boundary(b, p) && p < |b| && |b[p..]| >= OpLen(b[p..][0])
    requires |Expand(b[..p])| <= index < |Expand(b[..p])| + Span(b[p..])
    ensures Parses(b) && index < |Expand(b)| && Expand(b)[index] == OpValue(b[p..])
  {
    hide Parses, Expand, Span;
    BoundaryPrefix(b, p);
    FirstOp(b[p..]);
  }

  /** Replacing the opcode at p by a sequence that stands for its run with one register set. */
  lemma ReplaceAt(b: seq<nat>, p: nat, s: seq<nat>, index: nat, count: nat)
    requires Boundary(b, p) && p < |b| && |b[p..]| >= OpLen(b[p..][0])
    requires |Expand(b[..p])| <= index < |Expand(b[..p])| + Span(b[p..])
    requires Parses(s)
    requires Expand(s) == Repeat(OpValue(b[p..]), Span(b[p..]))[index - |Expand(b[..p])| := count]
    ensures p + OpLen(b[p]) <= |b| && Parses(b) && Parses(b[..p] + s + b[p + OpLen(b[p])..])
    ensures index < |Expand(b)|
    ensures Expand(b[..p] + s + b[p + OpLen(b[p])..]) == Expand(b)[index := count]
    ensures Boundary(b[..p] + s + b[p + OpLen(b[p])..], p)
    ensures (b[..p] + s + b[p + OpLen(b[p])..])[..p] == b[..p]
  {
    hide Parses, Expand, Span;
    StepOp(b, p);
    var n := OpLen(b[p]);
    ReplaceOp(b[..p], b[p..p + n], b[p + n..], s, index - |Expand(b[..p])|, count);
    var b' := b[..p] + s + b[p + n..];
    assert b'[..p] == b[..p] && b'[p..] == s + b[p + n..];
    ParsesAppend(s, b[p + n..]);
  }

  /** A boundary before p stays one when the string changes from p on. */
  lemma BoundaryKept(b: seq<nat>, p: nat, prev: nat, b': seq<nat>)
    requires Boundary(b, p) && Boundary(b', p) && prev <= p && Boundary(b, prev) && b'[..p] == b[..p]
    ensures Boundary(b', prev)
  {
    hide Parses, Expand;
    assert b'[..prev] == b[..p][..prev] == b[..prev];
    assert b[..prev] + b[prev..p] == b[..p];
    ParsesAppend(b[..prev], b[prev..p]);
    ParsesAppend(b[prev..p], b'[p..]);
    assert b[prev..p] == b'[..p][prev..];
    assert b[prev..p] + b'[p..] == b'[prev..];
  }

  /** Splitting an opcode costs at most three more bytes. */
  lemma SplitLength(isVal: bool, isX: bool, curval: nat, before: nat, count: nat, after: nat)
    requires 1 <= count <= VAL_MAX_VALUE
    requires isVal ==> !isX && 1 <= curval <= VAL_MAX_VALUE && before <= VAL_MAX_LEN && after <= VAL_MAX_LEN
    requires !isVal ==> before + after < if isX then XZERO_MAX_LEN else ZERO_MAX_LEN
    ensures var s := Split(isVal, curval, before, count, after);
            1 <= |s| <= (if isX then 2 else 1) + 3
  {
  }

  /** The sequence that replaces one whole opcode. */
  lemma SplitOp(op: seq<nat>, at: nat, count: nat)
    requires op != [] && AreBytes(op) && |op| >= OpLen(op[0]) && at < Span(op) && 1 <= count <= VAL_MAX_VALUE
    ensures IsVal(op[0]) ==> Span(op) <= VAL_MAX_LEN && 1 <= ValValue(op[0]) <= VAL_MAX_VALUE
    ensures Span(op) <= XZERO_MAX_LEN
    ensures var s := Split(IsVal(op[0]), ValValue(op[0]), at, count, Span(op) - 1 - at);
            && AreBytes(s) && Parses(s) && 1 <= |s| <= OpLen(op[0]) + 3
            && Expand(s) == Repeat(OpValue(op), Span(op))[at := count]
  {
    hide Parses, Expand;
    SplitMeaning(IsVal(op[0]), ValValue(op[0]), at, count, Span(op) - 1 - at);
    SplitLength(IsVal(op[0]), IsXZero(op[0]), ValValue(op[0]), at, count, Span(op) - 1 - at);
  }

  lemma ValOp(op: nat, count: nat)
    requires op < 256 && IsVal(op) && ValValue(op) == count && ValLen(op) == 1
    ensures Parses([op]) && Expand([op]) == Repeat(count, 1)
  {
    SingleOp([op]);
  }

  lemma OverwriteOne(b: seq<nat>, len: nat, p: nat, op: nat)
    requires p < len <= |b|
    ensures b[p := op][..len] == b[..len][..p] + [op] + b[..len][p + 1..]
    ensures b[p := op][..len][..p] == b[..len][..p]
  {
  }

  /** The opcode at p covers this register. */
  ghost predicate Covers(b: seq<nat>, p: nat, index: nat) {
    && Boundary(b, p) && p < |b| && |b[p..]| >= OpLen(b[p])
    && |Expand(b[..p])| <= index < |Expand(b[..p])| + Span(b[p..])
  }

  /** The bytes that setting the register takes in addition. */
  ghost function GrowthAt(b: seq<nat>, p: nat, index: nat): int
    requires Covers(b, p, index)
  {
    Growth(b[p..], index - |Expand(b[..p])|)
  }

  /** Setting the register makes the string longer than is allowed, the header included. */
  ghost predicate Outgrows(b: seq<nat>, p: nat, index: nat, maxBytes: nat) {
    Covers(b, p, index) && GrowthAt(b, p, index) > 0 && 16 + |b| + GrowthAt(b, p, index) > maxBytes
  }

  lemma NothingWalked(b: seq<nat>, s: nat)
    ensures Settled(b, s, 0, s)
  {
  }

  lemma OpKinds(op: nat)
    ensures OpLen(op) == if IsXZero(op) then 2 else 1
    ensures IsZero(op) || IsXZero(op) ==> !IsVal(op)
    ensures ValLen(op) >= 1
  {
  }

  class Hll {
    /** HLL_DENSE or HLL_SPARSE */
    var dense: bool
    /** The register bytes, with whatever room is allocated behind them. */
    var buf: seq<nat>
    /** Length of the opcodes of a sparse object. */
    var len: nat

    ghost predicate Valid()
      reads this
    {
      if dense then DenseOk(buf)
      else len < |buf| && AreBytes(buf) && Parses(buf[..len]) && |Expand(buf[..len])| == REGISTERS
    }

    /** Whole opcodes for at most the 16384 registers; Valid() asks for exactly that many. */
    ghost predicate Readable()
      reads this
    {
      if dense then DenseOk(buf)
      else len < |buf| && AreBytes(buf) && Parses(buf[..len]) && |Expand(buf[..len])| <= REGISTERS
    }

    ghost function Regs(): (regs: seq<nat>)
      requires Valid()
      reads this
      ensures |regs| == REGISTERS
    {
      if dense then Registers(buf) else Expand(buf[..len])
    }

    /** createHLLObject: all registers zero, in one XZERO opcode. */
    constructor ()
      ensures Valid() && !dense && Regs() == Repeat(0, REGISTERS)
    {
      dense := false;
      var ops := XZeroSet(REGISTERS);
      buf := [ops.0, ops.1, 0];
      len := 2;
      new;
      assert buf[..len] == ZeroRun(REGISTERS);
      ZeroRunMeaning(REGISTERS);
    }

    /** The search loop of hllSparseAdd: the opcode covering the register. */
    method FindOp(index: nat) returns (p: nat, prev: int, first: nat)
      requires Valid() && !dense && index < REGISTERS
      ensures p < len && Boundary(buf[..len], p) && first == |Expand(buf[..len][..p])|
      ensures |buf[..len][p..]| >= OpLen(buf[p]) && first <= index < first + Span(buf[..len][p..])
      ensures -1 <= prev < p && (prev != -1 ==> Boundary(buf[..len], prev))
    {
      hide Parses, Expand;
      ghost var b := buf[..len];
      WholeBoundary(b);
      p, prev, first := 0, -1, 0;
      while p < len
        invariant p < len && Boundary(b, p) && first == |Expand(b[..p])| <= index
        invariant -1 <= prev && (prev != -1 ==> prev < p && Boundary(b, prev))
        decreases len - p
      {
        StepOp(b, p);
        var oplen, span := 1, 0;
        if IsZero(buf[p]) {
          span := ZeroLen(buf[p]);
        } else if IsVal(buf[p]) {
          span := ValLen(buf[p]);
        } else {
          span := XZeroLen(buf[p], buf[p + 1]);
          oplen := 2;
        }
        if index <= first + span - 1 { return; }
        prev := p;
        p := p + oplen;
        first := first + span;
      }
      assert false;
    }

    /** The merge step of hllSparseAdd: join adjacent VAL opcodes of equal value, scanning
        at most five opcodes from p. */
    method MergeFrom(start: nat)
      requires Valid() && !dense && Boundary(buf[..len], start)
      modifies this`buf, this`len
      ensures Valid() && Regs() == old(Regs()) && len <= old(len)
      ensures Merged(old(buf[..len]), start, buf[..len])
    {
      hide Parses, Expand, Settled, OpLen;
      var p: nat, scanlen: nat := start, 5;
      ghost var n: nat := 0;
      NothingWalked(buf[..len], start);
      while p < len && scanlen > 0
        invariant Valid() && Regs() == old(Regs()) && Boundary(buf[..len], p) && len <= old(len)
        invariant Settled(buf[..len], start, n, p) && n + (old(len) - len) == 5 - scanlen
        decreases scanlen
      {
        scanlen := scanlen - 1;
        ghost var b := buf[..len];
        StepOp(b, p);
        OpKinds(buf[p]);
        if IsXZero(buf[p]) {
          SettledStep(b, start, n, p);
          p, n := p + 2, n + 1;
        } else if IsZero(buf[p]) {
          SettledStep(b, start, n, p);
          p, n := p + 1, n + 1;
        } else if p + 1 < len && IsVal(buf[p + 1]) && ValValue(buf[p]) == ValValue(buf[p + 1])
                  && ValLen(buf[p]) + ValLen(buf[p + 1]) <= VAL_MAX_LEN {
          OpKinds(buf[p + 1]);
          StepOp(b, p + 1);
          MergeAt(p);
          SettledKept(b, start, n, p, buf[..len]);
        } else {
          SettledStep(b, start, n, p);
          p, n := p + 1, n + 1;
        }
      }
      assert Settled(buf[..len], start, n, p);
    }

    method MergeAt(p: nat)
      requires Valid() && !dense && Boundary(buf[..len], p) && p + 1 < len && Boundary(buf[..len], p + 2)
      requires IsVal(buf[p]) && IsVal(buf[p + 1]) && ValValue(buf[p]) == ValValue(buf[p + 1])
      requires ValLen(buf[p]) + ValLen(buf[p + 1]) <= VAL_MAX_LEN
      modifies this`buf, this`len
      ensures Valid() && Regs() == old(Regs()) && len == old(len) - 1 && Boundary(buf[..len], p)
      ensures p < len && buf[..len][..p] == old(buf[..len])[..p]
      ensures IsVal(buf[p]) && ValValue(buf[p]) == old(ValValue(buf[p])) && ValLen(buf[p]) == old(ValLen(buf[p]) + ValLen(buf[p + 1]))
    {
      hide Parses, Expand;
      ghost var b := buf[..len];
      MergeOps(b[..p], buf[p], buf[p + 1], b[p + 2..]);
      assert b == b[..p] + [buf[p], buf[p + 1]] + b[p + 2..];
      ghost var m := ValSet(ValValue(buf[p]), ValLen(buf[p]) + ValLen(buf[p + 1]));
      buf := buf[p + 1 := ValSet(ValValue(buf[p]), ValLen(buf[p]) + ValLen(buf[p + 1]))];
      buf := MemMove(buf, p, p + 1, len - p);
      len := len - 1;
      assert buf[..len] == b[..p] + [m] + b[p + 2..];
      assert buf[..len][p] == m == buf[p];
      assert buf[..len][..p] == b[..p] && buf[..len][p..] == [m] + b[p + 2..];
      SingleOp([m]);
      ParsesAppend([m], b[p + 2..]);
    }

    /** hllSparseToDense: fails, changing nothing, when the runs do not cover the registers. */
    method SparseToDense() returns (ok: bool)
      requires Readable()
      modifies this`dense, this`buf
      ensures ok == old(Valid())
      ensures ok ==> dense && Valid() && Regs() == old(Regs())
      ensures !ok ==> dense == old(dense) && buf == old(buf)
    {
      if dense { return true; }
      var d, idx := DenseFrom();
      if idx != REGISTERS { return false; }
      DenseSize(d);
      assert Repeat(0, REGISTERS - idx) == [];
      dense := true;
      buf := d;
      return true;
    }

    method DenseFrom() returns (d: seq<nat>, idx: nat)
      requires !dense && Readable()
      ensures idx == |Expand(buf[..len])| && DenseOk(d)
      ensures Registers(d) == Expand(buf[..len]) + Repeat(0, REGISTERS - idx)
    {
      hide Parses, Expand, DenseOk, GetRegister, SetRegister;
      ghost var b := buf[..len];
      WholeBoundary(b);
      ZeroDenseMeaning();
      d := ZeroDense();
      idx := 0;
      var p := 0;
      DenseSize(d);
      assert Registers(d) == Expand(b[..0]) + Repeat(0, REGISTERS - 0);
      while p < len
        invariant p <= len && Boundary(b, p) && idx == |Expand(b[..p])| <= REGISTERS
        invariant DenseOk(d) && |d| == DENSE_BYTES && Registers(d) == Expand(b[..p]) + Repeat(0, REGISTERS - idx)
        decreases len - p
      {
        StepOp(b, p);
        ghost var before := Expand(b[..p]);
        if IsZero(buf[p]) {
          idx := idx + ZeroLen(buf[p]);
          p := p + 1;
        } else if IsXZero(buf[p]) {
          idx := idx + XZeroLen(buf[p], buf[p + 1]);
          p := p + 2;
        } else {
          var runlen, regval := ValLen(buf[p]), ValValue(buf[p]);
          d := FillRun(d, idx, runlen, regval, before);
          idx := idx + runlen;
          p := p + 1;
        }
        DenseSize(d);
        assert Expand(b[..p]) + Repeat(0, REGISTERS - idx) == Registers(d);
      }
      assert b[..p] == b;
    }

    /** hllDenseAdd */
    method DenseAdd(index: nat, count: nat) returns (r: int)
      requires Valid() && dense && index < REGISTERS && 1 <= count <= MAX_COUNT
      modifies this`buf
      ensures Valid() && dense && Regs() == old(Regs())[index := Max(old(Regs())[index], count)]
      ensures r == if count > old(Regs())[index] then 1 else 0
    {
      var oldcount := GetRegister(buf, index);
      if count > oldcount {
        CountFits(count);
        SetRegisterMeaning(buf, index, count);
        buf := SetRegister(buf, index, count);
        return 1;
      }
      return 0;
    }

    /** Promotion: convert, then add to the dense object; the addition always reports 1. */
    method Promote(index: nat, count: nat) returns (r: int)
      requires Valid() && !dense && index < REGISTERS && 1 <= count <= MAX_COUNT
      requires count > Regs()[index]
      modifies this
      ensures Valid() && dense && Regs() == old(Regs())[index := count] && r == 1
    {
      var ok := SparseToDense();
      assert ok;
      r := DenseAdd(index, count);
      assert r == 1;
    }

    /** Step 3 of hllSparseAdd: put a new sequence of opcodes in place of the one at p. */
    method Substitute(p: nat, oldlen: nat, s: seq<nat>)
      requires !dense && p + oldlen <= len && len + 4 == |buf| && AreBytes(buf) && AreBytes(s) && 1 <= |s| <= oldlen + 3
      modifies this`buf, this`len
      ensures len == old(len) + |s| - oldlen && len < |buf| && AreBytes(buf)
      ensures buf[..len] == old(buf[..len])[..p] + s + old(buf[..len])[p + oldlen..]
    {
      hide MemMove, MemCpy, AreBytes;
      var deltalen := |s| - oldlen;
      Spliced(buf, p, oldlen, len, s);
      if deltalen != 0 && p + oldlen < len {
        buf := MemMove(buf, p + |s|, p + oldlen, len - (p + oldlen));
      }
      len := len + deltalen;
      buf := MemCpy(buf, p, s);
    }

    /** Cases B and C of hllSparseAdd: the opcode covers one register only. */
    method Overwrite(p: nat, count: nat)
      requires Valid() && !dense && p < len && Boundary(buf[..len], p) && !IsXZero(buf[p])
      requires Span(buf[..len][p..]) == 1 && 1 <= count <= VAL_MAX_VALUE
      modifies this`buf
      ensures Valid() && Boundary(buf[..len], p) && buf[..len][..p] == old(buf[..len])[..p]
      ensures var first := |Expand(old(buf[..len])[..p])|;
              first < REGISTERS && Regs() == old(Regs())[first := count]
    {
      hide Parses, Expand, OpValue, Span, ValLen, ValValue, ZeroLen, XZeroLen;
      ghost var b := buf[..len];
      ghost var first := |Expand(b[..p])|;
      var op := ValSet(count, 1);
      ValOp(op, count);
      assert b[p..][0] == buf[p];
      assert Repeat(count, 1) == Repeat(OpValue(b[p..]), 1)[0 := count];
      ReplaceAt(b, p, [op], first, count);
      ghost var was := buf;
      buf := buf[p := op];
      OverwriteOne(was, len, p, op);
    }

    /** Steps 2 and 3 of hllSparseAdd for an opcode that has to change. Reports false, with
        nothing changed, when the string would grow beyond maxBytes. */
    method Rewrite(p: nat, first: nat, index: nat, count: nat, maxBytes: nat) returns (fits: bool)
      requires Valid() && !dense && len + 4 == |buf| && p < len && Boundary(buf[..len], p)
      requires |buf[..len][p..]| >= OpLen(buf[p]) && first == |Expand(buf[..len][..p])|
      requires first <= index < first + Span(buf[..len][p..])
      requires OpValue(buf[..len][p..]) < count && 1 <= count <= VAL_MAX_VALUE
      modifies this`buf, this`len
      ensures Valid() && fits ==> index < |old(Regs())| && Regs() == old(Regs())[index := count]
      ensures Valid() && (!fits ==> buf == old(buf) && len == old(len))
      ensures var growth := Growth(old(buf[..len])[p..], index - first);
              if growth > 0 && HDR_SIZE + old(len) + growth > maxBytes then !fits else fits && len == old(len) + growth
      ensures fits ==> p <= len && Boundary(buf[..len], p) && buf[..len][..p] == old(buf[..len])[..p]
    {
      hide Parses, Expand, Split, ZeroLen, XZeroLen, ValLen, ValValue, Repeat;
      ghost var b := buf[..len];
      assert b[p..][0] == buf[p];
      StepOp(b, p);
      var isVal, isX := IsVal(buf[p]), IsXZero(buf[p]);
      var oldlen := if isX then 2 else 1;
      var runlen := if isVal then ValLen(buf[p]) else if isX then XZeroLen(buf[p], buf[p + 1]) else ZeroLen(buf[p]);
      assert runlen == Span(b[p..]);
      if runlen == 1 && !isX {
        Overwrite(p, count);
        return true;
      }
      var last := first + runlen - 1;
      SplitOp(b[p..], index - first, count);
      SplitSize(b[p..], index - first, count);
      var s := Split(isVal, ValValue(buf[p]), index - first, count, last - index);
      if |s| > oldlen && HDR_SIZE + len + (|s| - oldlen) > maxBytes { return false; }
      ghost var b' := b[..p] + s + b[p + oldlen..];
      ReplaceAt(b, p, s, index, count);
      Substitute(p, oldlen, s);
      assert buf[..len] == b' && b'[..p] == b[..p];
      return true;
    }

    /** hllSparseAdd: update the register in the opcode string, or promote to dense when the
        value or the new length does not fit. */
    method SparseAdd(index: nat, count: nat, maxBytes: nat)
      returns (r: int, ghost p: nat, ghost start: nat, ghost mid: seq<nat>)
      requires Valid() && !dense && index < REGISTERS && 1 <= count <= MAX_COUNT
      modifies this
      ensures Valid() && Regs() == old(Regs())[index := Max(old(Regs())[index], count)]
      ensures r == if count > old(Regs())[index] then 1 else 0
      ensures r == 0 ==> !dense && buf[..len] == old(buf[..len])
      ensures r == 1 ==> (dense <==> count > 32 || Outgrows(old(buf[..len]), p, index, maxBytes))
      ensures count <= 32 ==> Covers(old(buf[..len]), p, index)
      ensures r == 1 && !dense ==>
                && Covers(old(buf[..len]), p, index) && |mid| == old(len) + GrowthAt(old(buf[..len]), p, index)
                && start <= p && Merged(mid, start, buf[..len])
    {
      hide Parses, Expand, DenseOk, Span, Growth, Merged;
      r, p, start, mid := 0, 0, 0, [];
      if count > VAL_MAX_VALUE {
        SparseValuesSmall(buf[..len], index);
        r := Promote(index, count);
        return;
      }
      ghost var b := buf[..len];
      buf := buf[..len] + [0, 0, 0, 0];
      assert buf[..len] == b;
      var at, prev, first := FindOp(index);
      p := at;
      StepOp(b, at);
      OldValue(b, at, index);
      assert b[at..][0] == buf[at];
      if IsVal(buf[at]) {
        if ValValue(buf[at]) >= count { return; }
      }
      var fits := Rewrite(at, first, index, count, maxBytes);
      if !fits {
        r := Promote(index, count);
        return;
      }
      var from := if prev != -1 then prev else 0;
      WholeBoundary(b);
      BoundaryKept(b, at, from, buf[..len]);
      start, mid := from, buf[..len];
      MergeFrom(from);
      r := 1;
    }

    /** hllAdd for an element with this hash. */
    method AddElement(hash: nat, maxBytes: nat) returns (r: int)
      requires Valid() && hash < Pow2(64)
      modifies this
      ensures Valid() && Regs() == old(Regs())[Index(hash) := Max(old(Regs())[Index(hash)], Count(hash))]
      ensures r == if Regs() != old(Regs()) then 1 else 0
    {
      hide Parses, Expand, DenseOk, Index, Count;
      ghost var regs := Regs();
      var index, count := PatLen(hash);
      if dense {
        r := DenseAdd(index, count);
      } else {
        var x, _, _, _ := SparseAdd(index, count, maxBytes);
        r := x;
      }
      assert r == 1 ==> Regs()[index] != regs[index];
    }

    /** hllMerge: raise the array to this object's registers. An object whose runs do not
        cover the registers is refused. */
    method MergeInto(max: array<nat>) returns (ok: bool)
      requires Readable() && max.Length == REGISTERS
      modifies max
      ensures ok == Valid()
      ensures ok ==> max[..] == MaxRegs(old(max[..]), Regs())
    {
      if dense {
        MergeDense(max);
        return true;
      }
      var i := MergeSparse(max);
      assert i == REGISTERS ==> Expand(buf[..len]) + Repeat(0, REGISTERS - i) == Expand(buf[..len]);
      return i == REGISTERS;
    }

    method MergeDense(max: array<nat>)
      requires Valid() && dense && max.Length == REGISTERS
      modifies max
      ensures max[..] == MaxRegs(old(max[..]), Regs())
    {
      hide GetRegister, DenseOk;
      ghost var start := max[..];
      DenseSize(buf);
      for i := 0 to REGISTERS
        invariant forall k | 0 <= k < i :: max[k] == Max(start[k], GetRegister(buf, k))
        invariant forall k | i <= k < REGISTERS :: max[k] == start[k]
      {
        var val := GetRegister(buf, i);
        if val > max[i] { max[i] := val; }
      }
    }

    method MergeSparse(max: array<nat>) returns (i: nat)
      requires Readable() && !dense && max.Length == REGISTERS
      modifies max
      ensures i == |Expand(buf[..len])| <= REGISTERS
      ensures max[..] == MaxRegs(old(max[..]), Expand(buf[..len]) + Repeat(0, REGISTERS - i))
    {
      hide Parses, Expand;
      ghost var b, start := buf[..len], max[..];
      WholeBoundary(b);
      i := 0;
      var p := 0;
      while p < len
        invariant p <= len && Boundary(b, p) && i == |Expand(b[..p])| <= REGISTERS
        invariant max[..] == MaxRegs(start, Expand(b[..p]) + Repeat(0, REGISTERS - i))
        decreases len - p
      {
        StepOp(b, p);
        ghost var before, now := Expand(b[..p]), max[..];
        var runlen := 0;
        if IsZero(buf[p]) {
          runlen := ZeroLen(buf[p]);
          p := p + 1;
        } else if IsXZero(buf[p]) {
          runlen := XZeroLen(buf[p], buf[p + 1]);
          p := p + 2;
        } else {
          runlen := ValLen(buf[p]);
          RaiseRun(max, i, runlen, ValValue(buf[p]));
          p := p + 1;
        }
        i := i + runlen;
        assert Expand(b[..p]) + Repeat(0, REGISTERS - i) == before + (Expand(b[..p])[|before|..] + Repeat(0, REGISTERS - i));
      }
      assert b[..p] == b;
    }
  }

  /** The inner loop of hllMerge. */
  method RaiseRun(max: array<nat>, start: nat, runlen: nat, regval: nat)
    requires start + runlen <= max.Length
    modifies max
    ensures forall k | 0 <= k < max.Length ::
              max[k] == if start <= k < start + runlen then Max(old(max[k]), regval) else old(max[k])
  {
    for i := start to start + runlen
      invariant forall k | 0 <= k < max.Length ::
                  max[k] == if start <= k < i then Max(old(max[k]), regval) else old(max[k])
    {
      if regval > max[i] { max[i] := regval; }
    }
  }
}
