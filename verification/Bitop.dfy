/** The computing part of BITOP (bitops.c): four words at a time where all operands have data, byte
    by byte elsewhere. */
module Bitop {
  import opened Words
  import opened ReverseBits
  import opened Buffers
  import opened Popcount

  datatype Op = AND | OR | XOR | NOT

  // ---- one bit, one number ------------------------------------------------------------------------------

  function BitOf(op: Op, a: bool, b: bool): bool {
    match op
    case AND => a && b
    case OR => a || b
    case XOR => a != b
    case NOT => a
  }

  /** The word operator; NOT has no second operand. */
  function Combine(op: Op, a: nat, b: nat): nat {
    match op
    case AND => And(a, b)
    case OR => Or(a, b)
    case XOR => Xor(a, b)
    case NOT => a
  }

  lemma CombineBit(op: Op, a: nat, b: nat, i: nat)
    ensures Bit(Combine(op, a, b), i) == BitOf(op, Bit(a, i), Bit(b, i))
  {
    hide Bit, And, Or, Xor;
    match op
    case AND => BitAnd(a, b, i);
    case OR => BitOr(a, b, i);
    case XOR => BitXor(a, b, i);
    case NOT =>
  }

  lemma CombineHalf(op: Op, a: nat, b: nat)
    ensures Combine(op, a, b)
            == (if BitOf(op, a % 2 == 1, b % 2 == 1) then 1 else 0) + 2 * Combine(op, a / 2, b / 2)
  {
    hide And, Or, Xor;
    match op
    case AND => AndHalf(a, b);
    case OR => OrHalf(a, b);
    case XOR => XorHalf(a, b);
    case NOT =>
  }

  lemma {:induction false} CombineBound(op: Op, a: nat, b: nat, w: nat)
    requires a < Pow2(w) && b < Pow2(w)
    ensures Combine(op, a, b) < Pow2(w)
  {
    hide Combine;
    if w == 0 {
      CombineZero(op);
    } else {
      CombineBound(op, a / 2, b / 2, w - 1);
      CombineHalf(op, a, b);
    }
  }

  lemma CombineZero(op: Op)
    ensures Combine(op, 0, 0) == 0
  {
  }

  /** Operators work on the low n bits and on the others separately. */
  lemma {:induction false} CombineCat(op: Op, n: nat, x: nat, X: nat, y: nat, Y: nat)
    requires x < Pow2(n) && y < Pow2(n)
    ensures Combine(op, x + Double(X, n), y + Double(Y, n)) == Combine(op, x, y) + Double(Combine(op, X, Y), n)
  {
    hide Combine;
    if n == 0 {
      CombineZero(op);
    } else {
      CombineCat(op, n - 1, x / 2, X, y / 2, Y);
      DoubleUnfold(X, n);
      DoubleUnfold(Y, n);
      DoubleUnfold(Combine(op, X, Y), n);
      CombineHalf(op, x + Double(X, n), y + Double(Y, n));
      CombineHalf(op, x, y);
      assert (x + Double(X, n)) / 2 == x / 2 + Double(X, n - 1) && (y + Double(Y, n)) / 2 == y / 2 + Double(Y, n - 1);
    }
  }

  lemma CombineByte(op: Op, x: Byte, X: nat, y: Byte, Y: nat)
    ensures Combine(op, x, y) < 256
    ensures Combine(op, x + 256 * X, y + 256 * Y) == Combine(op, x, y) + 256 * Combine(op, X, Y)
  {
    hide Combine;
    assert Pow2(4) == 16;
    assert Pow2(8) == 256;
    CombineBound(op, x, y, 8);
    CombineCat(op, 8, x, X, y, Y);
    Times256(X);
    Times256(Y);
    Times256(Combine(op, X, Y));
  }

  lemma Times256(r: nat)
    ensures Double(r, 8) == 256 * r
  {
    assert Double(r, 4) == 16 * r;
  }

  // ---- bytes -----------------------------------------------------------------------------------------------

  function CombineBytes(op: Op, a: Byte, b: Byte): (r: Byte) {
    CombineByte(op, a, 0, b, 0);
    Combine(op, a, b)
  }

  /** The word operator on two words is the byte operator on their bytes. */
  lemma {:induction false} CombineWords(op: Op, a: seq<Byte>, b: seq<Byte>)
    requires |a| == |b|
    ensures var r := ToLE(Combine(op, FromLE(a), FromLE(b)), |a|);
            forall i | 0 <= i < |a| :: r[i] == CombineBytes(op, a[i], b[i])
    decreases |a|
  {
    hide Combine;
    if a != [] {
      var X, Y := FromLE(a[1..]), FromLE(b[1..]);
      CombineByte(op, a[0], X, b[0], Y);
      CombineWords(op, a[1..], b[1..]);
      var v, low := Combine(op, FromLE(a), FromLE(b)), Combine(op, a[0], b[0]);
      assert v == low + 256 * Combine(op, X, Y);
      assert v % 256 == low && v / 256 == Combine(op, X, Y);
      var r := ToLE(v, |a|);
      forall i | 0 <= i < |a| ensures r[i] == CombineBytes(op, a[i], b[i]) {
        if i > 0 { assert r[i] == ToLE(v / 256, |a| - 1)[i - 1] && a[i] == a[1..][i - 1] && b[i] == b[1..][i - 1]; }
      }
    }
  }

  lemma {:induction false} ComplementWord(a: seq<Byte>)
    ensures FromLE(a) < Pow256(|a|)
    ensures var r := ToLE(Pow256(|a|) - 1 - FromLE(a), |a|);
            forall i | 0 <= i < |a| :: r[i] == 255 - a[i]
    decreases |a|
  {
    if a != [] {
      ComplementWord(a[1..]);
      var v := Pow256(|a|) - 1 - FromLE(a);
      var rest := Pow256(|a| - 1) - 1 - FromLE(a[1..]);
      assert v == (255 - a[0]) + 256 * rest;
      assert v % 256 == 255 - a[0] && v / 256 == rest;
      var r := ToLE(v, |a|);
      forall i | 0 <= i < |a| ensures r[i] == 255 - a[i] {
        if i > 0 { assert r[i] == ToLE(rest, |a| - 1)[i - 1] && a[i] == a[1..][i - 1]; }
      }
    }
  }

  // ---- the result ---------------------------------------------------------------------------------------------

  /** Operands are extended with zero bytes. */
  function ByteAt(s: seq<Byte>, j: nat): Byte {
    if |s| <= j then 0 else s[j]
  }

  /** Byte j of the operation on the first n operands. */
  function Fold(op: Op, srcs: seq<seq<Byte>>, n: nat, j: nat): Byte
    requires 1 <= n <= |srcs|
  {
    if n == 1 then
      if op.NOT? then 255 - ByteAt(srcs[0], j) else ByteAt(srcs[0], j)
    else CombineBytes(op, Fold(op, srcs, n - 1, j), ByteAt(srcs[n - 1], j))
  }

  /** Bit k of the operation, straight from the bits of the operands. */
  ghost predicate ResultBit(op: Op, srcs: seq<seq<Byte>>, k: nat)
    requires srcs != []
  {
    match op
    case AND => forall i | 0 <= i < |srcs| :: StringBit(srcs[i], k)
    case OR => exists i :: 0 <= i < |srcs| && StringBit(srcs[i], k)
    case XOR => |Setters(srcs, |srcs|, k)| % 2 == 1
    case NOT => !StringBit(srcs[0], k)
  }

  /** The operands among the first n that have bit k set. */
  ghost function Setters(srcs: seq<seq<Byte>>, n: nat, k: nat): set<nat>
    requires n <= |srcs|
  {
    set i | 0 <= i < n && StringBit(srcs[i], k)
  }

  lemma ByteAtBit(s: seq<Byte>, k: nat)
    ensures Bit(ByteAt(s, k / 8), 7 - k % 8) == StringBit(s, k)
  {
    hide Bit;
    if |s| <= k / 8 { BitZero(7 - k % 8); }
  }

  lemma {:induction false} FoldBits(op: Op, srcs: seq<seq<Byte>>, n: nat, k: nat)
    requires 1 <= n <= |srcs| && !op.NOT?
    ensures Bit(Fold(op, srcs, n, k / 8), 7 - k % 8) <==> ResultBit(op, srcs[..n], k)
    decreases n
  {
    hide Bit, StringBit, Combine, ByteAt;
    ByteAtBit(srcs[n - 1], k);
    XorStep(srcs, n, k);
    if n == 1 {
      assert Setters(srcs[..1], 0, k) == {};
    } else {
      FoldBits(op, srcs, n - 1, k);
      CombineBit(op, Fold(op, srcs, n - 1, k / 8), ByteAt(srcs[n - 1], k / 8), 7 - k % 8);
      FoldBit(op, srcs, n, k);
    }
  }

  lemma FoldBit(op: Op, srcs: seq<seq<Byte>>, n: nat, k: nat)
    requires 2 <= n <= |srcs| && !op.NOT?
    ensures ResultBit(op, srcs[..n], k) <==> BitOf(op, ResultBit(op, srcs[..n - 1], k), StringBit(srcs[n - 1], k))
  {
    hide StringBit;
    XorStep(srcs, n, k);
    var a, b := srcs[..n], srcs[..n - 1];
    assert forall i | 0 <= i < n - 1 :: a[i] == b[i];
    if op.OR? && ResultBit(op, b, k) {
      var i :| 0 <= i < |b| && StringBit(b[i], k);
      assert StringBit(a[i], k);
    }
    if op.OR? && StringBit(srcs[n - 1], k) { assert StringBit(a[n - 1], k); }
  }

  lemma XorStep(srcs: seq<seq<Byte>>, n: nat, k: nat)
    requires 1 <= n <= |srcs|
    ensures |Setters(srcs[..n], n, k)| == |Setters(srcs[..n - 1], n - 1, k)| + if StringBit(srcs[n - 1], k) then 1 else 0
  {
    hide StringBit;
    var a, b := Setters(srcs[..n], n, k), Setters(srcs[..n - 1], n - 1, k);
    assert forall i | 0 <= i < n - 1 :: srcs[..n][i] == srcs[..n - 1][i];
    if StringBit(srcs[n - 1], k) {
      assert a == b + {n - 1};
    } else {
      assert a == b;
    }
  }

  /** Every bit of the result is what the bitwise definition says. */
  lemma FoldMeaning(op: Op, srcs: seq<seq<Byte>>, k: nat)
    requires srcs != [] && (op.NOT? ==> |srcs| == 1)
    ensures Bit(Fold(op, srcs, |srcs|, k / 8), 7 - k % 8) <==> ResultBit(op, srcs, k)
  {
    hide Bit, StringBit, Combine;
    assert srcs[..|srcs|] == srcs;
    if op.NOT? {
      var b := ByteAt(srcs[0], k / 8);
      assert Pow2(4) == 16;
      assert Pow2(8) == 256;
      BitNot(8, b, 7 - k % 8);
      ByteAtBit(srcs[0], k);
      assert Not(8, b) == 255 - b;
    } else {
      FoldBits(op, srcs, |srcs|, k);
    }
  }

  // ---- the loops -----------------------------------------------------------------------------------------------

  /** lres[w] op= lp[i][w] for the word at this offset. */
  method CombineWordAt(res: array<Byte>, at: nat, src: seq<Byte>, op: Op)
    requires at + 8 <= res.Length && at + 8 <= |src|
    modifies res
    ensures forall t | 0 <= t < res.Length ::
              res[t] == if at <= t < at + 8 then CombineBytes(op, old(res[t]), src[t]) else old(res[t])
  {
    hide Combine, CombineBytes, FromLE, ToLE;
    ghost var a, b := res[at..at + 8], src[at..at + 8];
    var r := ToLE(Combine(op, FromLE(res[at..at + 8]), FromLE(src[at..at + 8])), 8);
    CombineWords(op, a, b);
    StoreWord(res, at, r);
    forall t | at <= t < at + 8 ensures res[t] == CombineBytes(op, old(res[t]), src[t]) {
      assert r[t - at] == CombineBytes(op, a[t - at], b[t - at]);
    }
  }

  /** lres[w] = ~lres[w] */
  method ComplementWordAt(res: array<Byte>, at: nat)
    requires at + 8 <= res.Length
    modifies res
    ensures forall t | 0 <= t < res.Length :: res[t] == if at <= t < at + 8 then 255 - old(res[t]) else old(res[t])
  {
    hide FromLE, ToLE, Pow256;
    ghost var a := res[at..at + 8];
    ComplementWord(a);
    var r := ToLE(Pow256(8) - 1 - FromLE(res[at..at + 8]), 8);
    StoreWord(res, at, r);
    forall t | at <= t < at + 8 ensures res[t] == 255 - old(res[t]) {
      assert r[t - at] == 255 - a[t - at];
    }
  }

  method StoreWord(res: array<Byte>, at: nat, r: seq<Byte>)
    requires at + 8 <= res.Length && |r| == 8
    modifies res
    ensures forall t | 0 <= t < res.Length :: res[t] == if at <= t < at + 8 then r[t - at] else old(res[t])
  {
    for i := 0 to 8
      invariant forall t | 0 <= t < res.Length :: res[t] == if at <= t < at + i then r[t - at] else old(res[t])
    {
      res[at + i] := r[i];
    }
  }

  /** Four words of one more operand. */
  method CombineBlock(res: array<Byte>, at: nat, src: seq<Byte>, op: Op)
    requires at + 32 <= res.Length && at + 32 <= |src|
    modifies res
    ensures forall t | 0 <= t < res.Length ::
              res[t] == if at <= t < at + 32 then CombineBytes(op, old(res[t]), src[t]) else old(res[t])
  {
    hide CombineBytes;
    CombineWordAt(res, at, src, op);
    CombineWordAt(res, at + 8, src, op);
    CombineWordAt(res, at + 16, src, op);
    CombineWordAt(res, at + 24, src, op);
  }

  method ComplementBlock(res: array<Byte>, at: nat)
    requires at + 32 <= res.Length
    modifies res
    ensures forall t | 0 <= t < res.Length :: res[t] == if at <= t < at + 32 then 255 - old(res[t]) else old(res[t])
  {
    ComplementWordAt(res, at);
    ComplementWordAt(res, at + 8);
    ComplementWordAt(res, at + 16);
    ComplementWordAt(res, at + 24);
  }

  /** Bytes from j on hold the first operand, those before j the result. */
  ghost predicate Partial(op: Op, srcs: seq<seq<Byte>>, res: seq<Byte>, j: nat, minlen: nat)
    requires srcs != [] && minlen <= |res| && minlen <= |srcs[0]|
  {
    && (forall t | 0 <= t < j && t < |res| :: res[t] == Fold(op, srcs, |srcs|, t))
    && (forall t | j <= t < minlen :: res[t] == srcs[0][t])
  }

  /** One round of the fast path: 32 bytes of all operands. */
  method FastRound(op: Op, srcs: seq<seq<Byte>>, res: array<Byte>, j: nat, minlen: nat)
    requires srcs != [] && (op.NOT? ==> |srcs| == 1) && j + 32 <= minlen <= res.Length
    requires forall i | 0 <= i < |srcs| :: minlen <= |srcs[i]|
    requires Partial(op, srcs, res[..], j, minlen)
    modifies res
    ensures Partial(op, srcs, res[..], j + 32, minlen)
  {
    hide CombineBytes;
    if op.NOT? {
      ComplementBlock(res, j);
    } else {
      ghost var before := res[..];
      for i := 1 to |srcs|
        invariant forall t | 0 <= t < res.Length ::
                    res[t] == if j <= t < j + 32 then Fold(op, srcs, i, t) else before[t]
      {
        CombineBlock(res, j, srcs[i], op);
      }
    }
  }

  /** The shortest and the longest operand. */
  method Lengths(srcs: seq<seq<Byte>>) returns (minlen: nat, maxlen: nat)
    requires srcs != []
    ensures forall i | 0 <= i < |srcs| :: minlen <= |srcs[i]| <= maxlen
    ensures exists i :: 0 <= i < |srcs| && |srcs[i]| == maxlen
  {
    minlen, maxlen := 0, 0;
    for j := 0 to |srcs|
      invariant forall i | 0 <= i < j :: minlen <= |srcs[i]| <= maxlen
      invariant j == 0 ==> maxlen == 0
      invariant j > 0 ==> exists i :: 0 <= i < j && |srcs[i]| == maxlen
    {
      if |srcs[j]| > maxlen { maxlen := |srcs[j]|; }
      if j == 0 || |srcs[j]| < minlen { minlen := |srcs[j]|; }
    }
  }

  /** The result of BITOP on the looked-up strings, a missing key being the empty string. */
  method Compute(op: Op, srcs: seq<seq<Byte>>) returns (res: array<Byte>)
    requires srcs != [] && (op.NOT? ==> |srcs| == 1)
    ensures fresh(res)
    ensures forall i | 0 <= i < |srcs| :: |srcs[i]| <= res.Length
    ensures exists i :: 0 <= i < |srcs| && |srcs[i]| == res.Length
    ensures forall t | 0 <= t < res.Length :: res[t] == Fold(op, srcs, |srcs|, t)
  {
    hide Fold;
    var minlen, maxlen := Lengths(srcs);
    res := new Byte[maxlen](_ => 0);
    var j: nat := 0;
    if minlen >= 32 && |srcs| <= 16 {
      forall t | 0 <= t < minlen { res[t] := srcs[0][t]; }
      while minlen - j >= 32
        invariant j <= minlen && Partial(op, srcs, res[..], j, minlen)
        decreases minlen - j
      {
        FastRound(op, srcs, res, j, minlen);
        j := j + 32;
      }
    }
    while j < maxlen
      invariant j <= maxlen && forall t | 0 <= t < j :: res[t] == Fold(op, srcs, |srcs|, t)
      decreases maxlen - j
    {
      var output := SlowByte(op, srcs, j);
      res[j] := output;
      j := j + 1;
    }
  }

  /** One byte of the vanilla algorithm. */
  method SlowByte(op: Op, srcs: seq<seq<Byte>>, j: nat) returns (output: Byte)
    requires srcs != []
    ensures output == Fold(op, srcs, |srcs|, j)
  {
    hide CombineBytes;
    output := if |srcs[0]| <= j then 0 else srcs[0][j];
    if op.NOT? { output := 255 - output; }
    for i := 1 to |srcs|
      invariant output == Fold(op, srcs, i, j)
    {
      var byte := if |srcs[i]| <= j then 0 else srcs[i][j];
      output := CombineBytes(op, output, byte);
    }
  }
}
