/** The sparse HyperLogLog representation (hyperloglog.c): a string of run-length opcodes.
    ZERO is one byte 00xxxxxx, XZERO two bytes 01xxxxxx yyyyyyyy, VAL one byte 1vvvvvxx. */
module HllSparse {

  const VAL_MAX_VALUE: nat := 32
  const VAL_MAX_LEN: nat := 4
  const ZERO_MAX_LEN: nat := 64
  const XZERO_MAX_LEN: nat := 16384

  ghost predicate AreBytes(b: seq<nat>) {
    forall i | 0 <= i < |b| :: b[i] < 256
  }

  // ---- opcode macros ------------------------------------------------------------------

  predicate IsZero(op: nat) {
    op < 0x40
  }

  predicate IsXZero(op: nat) {
    0x40 <= op < 0x80
  }

  predicate IsVal(op: nat) {
    op >= 0x80
  }

  function ZeroLen(op: nat): nat {
    op % 0x40 + 1
  }

  function XZeroLen(op: nat, next: nat): nat {
    op % 0x40 * 256 + next + 1
  }

  function ValValue(op: nat): nat {
    op / 4 % 0x20 + 1
  }

  function ValLen(op: nat): nat {
    op % 4 + 1
  }

  function ValSet(value: nat, len: nat): (op: nat)
    requires 1 <= value <= VAL_MAX_VALUE && 1 <= len <= VAL_MAX_LEN
    ensures IsVal(op) && op < 256 && ValValue(op) == value && ValLen(op) == len
  {
    0x80 + (value - 1) * 4 + (len - 1)
  }

  function ZeroSet(len: nat): (op: nat)
    requires 1 <= len <= ZERO_MAX_LEN
    ensures IsZero(op) && op < 256 && ZeroLen(op) == len
  {
    len - 1
  }

  function XZeroSet(len: nat): (ops: (nat, nat))
    requires 1 <= len <= XZERO_MAX_LEN
    ensures IsXZero(ops.0) && ops.0 < 256 && ops.1 < 256 && XZeroLen(ops.0, ops.1) == len
  {
    ((len - 1) / 256 + 0x40, (len - 1) % 256)
  }

  // ---- meaning of a string of opcodes ----------------------------------------------------

  function OpLen(op: nat): nat {
    if IsXZero(op) then 2 else 1
  }

  /** The number of registers the first opcode covers. */
  function Span(b: seq<nat>): (n: nat)
    requires b != [] && |b| >= OpLen(b[0])
    ensures n >= 1
  {
    if IsZero(b[0]) then ZeroLen(b[0])
    else if IsXZero(b[0]) then XZeroLen(b[0], b[1])
    else ValLen(b[0])
  }

  /** The value the first opcode gives to them. */
  function OpValue(b: seq<nat>): (v: nat)
    requires b != []
    ensures b[0] < 256 ==> v <= VAL_MAX_VALUE
  {
    if IsVal(b[0]) then ValValue(b[0]) else 0
  }

  /** The string divides into whole opcodes. */
  predicate Parses(b: seq<nat>) {
    b == [] || (|b| >= OpLen(b[0]) && Parses(b[OpLen(b[0])..]))
  }

  function Repeat(v: nat, n: nat): seq<nat> {
    seq(n, _ => v)
  }

  /** The registers that the string stands for. */
  function Expand(b: seq<nat>): seq<nat>
    requires Parses(b)
  {
    if b == [] then [] else Repeat(OpValue(b), Span(b)) + Expand(b[OpLen(b[0])..])
  }

  /** What an opcode stands for does not depend on what follows it. */
  lemma OpAppend(a: seq<nat>, b: seq<nat>)
    requires a != [] && |a| >= OpLen(a[0])
    ensures (a + b)[0] == a[0] && |a + b| >= OpLen((a + b)[0])
    ensures Span(a + b) == Span(a) && OpValue(a + b) == OpValue(a)
    ensures (a + b)[OpLen(a[0])..] == a[OpLen(a[0])..] + b
  {
    hide ZeroLen, XZeroLen, ValLen, ValValue;
    assert OpLen(a[0]) == 2 ==> (a + b)[1] == a[1];
  }

  lemma {:induction false} ParsesAppend(a: seq<nat>, b: seq<nat>)
    requires Parses(a)
    ensures Parses(a + b) <==> Parses(b)
    ensures Parses(b) ==> Expand(a + b) == Expand(a) + Expand(b)
    decreases |a|
  {
    hide Span, OpValue, OpLen, Repeat;
    if a == [] {
      assert a + b == b;
    } else {
      OpAppend(a, b);
      OpLenPositive(a[0]);
      ParsesAppend(a[OpLen(a[0])..], b);
    }
  }

  lemma OpLenPositive(op: nat)
    ensures 1 <= OpLen(op)
  {
  }

  /** One opcode at the front. */
  lemma FirstOp(b: seq<nat>)
    requires Parses(b) && b != []
    ensures var n := OpLen(b[0]);
            && n <= |b| && Parses(b[..n]) && Parses(b[n..])
            && Expand(b[..n]) == Repeat(OpValue(b), Span(b))
            && Expand(b) == Expand(b[..n]) + Expand(b[n..])
  {
    var n := OpLen(b[0]);
    var op := b[..n];
    assert op[n..] == [] && op[0] == b[0];
    assert Expand(op) == Repeat(OpValue(op), Span(op)) + [];
  }

  /** A run of len zero registers, as Step 2 D of hllSparseAdd writes it. */
  function ZeroRun(len: nat): (ops: seq<nat>)
    requires len <= XZERO_MAX_LEN
    ensures |ops| <= 2
  {
    if len == 0 then []
    else if len > ZERO_MAX_LEN then [XZeroSet(len).0, XZeroSet(len).1]
    else [ZeroSet(len)]
  }

  /** A run of len registers set to v. */
  function ValRun(v: nat, len: nat): (ops: seq<nat>)
    requires 1 <= v <= VAL_MAX_VALUE && len <= VAL_MAX_LEN
    ensures |ops| <= 1
  {
    if len == 0 then [] else [ValSet(v, len)]
  }

  lemma ZeroRunMeaning(len: nat)
    requires len <= XZERO_MAX_LEN
    ensures AreBytes(ZeroRun(len)) && Parses(ZeroRun(len)) && Expand(ZeroRun(len)) == Repeat(0, len)
  {
    if len > 0 { SingleOp(ZeroRun(len)); }
  }

  lemma ValRunMeaning(v: nat, len: nat)
    requires 1 <= v <= VAL_MAX_VALUE && len <= VAL_MAX_LEN
    ensures AreBytes(ValRun(v, len)) && Parses(ValRun(v, len)) && Expand(ValRun(v, len)) == Repeat(v, len)
  {
    if len > 0 { SingleOp(ValRun(v, len)); }
  }

  lemma SingleOp(op: seq<nat>)
    requires op != [] && |op| == OpLen(op[0])
    ensures Parses(op) && Expand(op) == Repeat(OpValue(op), Span(op))
  {
    assert op[|op|..] == [];
    assert Repeat(OpValue(op), Span(op)) + [] == Repeat(OpValue(op), Span(op));
  }

  /** The opcodes as bytes: the shortest and longest run of each kind, and one of each in between. */
  lemma Opcodes()
    ensures Parses([0x00]) && Expand([0x00]) == Repeat(0, 1) && Parses([0x3F]) && Expand([0x3F]) == Repeat(0, 64)
    ensures Parses([0x40, 0x40]) && Expand([0x40, 0x40]) == Repeat(0, 65)
    ensures Parses([0x7F, 0xFF]) && Expand([0x7F, 0xFF]) == Repeat(0, 16384)
    ensures Parses([0x80]) && Expand([0x80]) == Repeat(1, 1) && Parses([0xFF]) && Expand([0xFF]) == Repeat(32, 4)
    ensures Parses([0x85]) && Expand([0x85]) == Repeat(2, 2)
  {
    SingleOp([0x00]);
    SingleOp([0x3F]);
    SingleOp([0x40, 0x40]);
    SingleOp([0x7F, 0xFF]);
    SingleOp([0x80]);
    SingleOp([0xFF]);
    SingleOp([0x85]);
  }

  // ---- merging ---------------------------------------------------------------------------

  /** Two adjacent VAL opcodes of the same value that fit into one. */
  predicate Mergeable(b: seq<nat>, p: nat) {
    && p + 1 < |b| && IsVal(b[p]) && IsVal(b[p + 1]) && ValValue(b[p]) == ValValue(b[p + 1])
    && ValLen(b[p]) + ValLen(b[p + 1]) <= VAL_MAX_LEN
  }

  /** Walking n opcodes from position s leads to p, past no opcode that could be merged. */
  ghost predicate Settled(b: seq<nat>, s: nat, n: nat, p: nat)
    decreases n
  {
    if n == 0 then p == s else s < |b| && !Mergeable(b, s) && Settled(b, s + OpLen(b[s]), n - 1, p)
  }

  /** b' is b after merging: five opcodes from s on were joined with their neighbour or passed
      because they could not be. */
  ghost predicate Merged(b: seq<nat>, s: nat, b': seq<nat>) {
    && |b'| <= |b| <= |b'| + 5
    && exists n: nat, p: nat :: Settled(b', s, n, p) && (p >= |b'| || n == 5 - (|b| - |b'|))
  }

  lemma {:induction false} SettledStep(b: seq<nat>, s: nat, n: nat, p: nat)
    requires Settled(b, s, n, p) && p < |b| && !Mergeable(b, p)
    ensures Settled(b, s, n + 1, p + OpLen(b[p]))
    decreases n
  {
    if n > 0 { SettledStep(b, s + OpLen(b[s]), n - 1, p); }
  }

  lemma {:induction false} SettledRange(b: seq<nat>, s: nat, n: nat, p: nat)
    requires Settled(b, s, n, p)
    ensures s + n <= p
    decreases n
  {
    if n > 0 { SettledRange(b, s + OpLen(b[s]), n - 1, p); }
  }

  /** A merge at p does not make an opcode before it mergeable: the run only got longer. */
  lemma {:induction false} SettledKept(b: seq<nat>, s: nat, n: nat, p: nat, b': seq<nat>)
    requires Settled(b, s, n, p) && p < |b| && p < |b'| && b'[..p] == b[..p]
    requires IsVal(b[p]) && IsVal(b'[p]) && ValValue(b'[p]) == ValValue(b[p]) && ValLen(b'[p]) >= ValLen(b[p])
    ensures Settled(b', s, n, p)
    decreases n
  {
    hide ValValue, ValLen, IsVal, IsXZero;
    if n > 0 {
      SettledRange(b, s, n, p);
      assert b'[s] == b'[..p][s] == b[..p][s];
      if s + 1 < p { assert b'[s + 1] == b'[..p][s + 1] == b[..p][s + 1]; }
      SettledKept(b, s + OpLen(b[s]), n - 1, p, b');
    }
  }

  // ---- splitting one opcode --------------------------------------------------------------

  /** The sequence written in place of an opcode covering `before` registers, then the one
      to be set to count, then `after` registers. */
  function Split(isVal: bool, curval: nat, before: nat, count: nat, after: nat): seq<nat>
    requires 1 <= count <= VAL_MAX_VALUE
    requires isVal ==> 1 <= curval <= VAL_MAX_VALUE && before <= VAL_MAX_LEN && after <= VAL_MAX_LEN
    requires !isVal ==> before <= XZERO_MAX_LEN && after <= XZERO_MAX_LEN
  {
    if isVal then ValRun(curval, before) + [ValSet(count, 1)] + ValRun(curval, after)
    else ZeroRun(before) + [ValSet(count, 1)] + ZeroRun(after)
  }

  lemma SplitMeaning(isVal: bool, curval: nat, before: nat, count: nat, after: nat)
    requires 1 <= count <= VAL_MAX_VALUE
    requires isVal ==> 1 <= curval <= VAL_MAX_VALUE && before <= VAL_MAX_LEN && after <= VAL_MAX_LEN
    requires !isVal ==> before <= XZERO_MAX_LEN && after <= XZERO_MAX_LEN
    ensures var s := Split(isVal, curval, before, count, after);
            && AreBytes(s) && |s| <= 5 && Parses(s)
            && Expand(s) == Repeat(if isVal then curval else 0, before + 1 + after)[before := count]
  {
    hide Parses, Expand;
    var v := if isVal then curval else 0;
    var a := if isVal then ValRun(curval, before) else ZeroRun(before);
    var c := if isVal then ValRun(curval, after) else ZeroRun(after);
    if isVal {
      ValRunMeaning(curval, before);
      ValRunMeaning(curval, after);
    } else {
      ZeroRunMeaning(before);
      ZeroRunMeaning(after);
    }
    SingleOp([ValSet(count, 1)]);
    ParsesAppend([ValSet(count, 1)], c);
    ParsesAppend(a, [ValSet(count, 1)] + c);
    assert a + [ValSet(count, 1)] + c == a + ([ValSet(count, 1)] + c);
    RunWithOne(v, before, count, after);
  }

  /** The bytes that a run of zeros takes. */
  function RunBytes(len: nat): nat {
    if len == 0 then 0 else if len <= 64 then 1 else 2
  }

  /** By how much the string grows when the register at this place of the first opcode is set. */
  function Growth(b: seq<nat>, at: nat): int
    requires b != [] && |b| >= OpLen(b[0]) && at < Span(b)
  {
    var after := Span(b) - 1 - at;
    1 - OpLen(b[0])
    + if IsVal(b[0]) then (if at == 0 then 0 else 1) + (if after == 0 then 0 else 1) else RunBytes(at) + RunBytes(after)
  }

  lemma SplitSize(b: seq<nat>, at: nat, count: nat)
    requires b != [] && |b| >= OpLen(b[0]) && at < Span(b) && 1 <= count <= VAL_MAX_VALUE
    requires IsVal(b[0]) ==> Span(b) <= VAL_MAX_LEN && 1 <= ValValue(b[0]) <= VAL_MAX_VALUE
    requires Span(b) <= XZERO_MAX_LEN
    ensures |Split(IsVal(b[0]), ValValue(b[0]), at, count, Span(b) - 1 - at)| == Growth(b, at) + OpLen(b[0])
  {
  }

  lemma RunWithOne(v: nat, before: nat, count: nat, after: nat)
    ensures Repeat(v, before) + (Repeat(count, 1) + Repeat(v, after)) == Repeat(v, before + 1 + after)[before := count]
  {
  }

  /** Replacing the opcode in the middle of a string. */
  lemma ReplaceOp(pre: seq<nat>, op: seq<nat>, post: seq<nat>, op': seq<nat>, at: nat, v: nat)
    requires Parses(pre) && Parses(op) && Parses(post) && Parses(op')
    requires at < |Expand(op)| && Expand(op') == Expand(op)[at := v]
    ensures Parses(pre + op + post) && Parses(pre + op' + post)
    ensures |Expand(pre)| + at < |Expand(pre + op + post)|
    ensures Expand(pre + op' + post) == Expand(pre + op + post)[|Expand(pre)| + at := v]
  {
    hide Parses, Expand;
    ParsesAppend(op, post);
    ParsesAppend(op', post);
    ParsesAppend(pre, op + post);
    ParsesAppend(pre, op' + post);
    assert pre + op + post == pre + (op + post);
    assert pre + op' + post == pre + (op' + post);
    UpdateInMiddle(Expand(pre), Expand(op), Expand(post), at, v);
  }

  lemma UpdateInMiddle(a: seq<nat>, b: seq<nat>, c: seq<nat>, at: nat, v: nat)
    requires at < |b|
    ensures a + (b[at := v] + c) == (a + (b + c))[|a| + at := v]
  {
  }

  /** Merging two adjacent VAL opcodes of the same value. */
  lemma MergeOps(pre: seq<nat>, a: nat, b: nat, post: seq<nat>)
    requires Parses(pre) && Parses(post) && a < 256 && b < 256
    requires IsVal(a) && IsVal(b) && ValValue(a) == ValValue(b) && ValLen(a) + ValLen(b) <= VAL_MAX_LEN
    ensures Parses(pre + [a, b] + post)
    ensures Parses(pre + [ValSet(ValValue(a), ValLen(a) + ValLen(b))] + post)
    ensures Expand(pre + [ValSet(ValValue(a), ValLen(a) + ValLen(b))] + post) == Expand(pre + [a, b] + post)
  {
    hide Parses, Expand;
    var m := ValSet(ValValue(a), ValLen(a) + ValLen(b));
    SingleOp([a]);
    SingleOp([b]);
    SingleOp([m]);
    ParsesAppend([b], post);
    ParsesAppend([a], [b] + post);
    ParsesAppend([m], post);
    ParsesAppend(pre, [a] + ([b] + post));
    ParsesAppend(pre, [m] + post);
    assert pre + [a, b] + post == pre + ([a] + ([b] + post));
    assert pre + [m] + post == pre + ([m] + post);
    assert Repeat(ValValue(a), ValLen(a)) + (Repeat(ValValue(a), ValLen(b)) + Expand(post))
        == Repeat(ValValue(a), ValLen(a) + ValLen(b)) + Expand(post);
  }
}
