/** Scanning a dictionary that does not change (dict.c): 2^k calls for 2^k buckets, every bucket and
    every element exactly once. */
module ScanFixed {
  import opened Words
  import opened ReverseBits
  import opened ScanCursor
  import opened DictTable
  import opened Dictionary
  import opened DictScan
  import opened ScanRuns

  lemma {:induction false} DoubleAdd(a: nat, b: nat, n: nat)
    ensures Double(a + b, n) == Double(a, n) + Double(b, n)
    decreases n
  {
    if n > 0 { DoubleAdd(2 * a, 2 * b, n - 1); }
  }

  lemma {:induction false} DoubleOfPow2(k: nat, n: nat)
    ensures Double(Pow2(k), n) == Pow2(k + n)
    decreases n
  {
    if n > 0 { DoubleOfPow2(k + 1, n - 1); }
  }

  lemma {:induction false} DoubleOfZero(n: nat)
    ensures Double(0, n) == 0
  {
    if n > 0 { DoubleOfZero(n - 1); }
  }

  /** The i-th cursor in the order of the scan stands at position i of 2^k, and the call moves
      the position on to i + 1. */
  lemma {:induction false} PositionOf(w: nat, k: nat, i: nat)
    requires k <= w && i < Pow2(k)
    ensures BitRev(w, BitRev(k, i)) == Double(i, w - k)
    ensures PositionAfter(w, BitRev(k, i), k) == Double(i + 1, w - k)
  {
    hide BitRev, PositionAfter, Double;
    if k == 0 {
      BitRevZero(0);
      BitRevZero(w);
      DoubleOfZero(w);
      LastPosition(w, 0);
      DoubleOfPow2(0, w);
    } else {
      var top := i >= Pow2(k - 1);
      var lo := if top then i - Pow2(k - 1) else i;
      BitRevTop(k - 1, lo, top);
      PositionOf(w - 1, k - 1, lo);
      BitRevUnfold(w, BitRev(k, i));
      PositionUnfold(w, BitRev(k, i), k);
      DoubleOfPow2(k - 1, w - k);
      DoubleAdd(lo, Pow2(k - 1), w - k);
      DoubleAdd(lo + 1, Pow2(k - 1), w - k);
    }
  }

  /** The scan goes through the numbers below 2^k in bit-reversed order. */
  lemma FixedAdvance(w: nat, k: nat, i: nat)
    requires k <= w && i < Pow2(k)
    ensures Pow2(k) <= Pow2(w)
    ensures Advance(w, BitRev(k, i), Pow2(k) - 1) == if i + 1 == Pow2(k) then 0 else BitRev(k, i + 1)
  {
    hide BitRev, PositionAfter, Double, Advance, Pow2;
    Pow2Monotone(k, w);
    PositionOf(w, k, i);
    if i + 1 == Pow2(k) {
      DoubleOfPow2(k, w - k);
      AdvanceMeaning(w, BitRev(k, i), k);
    } else {
      PositionOf(w, k, i + 1);
      NextIs(w, BitRev(k, i), k, BitRev(k, i + 1));
    }
  }

  /** The cursors of a scan of one table with 2^k buckets: from 0, each handed to the next call,
      until 0 comes back. */
  ghost predicate FixedScan(w: nat, k: nat, cursors: seq<nat>)
    requires k <= w
  {
    Pow2Monotone(k, w);
    && cursors != [] && cursors[0] == 0
    && (forall i | 0 <= i < |cursors| :: cursors[i] < Pow2(w))
    && (forall i | 0 < i < |cursors| ::
          cursors[i] != 0 && cursors[i] == Advance(w, cursors[i - 1], Pow2(k) - 1))
    && Advance(w, cursors[|cursors| - 1], Pow2(k) - 1) == 0
  }

  function ReversedOrder(k: nat): (r: seq<nat>)
    ensures |r| == Pow2(k)
  {
    seq(Pow2(k), i requires 0 <= i < Pow2(k) => BitRev(k, i))
  }

  lemma ReversedNotZero(k: nat, i: nat)
    requires 0 < i < Pow2(k)
    ensures BitRev(k, i) != 0
  {
    if BitRev(k, i) == 0 {
      BitRevZero(k);
      BitRevInjective(k, i, 0);
      LowId(i, k);
      LowId(0, k);
    }
  }

  lemma {:induction false} FixedCursor(w: nat, k: nat, cursors: seq<nat>, i: nat)
    requires k <= w && FixedScan(w, k, cursors) && i < |cursors|
    ensures i < Pow2(k) && cursors[i] == BitRev(k, i)
  {
    hide BitRev, Advance;
    if i == 0 {
      BitRevZero(k);
    } else {
      Pow2Monotone(k, w);
      FixedCursor(w, k, cursors, i - 1);
      FixedAdvance(w, k, i - 1);
      assert cursors[i] == Advance(w, cursors[i - 1], Pow2(k) - 1) != 0;
    }
  }

  /** A scan of an unchanging table returns to 0 after exactly one call per bucket, and its
      cursors are the bucket numbers in bit-reversed order. */
  lemma FixedScanIs(w: nat, k: nat, cursors: seq<nat>)
    requires k <= w
    ensures FixedScan(w, k, cursors) <==> cursors == ReversedOrder(k)
  {
    hide BitRev, Advance;
    if FixedScan(w, k, cursors) {
      forall i | 0 <= i < |cursors| ensures i < Pow2(k) && cursors[i] == BitRev(k, i) {
        FixedCursor(w, k, cursors, i);
      }
      FixedAdvance(w, k, |cursors| - 1);
      if |cursors| < Pow2(k) { ReversedNotZero(k, |cursors|); }
    }
    if cursors == ReversedOrder(k) {
      Pow2Monotone(k, w);
      BitRevZero(k);
      forall i | 0 < i < |cursors|
        ensures cursors[i] != 0 && cursors[i] == Advance(w, cursors[i - 1], Pow2(k) - 1)
      {
        ReversedNotZero(k, i);
        FixedAdvance(w, k, i - 1);
      }
      FixedAdvance(w, k, |cursors| - 1);
    }
  }

  /** On a table of fixed size a full scan visits every bucket exactly once. */
  lemma FixedScanExactlyOnce(w: nat, k: nat, cursors: seq<nat>, b: nat)
    requires k <= w && FixedScan(w, k, cursors) && b < Pow2(k)
    ensures |cursors| == Pow2(k) && cursors[BitRev(k, b)] == b
    ensures forall i | 0 <= i < |cursors| && cursors[i] == b :: i == BitRev(k, b)
  {
    hide BitRev;
    FixedScanIs(w, k, cursors);
    BitRevInvolution(k, b);
    LowId(b, k);
    forall i | 0 <= i < |cursors| && cursors[i] == b ensures i == BitRev(k, b) {
      BitRevInvolution(k, i);
      LowId(i, k);
    }
  }

  // ---- elements -------------------------------------------------------------------------------

  /** A full scan, stopping at the first 0, of a dictionary that never changes and does not rehash. */
  ghost predicate StillScan<K(!new), V>(hash: K -> nat, w: nat, s: State<K, V>, m: map<K, V>, calls: seq<Call<K, V>>) {
    && FullScan(hash, w, calls) && s.rehashidx == -1 && m != map[]
    && (forall i | 0 <= i < |calls| :: calls[i].s == s && calls[i].m == m)
    && (forall i | 0 < i < |calls| :: calls[i].cursor != 0)
  }

  function Cursors<K, V>(calls: seq<Call<K, V>>): seq<nat> {
    seq(|calls|, i requires 0 <= i < |calls| => calls[i].cursor)
  }

  lemma StillCursors<K(!new), V>(hash: K -> nat, w: nat, s: State<K, V>, m: map<K, V>, calls: seq<Call<K, V>>)
    requires StillScan(hash, w, s, m, calls)
    ensures Bits(s.ht0) <= w && FixedScan(w, Bits(s.ht0), Cursors(calls))
  {
    hide Represents, Visits, Advance, Pow2, Log2;
    assert CallValid(hash, w, calls[0]);
    forall i | 0 <= i < |calls|
      ensures calls[i].cursor < Pow2(w) && Pow2(Bits(s.ht0)) <= Pow2(w)
      ensures calls[i].next == Advance(w, calls[i].cursor, Pow2(Bits(s.ht0)) - 1)
    {
      assert CallValid(hash, w, calls[i]);
      Pow2Monotone(Bits(s.ht0), w);
      assert |m| != 0;
    }
  }

  /** The number of times that a key occurs among emitted entries. */
  function Times<K(==), V>(c: seq<Entry<K, V>>, key: K): nat {
    if c == [] then 0 else (if c[0].key == key then 1 else 0) + Times(c[1..], key)
  }

  lemma {:induction false} TimesAtMostOnce<K, V>(c: Chain<K, V>, key: K)
    requires NoDuplicates(c)
    ensures Times(c, key) == if exists i :: 0 <= i < |c| && c[i].key == key then 1 else 0
    decreases |c|
  {
    if c != [] {
      assert forall i | 0 <= i < |c[1..]| :: c[1..][i] == c[i + 1];
      TimesAtMostOnce(c[1..], key);
      if c[0].key != key && exists i :: 0 <= i < |c| && c[i].key == key {
        var i :| 0 <= i < |c| && c[i].key == key;
        assert c[1..][i - 1].key == key;
      }
    }
  }

  /** A scan of a dictionary that does not change takes one call per bucket and returns every
      element exactly once: in the call whose cursor is the bucket of its hash. */
  lemma StillScanExactlyOnce<K(!new), V>(hash: K -> nat, w: nat, s: State<K, V>, m: map<K, V>, calls: seq<Call<K, V>>, key: K, i: nat)
    requires StillScan(hash, w, s, m, calls) && key in m && i < |calls|
    ensures |calls| == Pow2(Bits(s.ht0))
    ensures Times(calls[i].emitted, key) == if i == BitRev(Bits(s.ht0), hash(key)) then 1 else 0
    ensures BitRev(Bits(s.ht0), hash(key)) < |calls|
  {
    hide BitRev, Represents, Advance, Low, Log2;
    var k, c := Bits(s.ht0), calls[i];
    StillCursors(hash, w, s, m, calls);
    FixedScanIs(w, k, Cursors(calls));
    FixedCursor(w, k, Cursors(calls), i);
    assert CallValid(hash, w, c) && c.cursor == BitRev(k, i);
    assert |m| != 0;
    InBucket(hash, s, m, c, key);
    TimesAtMostOnce(c.emitted, key);
    LowId(BitRev(k, i), k);
    BitRevInvolution(k, i);
    LowId(i, k);
    BitRevInvolution(k, hash(key));
    if Low(hash(key), k) == BitRev(k, i) {
      BitRevLow(k, hash(key));
    }
  }

  /** A call without rehashing emits a key exactly when its hash agrees with the cursor. */
  lemma InBucket<K(!new), V>(hash: K -> nat, s: State<K, V>, m: map<K, V>, c: Call<K, V>, key: K)
    requires Represents(hash, s, m) && s.rehashidx == -1 && key in m
    requires forall e | e in c.emitted :: e.key in m && m[e.key] == e.val && Visits(hash, s, c.cursor, e.key)
    requires forall k | k in m && Visits(hash, s, c.cursor, k) :: Entry(k, m[k]) in c.emitted
    ensures (exists i :: 0 <= i < |c.emitted| && c.emitted[i].key == key)
            <==> Low(hash(key), Bits(s.ht0)) == Low(c.cursor, Bits(s.ht0))
  {
    hide Get, Low, Log2, TableValid, Disjoint;
    PresentKey(hash, s, m, key);
    if Low(hash(key), Bits(s.ht0)) == Low(c.cursor, Bits(s.ht0)) {
      assert Entry(key, m[key]) in c.emitted;
    }
    if exists i :: 0 <= i < |c.emitted| && c.emitted[i].key == key {
      var i :| 0 <= i < |c.emitted| && c.emitted[i].key == key;
      assert c.emitted[i] in c.emitted;
    }
  }
}
