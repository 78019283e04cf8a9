/** Whole scans with dictScan: which elements they return when the dictionary is changed
    in any way between the calls, and exactly which calls can lose one. */
module ScanRuns {
  import opened Basics
  import opened Words
  import opened ScanCursor
  import opened DictTable
  import opened Dictionary
  import opened DictScan

  /** One call: the dictionary at that moment, the map it stood for, and the exchange. */
  datatype Call<K, V> = Call(s: State<K, V>, m: map<K, V>, cursor: nat, emitted: seq<Entry<K, V>>, next: nat)

  ghost predicate CallValid<K(!new), V>(hash: K -> nat, w: nat, c: Call<K, V>) {
    && Represents(hash, c.s, c.m) && c.cursor < Pow2(w)
    && SmallBits(c.s) <= LargeBits(c.s) <= w
    && ScanStep(hash, w, c.s, c.m, c.cursor, c.emitted, c.next)
  }

  /** Calls that hand each returned cursor to the next call. Nothing is assumed about how
      the dictionary changed in between. */
  ghost predicate Chained<K(!new), V>(hash: K -> nat, w: nat, calls: seq<Call<K, V>>) {
    && (forall i | 0 <= i < |calls| :: CallValid(hash, w, calls[i]))
    && (forall i | 0 < i < |calls| :: calls[i].cursor == calls[i - 1].next)
  }

  /** A scan from cursor 0 until 0 is returned. */
  ghost predicate FullScan<K(!new), V>(hash: K -> nat, w: nat, calls: seq<Call<K, V>>) {
    && calls != [] && Chained(hash, w, calls)
    && calls[0].cursor == 0 && calls[|calls| - 1].next == 0
  }

  /** With a first table of bits0 index bits, a second one of bits1 and the rehash at idx: every
      bucket of the larger table that a call with this cursor passes without reaching it is a
      bucket of the first table which the rehash has already emptied. */
  ghost predicate Fits(bits0: nat, bits1: nat, idx: int, cursor: nat) {
    var k0, k1 := Min(bits0, bits1), Max(bits0, bits1);
    forall y: nat | Skipped(y, cursor, k0, k1) :: bits0 > bits1 && Join(cursor, y, k0) < idx
  }

  /** The guard under which a call loses nothing. It concerns only table sizes, rehashidx and
      the cursor. */
  ghost predicate CursorFits<K, V>(s: State<K, V>, cursor: nat) {
    s.rehashidx == -1 || Fits(Bits(s.ht0), Bits(s.ht1), s.rehashidx, cursor)
  }

  /** A call with this cursor moves the scan position past the hash for the first time. */
  ghost predicate Passes<K, V>(w: nat, s: State<K, V>, cursor: nat, h: nat)
    requires SmallBits(s) <= w
  {
    BitRev(w, cursor) <= BitRev(w, h) < PositionAfter(w, cursor, SmallBits(s))
  }

  ghost predicate Emitted<K(!new), V>(calls: seq<Call<K, V>>, key: K) {
    exists i :: 0 <= i < |calls| && key in calls[i].m && Entry(key, calls[i].m[key]) in calls[i].emitted
  }

  /** Where a present key is linked. */
  lemma PresentKey<K(!new), V>(hash: K -> nat, s: State<K, V>, m: map<K, V>, key: K)
    requires Represents(hash, s, m) && key in m
    ensures Get(hash, SmallTable(s), key).Some?
            || (s.rehashidx != -1 && Get(hash, LargeTable(s), key).Some?)
  {
    assert Lookup(hash, s, key).Some?;
  }

  /** No key is linked in a bucket that the rehash has passed. */
  lemma EmptiedBucket<K(!new), V>(hash: K -> nat, s: State<K, V>, m: map<K, V>, key: K)
    requires Represents(hash, s, m) && s.rehashidx != -1 && Low(hash(key), Bits(s.ht0)) < s.rehashidx
    ensures Get(hash, s.ht0, key).None?
  {
    hide Disjoint, Models, Low, Placed;
    IndexIsLow(hash(key), |s.ht0.buckets|);
  }

  /** When the cursor fits, every present key that the position moves past is visited. */
  lemma FittingVisits<K(!new), V>(hash: K -> nat, w: nat, s: State<K, V>, m: map<K, V>, v: nat, key: K)
    requires Represents(hash, s, m) && LargeBits(s) <= w && CursorFits(s, v)
    requires key in m && Passes(w, s, v, hash(key))
    ensures Visits(hash, s, v, key)
  {
    hide Represents, Get, BitRev, PositionAfter, Low, Shr, Skipped, Join;
    var h, k0, k1 := hash(key), SmallBits(s), LargeBits(s);
    PresentKey(hash, s, m, key);
    SingleTableCoverage(w, h, v, k0);
    if s.rehashidx != -1 && Get(hash, LargeTable(s), key).Some? {
      PassedUnreached(w, h, v, k0, k1);
      if !ExpansionReaches(h, v, k0, k1) {
        assert k0 == Min(Bits(s.ht0), Bits(s.ht1)) && k1 == Max(Bits(s.ht0), Bits(s.ht1));
        JoinOf(h, v, k0, k1);
        EmptiedBucket(hash, s, m, key);
      }
    }
  }

  /** A fitting call emits every present key that it moves the position past. */
  lemma CallCovers<K(!new), V>(hash: K -> nat, w: nat, c: Call<K, V>, key: K)
    requires CallValid(hash, w, c) && CursorFits(c.s, c.cursor) && key in c.m && Passes(w, c.s, c.cursor, hash(key))
    ensures Entry(key, c.m[key]) in c.emitted
  {
    hide Represents, CursorFits, Passes;
    FittingVisits(hash, w, c.s, c.m, c.cursor, key);
  }

  lemma CallAdvances<K(!new), V>(hash: K -> nat, w: nat, c: Call<K, V>, key: K)
    requires CallValid(hash, w, c) && key in c.m
    ensures SmallBits(c.s) <= w && Pow2(SmallBits(c.s)) <= Pow2(w) && c.next < Pow2(SmallBits(c.s))
    ensures c.next == 0 <==> PositionAfter(w, c.cursor, SmallBits(c.s)) == Pow2(w)
    ensures c.next != 0 ==> BitRev(w, c.next) == PositionAfter(w, c.cursor, SmallBits(c.s))
  {
    hide Represents, Visits, Pow2, BitRev, PositionAfter;
    AdvanceMeaning(w, c.cursor, SmallBits(c.s));
  }

  /** While a key present throughout has not been emitted, the scan position has not
      passed it. */
  lemma {:induction false} NotYetPassed<K(!new), V>(hash: K -> nat, w: nat, calls: seq<Call<K, V>>, key: K)
    requires Chained(hash, w, calls) && calls != [] && calls[0].cursor == 0
    requires forall i | 0 <= i < |calls| :: key in calls[i].m && CursorFits(calls[i].s, calls[i].cursor)
    requires hash(key) < Pow2(w) && !Emitted(calls, key)
    ensures calls[|calls| - 1].next != 0
    ensures BitRev(w, calls[|calls| - 1].next) <= BitRev(w, hash(key))
  {
    hide BitRev, PositionAfter, Pow2, CursorFits, CallValid;
    var last := calls[|calls| - 1];
    assert CallValid(hash, w, last);
    if |calls| == 1 {
      BitRevZero(w);
    } else {
      var front := calls[..|calls| - 1];
      assert forall i | 0 <= i < |front| :: front[i] == calls[i];
      assert !Emitted(front, key);
      NotYetPassed(hash, w, front, key);
    }
    assert BitRev(w, last.cursor) <= BitRev(w, hash(key));
    assert Entry(key, last.m[key]) !in last.emitted;
    CallAdvances(hash, w, last, key);
    if Passes(w, last.s, last.cursor, hash(key)) {
      CallCovers(hash, w, last, key);
    }
  }

  /** Completeness: a key present at every call of a full scan is emitted at least once,
      whatever happened to the dictionary between the calls, if every call fits. */
  lemma ScanComplete<K(!new), V>(hash: K -> nat, w: nat, calls: seq<Call<K, V>>, key: K)
    requires FullScan(hash, w, calls) && hash(key) < Pow2(w)
    requires forall i | 0 <= i < |calls| :: key in calls[i].m && CursorFits(calls[i].s, calls[i].cursor)
    ensures Emitted(calls, key)
  {
    if !Emitted(calls, key) { NotYetPassed(hash, w, calls, key); }
  }

  // ---- growth only ------------------------------------------------------------------

  lemma {:induction false} NoHighPart(v: nat, k0: nat, k1: nat)
    requires k0 <= k1 && v < Pow2(k0)
    ensures HighPart(v, k0, k1) == 0
  {
    if k0 == 0 {
      LowId(0, k1);
    } else {
      NoHighPart(v / 2, k0 - 1, k1 - 1);
    }
  }

  /** A cursor whose bits between the masks are a run of ones fits, however far the rehash is;
      in particular a cursor with no bit above the smaller mask. */
  lemma RunOfOnesFits<K, V>(s: State<K, V>, v: nat)
    requires IsRunOfOnes(HighPart(v, SmallBits(s), LargeBits(s)))
    ensures CursorFits(s, v)
  {
    hide Low, Shr, Log2;
    if s.rehashidx != -1 {
      var hi, d := HighPart(v, SmallBits(s), LargeBits(s)), LargeBits(s) - SmallBits(s);
      assert SmallBits(s) == Min(Bits(s.ht0), Bits(s.ht1)) && LargeBits(s) == Max(Bits(s.ht0), Bits(s.ht1));
      forall y: nat | y < hi ensures !Skipped(y, v, SmallBits(s), LargeBits(s)) {
        RunOrders(d, hi, y);
      }
    }
  }

  lemma SmallCursorFits<K, V>(s: State<K, V>, v: nat)
    requires v < Pow2(SmallBits(s))
    ensures CursorFits(s, v)
  {
    hide CursorFits, HighPart;
    NoHighPart(v, SmallBits(s), LargeBits(s));
    ZeroIsRun();
    RunOfOnesFits(s, v);
  }

  /** Completeness without any condition on cursors, when the smaller mask never shrinks
      between calls: in particular while the dictionary only grows. */
  lemma ScanCompleteWhenGrowing<K(!new), V>(hash: K -> nat, w: nat, calls: seq<Call<K, V>>, key: K)
    requires FullScan(hash, w, calls) && hash(key) < Pow2(w)
    requires forall i | 0 <= i < |calls| :: key in calls[i].m
    requires forall i | 0 < i < |calls| :: SmallBits(calls[i - 1].s) <= SmallBits(calls[i].s)
    ensures Emitted(calls, key)
  {
    hide CursorFits, CallValid, Pow2;
    forall i | 0 <= i < |calls| ensures CursorFits(calls[i].s, calls[i].cursor) {
      if i > 0 {
        var before := calls[i - 1];
        assert CallValid(hash, w, before) && key in before.m;
        CallAdvances(hash, w, before, key);
        Pow2Monotone(SmallBits(before.s), SmallBits(calls[i].s));
      }
      SmallCursorFits(calls[i].s, calls[i].cursor);
    }
    ScanComplete(hash, w, calls, key);
  }

  // ---- the guard is needed: a scan that loses an element -----------------------------

  /** A cursor is determined by its position. */
  lemma NextIs(w: nat, v: nat, k: nat, expected: nat)
    requires k <= w && v < Pow2(w) && expected < Pow2(w)
    requires BitRev(w, expected) == PositionAfter(w, v, k)
    ensures Pow2(k) <= Pow2(w) && Advance(w, v, Pow2(k) - 1) == expected
  {
    AdvanceMeaning(w, v, k);
    var next := Advance(w, v, Pow2(k) - 1);
    if next != 0 {
      BitRevInjective(w, next, expected);
      LowId(next, w);
      LowId(expected, w);
    }
  }

  lemma PositionUnfold(w: nat, v: nat, k: nat)
    requires 0 < k <= w
    ensures PositionAfter(w, v, k)
            == (if v % 2 == 1 then Pow2(w - 1) else 0) + PositionAfter(w - 1, v / 2, k - 1)
  {
  }

  /** Advancing 0 under a mask of four bits. */
  lemma FirstAdvance(w: nat)
    requires w >= 5
    ensures 8 < Pow2(w) && Pow2(4) <= Pow2(w) && Advance(w, 0, Pow2(4) - 1) == 8
  {
    hide BitRev, PositionAfter, Advance, Pow2;
    SmallPowers();
    Pow2Monotone(4, w);
    BitRevUnfold(w, 8);
    BitRevUnfold(w - 1, 4);
    BitRevUnfold(w - 2, 2);
    BitRevUnfold(w - 3, 1);
    BitRevZero(w - 4);
    PositionUnfold(w, 0, 4);
    PositionUnfold(w - 1, 0, 3);
    PositionUnfold(w - 2, 0, 2);
    PositionUnfold(w - 3, 0, 1);
    LastPosition(w - 4, 0);
    NextIs(w, 0, 4, 8);
  }

  lemma SmallPowers()
    ensures Pow2(0) == 1 && Pow2(1) == 2 && Pow2(2) == 4 && Pow2(4) == 16
  {
  }

  lemma LastPosition(w: nat, v: nat)
    ensures PositionAfter(w, v, 0) == Pow2(w)
  {
  }

  /** Advancing under a mask of two bits: 0, 2, 1, 3 and back to 0. */
  lemma SmallAdvance(w: nat, v: nat)
    requires w >= 5 && v in {8, 2, 1, 3}
    ensures v < Pow2(w) && Pow2(2) <= Pow2(w)
    ensures Advance(w, v, Pow2(2) - 1) == if v == 8 then 2 else if v == 2 then 1 else if v == 1 then 3 else 0
  {
    hide BitRev, PositionAfter, Advance;
    var next := if v == 8 then 2 else if v == 2 then 1 else if v == 1 then 3 else 0;
    Pow2Monotone(4, w);
    assert Pow2(w) == 2 * Pow2(w - 1) && Pow2(w - 1) == 2 * Pow2(w - 2);
    PositionUnfold(w, v, 2);
    PositionUnfold(w - 1, v / 2, 1);
    LastPosition(w - 2, v / 2 / 2);
    BitRevUnfold(w, next);
    BitRevUnfold(w - 1, next / 2);
    BitRevZero(w - 2);
    if v == 3 {
      AdvanceMeaning(w, v, 2);
    } else {
      NextIs(w, v, 2, next);
    }
  }

  /** Sixteen buckets holding key 4 in bucket 4, and the same table after the start of a
      rehash to four buckets. */
  lemma ShrinkingStates() returns (s16: State<nat, int>, s4: State<nat, int>)
    ensures s16.rehashidx == -1 && Bits(s16.ht0) == 4
    ensures s4.rehashidx == 0 && s4.ht0 == s16.ht0 && Bits(s4.ht1) == 2
    ensures Represents((k: nat) => k, s16, map[4 := 0])
    ensures Represents((k: nat) => k, s4, map[4 := 0])
    ensures Get((k: nat) => k, s4.ht1, 4).None?
  {
    var hash := (k: nat) => k;
    Log2Pow2(4);
    Log2Pow2(2);
    assert Pow2(4) == 16 && Pow2(2) == 4;
    var empty: State<nat, int> := State(Table([], 0), Table([], 0), -1);
    assert Represents(hash, empty, map[]);
    InstallKeeps(hash, empty, map[], 16);
    var s0 := Install(empty, 16);
    LinkKeeps(hash, s0, map[], Entry(4, 0));
    s16 := Link(hash, s0, Entry(4, 0));
    InstallKeeps(hash, s16, map[4 := 0], 4);
    FreshValid<nat, int>(hash, 4);
    s4 := Install(s16, 4);
  }

  lemma NotVisited(s: State<nat, int>, v: nat)
    requires s.rehashidx == 0 && Bits(s.ht0) == 4 && Bits(s.ht1) == 2
    requires Get((k: nat) => k, s.ht1, 4).None?
    requires v in {8, 2, 1, 3}
    ensures !Visits((k: nat) => k, s, v, 4)
  {
    hide Low, HighPart;
    PartsOfFour(v);
  }

  lemma PartsOfFour(v: nat)
    requires v in {8, 2, 1, 3}
    ensures Low(4, 2) == 0 && HighPart(4, 2, 4) == 1
    ensures if v == 8 then HighPart(v, 2, 4) == 2 else Low(v, 2) != 0
  {
  }

  /** A full scan that never returns a key present throughout: a cursor of the sixteen
      bucket table is used after a rehash to four buckets has started. Every call but
      one fits. */
  lemma ShrinkingScanLosesKey(w: nat) returns (calls: seq<Call<nat, int>>)
    requires w >= 5
    ensures FullScan((k: nat) => k, w, calls)
    ensures |calls| == 5 && forall i | 0 <= i < |calls| :: calls[i].m == map[4 := 0]
    ensures !Emitted(calls, 4)
    ensures forall i | 0 <= i < |calls| :: CursorFits(calls[i].s, calls[i].cursor) <==> i != 1
  {
    hide Represents, CursorFits, CallValid;
    var m: map<nat, int> := map[4 := 0];
    var s16, s4 := ShrinkingStates();
    var first := Call(s16, m, 0, [], 8);
    FirstCall(w, s16, m);
    LosingCall(w, s4, m, 8);
    LosingCall(w, s4, m, 2);
    LosingCall(w, s4, m, 1);
    LosingCall(w, s4, m, 3);
    calls := [first, Call(s4, m, 8, [], 2), Call(s4, m, 2, [], 1), Call(s4, m, 1, [], 3), Call(s4, m, 3, [], 0)];
  }

  lemma FirstCall(w: nat, s16: State<nat, int>, m: map<nat, int>)
    requires w >= 5 && m == map[4 := 0] && Represents((k: nat) => k, s16, m)
    requires s16.rehashidx == -1 && Bits(s16.ht0) == 4
    ensures CallValid((k: nat) => k, w, Call(s16, m, 0, [], 8)) && CursorFits(s16, 0)
  {
    hide Represents;
    FirstAdvance(w);
    assert Low(4, 4) == 4 && Low(0, 4) == 0;
  }

  /** During the shrinking rehash none of these calls visits key 4, and only the first
      one does not fit. */
  lemma LosingCall(w: nat, s4: State<nat, int>, m: map<nat, int>, v: nat)
    requires w >= 5 && m == map[4 := 0] && Represents((k: nat) => k, s4, m)
    requires s4.rehashidx == 0 && Bits(s4.ht0) == 4 && Bits(s4.ht1) == 2
    requires Get((k: nat) => k, s4.ht1, 4).None?
    requires v in {8, 2, 1, 3}
    ensures CallValid((k: nat) => k, w,
              Call(s4, m, v, [], if v == 8 then 2 else if v == 2 then 1 else if v == 1 then 3 else 0))
    ensures CursorFits(s4, v) <==> v != 8
  {
    hide Represents, Advance, Visits, CursorFits, HighPart;
    SmallAdvance(w, v);
    NotVisited(s4, v);
    LosingFits(s4, v);
  }

  /** A skipped bucket that is not emptied. */
  lemma DoesNotFit(bits0: nat, bits1: nat, idx: int, v: nat, y: nat)
    requires var k0, k1 := Min(bits0, bits1), Max(bits0, bits1);
             Skipped(y, v, k0, k1) && !(bits0 > bits1 && Join(v, y, k0) < idx)
    ensures !Fits(bits0, bits1, idx, v)
  {
  }

  lemma LosingFits(s4: State<nat, int>, v: nat)
    requires s4.rehashidx == 0 && Bits(s4.ht0) == 4 && Bits(s4.ht1) == 2 && v in {8, 2, 1, 3}
    ensures CursorFits(s4, v) <==> v != 8
  {
    if v == 8 {
      assert HighPart(8, 2, 4) == 2 && Skipped(1, 8, 2, 4);
      DoesNotFit(4, 2, 0, 8, 1);
    } else {
      assert Pow2(2) == 4;
      SmallCursorFits(s4, v);
    }
  }
}
