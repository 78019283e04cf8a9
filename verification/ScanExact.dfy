/** The guard of scan completeness is exact (dict.c): where it fails, some dictionary with the
    same table sizes and the same rehashidx loses an element in that very call. */
module ScanExact {
  import opened Basics
  import opened Words
  import opened ScanCursor
  import opened DictTable
  import opened Dictionary
  import opened DictScan
  import opened ScanRuns

  /** Keys that are their own hashes, so that a key of every hash exists. */
  function Id(k: nat): nat {
    k
  }

  ghost predicate HasSizes<K, V>(s: State<K, V>, bits0: nat, bits1: nat, idx: nat) {
    Bits(s.ht0) == bits0 && Bits(s.ht1) == bits1 && s.rehashidx == idx
  }

  /** In every dictionary of this shape, a call with cursor v visits each present key that it
      moves the position past. */
  ghost predicate LosesNothing(w: nat, bits0: nat, bits1: nat, idx: nat, v: nat)
    requires bits0 <= w && bits1 <= w
  {
    forall s: State<nat, int>, m: map<nat, int>, key: nat |
      Represents(Id, s, m) && HasSizes(s, bits0, bits1, idx) && key in m && Passes(w, s, v, key) ::
      Visits(Id, s, v, key)
  }

  /** A shape that tables of these sizes can have. */
  ghost predicate ShapeOk(w: nat, bits0: nat, bits1: nat, idx: nat) {
    bits0 != bits1 && bits0 <= MAX_SIZE_BITS && bits1 <= MAX_SIZE_BITS && bits0 <= w && bits1 <= w && idx <= Pow2(bits0)
  }

  /** A dictionary before its first allocation. */
  function NoTables(): State<nat, int> {
    State(Table([], 0), Table([], 0), -1)
  }

  lemma NoTablesOk()
    ensures Represents(Id, NoTables(), map[])
  {
  }

  lemma PowerSize(k: nat)
    ensures IsPow2(Pow2(k)) && Log2(Pow2(k)) == k && Pow2(k) > 0
  {
    Log2Pow2(k);
  }

  /** One table of 2^k buckets and no key. */
  lemma OneTable(k: nat) returns (s: State<nat, int>)
    requires k <= MAX_SIZE_BITS
    ensures Represents(Id, s, map[]) && s.rehashidx == -1 && s.ht0 == FreshTable(Pow2(k)) && s.ht0.buckets != []
  {
    hide Represents;
    NoTablesOk();
    PowerSize(k);
    InstallKeeps(Id, NoTables(), map[], Pow2(k));
    s := Install(NoTables(), Pow2(k));
  }

  /** A shrinking rehash at idx, with one key in a bucket of the first table not before idx. */
  lemma ShrinkingWith(bits0: nat, bits1: nat, idx: nat, key: nat) returns (s: State<nat, int>)
    requires bits1 < bits0 <= MAX_SIZE_BITS && idx <= key < Pow2(bits0)
    ensures Represents(Id, s, map[key := 0]) && HasSizes(s, bits0, bits1, idx)
    ensures Get(Id, s.ht0, key).Some? && Get(Id, s.ht1, key).None?
  {
    hide Represents, Pow2, Log2, IsPow2;
    var s0 := OneTable(bits0);
    PowerSize(bits0);
    PowerSize(bits1);
    Pow2Monotone(bits1, bits0);
    LinkKeeps(Id, s0, map[], Entry(key, 0));
    var s1 := Link(Id, s0, Entry(key, 0));
    InstallKeeps(Id, s1, map[key := 0], Pow2(bits1));
    var s2 := Install(s1, Pow2(bits1));
    FreshValid<nat, int>(Id, Pow2(bits1));
    IndexIsLow(key, Pow2(bits0));
    LowId(key, bits0);
    AdvanceKeeps(Id, s2, map[key := 0], idx);
    s := s2.(rehashidx := idx);
  }

  /** A growing rehash at idx, with one key in the second table. */
  lemma GrowingWith(bits0: nat, bits1: nat, idx: nat, key: nat) returns (s: State<nat, int>)
    requires bits0 < bits1 <= MAX_SIZE_BITS && idx <= Pow2(bits0)
    ensures Represents(Id, s, map[key := 0]) && HasSizes(s, bits0, bits1, idx)
    ensures Get(Id, s.ht0, key).None? && Get(Id, s.ht1, key).Some?
  {
    hide Represents, Pow2, Log2, IsPow2;
    var s0 := OneTable(bits0);
    PowerSize(bits0);
    PowerSize(bits1);
    Pow2Monotone(bits0, bits1);
    InstallKeeps(Id, s0, map[], Pow2(bits1));
    var s1 := Install(s0, Pow2(bits1));
    LinkKeeps(Id, s1, map[], Entry(key, 0));
    var s2 := Link(Id, s1, Entry(key, 0));
    FreshValid<nat, int>(Id, Pow2(bits0));
    AdvanceKeeps(Id, s2, map[key := 0], idx);
    s := s2.(rehashidx := idx);
  }

  /** Where a skipped bucket is not emptied, a key in it is lost. */
  lemma LosingDictionary(w: nat, bits0: nat, bits1: nat, idx: nat, v: nat, y: nat)
    returns (s: State<nat, int>, key: nat)
    requires ShapeOk(w, bits0, bits1, idx) && v < Pow2(w)
    requires Skipped(y, v, Min(bits0, bits1), Max(bits0, bits1))
    requires bits0 < bits1 || Join(v, y, Min(bits0, bits1)) >= idx
    ensures Represents(Id, s, map[key := 0]) && HasSizes(s, bits0, bits1, idx)
    ensures Passes(w, s, v, key) && !Visits(Id, s, v, key)
  {
    hide Represents, Pow2, Low, Shr, BitRev, PositionAfter, Skipped, Join, Get;
    var k0, k1 := Min(bits0, bits1), Max(bits0, bits1);
    key := Join(v, y, k0);
    MissedHash(w, v, k0, k1, y);
    if bits0 > bits1 {
      s := ShrinkingWith(bits0, bits1, idx, key);
    } else {
      s := GrowingWith(bits0, bits1, idx, key);
    }
  }

  /** The guard can hold without a run of ones: cursor 8 skips only bucket 4 of a table of sixteen
      that shrinks to four, which is harmless once the rehash has passed it. */
  lemma EmptiedBucketsFit(idx: nat)
    ensures !IsRunOfOnes(HighPart(8, 2, 4))
    ensures Fits(4, 2, idx, 8) <==> idx > 4
  {
    hide HighPart, Skipped, Join, IsRunOfOnes, Fits;
    SkippedByEight(0);
    RunOfOnesOdd(2);
    if idx <= 4 {
      SkippedByEight(1);
      DoesNotFit(4, 2, idx, 8, 1);
    } else {
      EightFits(4, 2, idx, 8);
    }
  }

  lemma EightFits(bits0: nat, bits1: nat, idx: nat, v: nat)
    requires bits0 == 4 && bits1 == 2 && v == 8 && idx > 4
    ensures Fits(bits0, bits1, idx, v)
  {
    hide HighPart, Skipped, Join;
    forall y: nat | Skipped(y, v, 2, 4) ensures Join(v, y, 2) < idx {
      SkippedByEight(y);
    }
  }

  lemma SkippedByEight(y: nat)
    ensures HighPart(8, 2, 4) == 2
    ensures Skipped(y, 8, 2, 4) <==> y == 1
    ensures Join(8, 1, 2) == 4
  {
    EightParts();
    hide HighPart, Join, BitRev;
  }

  lemma EightParts()
    ensures HighPart(8, 2, 4) == 2 && Join(8, 1, 2) == 4
    ensures BitRev(2, 2) == 1 && BitRev(2, 1) == 2 && BitRev(2, 0) == 0
  {
  }

  /** For every pair of table sizes, every rehashidx and every cursor: no dictionary of that shape
      loses a key in a call with the cursor, if and only if the cursor fits. */
  lemma CursorFitsExactly(w: nat, bits0: nat, bits1: nat, idx: nat, v: nat)
    requires ShapeOk(w, bits0, bits1, idx) && v < Pow2(w)
    ensures Fits(bits0, bits1, idx, v) <==> LosesNothing(w, bits0, bits1, idx, v)
  {
    hide Represents, Passes, Visits, Join, Skipped, Pow2, Bits;
    if Fits(bits0, bits1, idx, v) {
      forall s: State<nat, int>, m: map<nat, int>, key: nat |
        Represents(Id, s, m) && HasSizes(s, bits0, bits1, idx) && key in m && Passes(w, s, v, key)
        ensures Visits(Id, s, v, key)
      {
        FittingVisits(Id, w, s, m, v, key);
      }
    } else {
      var y: nat :| Skipped(y, v, Min(bits0, bits1), Max(bits0, bits1))
                    && !(bits0 > bits1 && Join(v, y, Min(bits0, bits1)) < idx);
      var s, key := LosingDictionary(w, bits0, bits1, idx, v, y);
      assert key in map[key := 0];
    }
  }
}
