/** dictScan (dict.c): the stateless cursor. One call is specified by which hashes it
    emits; whole scans, interleaved with arbitrary changes of the dictionary, are then
    sequences of such calls. */
module DictScan {
  import opened Basics
  import opened Words
  import opened ScanCursor
  import opened DictTable
  import opened Dictionary

  function Bits<K, V>(t: Table<K, V>): nat {
    Log2(|t.buckets|)
  }

  /** The number of hash bits that index the smaller (or only) table. */
  function SmallBits<K, V>(s: State<K, V>): nat {
    if s.rehashidx == -1 || Bits(s.ht0) <= Bits(s.ht1) then Bits(s.ht0) else Bits(s.ht1)
  }

  /** The number of hash bits that index the larger (or only) table. */
  function LargeBits<K, V>(s: State<K, V>): (r: nat)
    ensures SmallBits(s) <= r
  {
    if s.rehashidx == -1 || Bits(s.ht1) < Bits(s.ht0) then Bits(s.ht0) else Bits(s.ht1)
  }

  /** The table dictScan calls t0, and the one it calls t1. */
  function SmallTable<K, V>(s: State<K, V>): Table<K, V> {
    if s.rehashidx == -1 || Bits(s.ht0) <= Bits(s.ht1) then s.ht0 else s.ht1
  }

  function LargeTable<K, V>(s: State<K, V>): Table<K, V> {
    if s.rehashidx == -1 || Bits(s.ht1) < Bits(s.ht0) then s.ht0 else s.ht1
  }

  /** A call with cursor v emits a key linked in the smaller table when the low bits of
      its hash agree with v, and one linked in the larger table when moreover the
      expansion loop reaches its bucket. */
  ghost predicate Visits<K, V>(hash: K -> nat, s: State<K, V>, v: nat, key: K) {
    || (Get(hash, SmallTable(s), key).Some? && Low(hash(key), SmallBits(s)) == Low(v, SmallBits(s)))
    || (s.rehashidx != -1 && Get(hash, LargeTable(s), key).Some?
        && ExpansionReaches(hash(key), v, SmallBits(s), LargeBits(s)))
  }

  /** What one call does: an empty dictionary ends the scan; otherwise exactly the visited
      entries are emitted, each once, and the cursor advances by the smaller mask. */
  ghost predicate ScanStep<K(!new), V>(hash: K -> nat, w: nat, s: State<K, V>, m: map<K, V>,
                                       v: nat, emitted: seq<Entry<K, V>>, next: nat)
    requires SmallBits(s) <= w
  {
    Pow2Monotone(SmallBits(s), w);
    if |m| == 0 then emitted == [] && next == 0
    else
      && next == Advance(w, v, Pow2(SmallBits(s)) - 1)
      && (forall e | e in emitted :: e.key in m && m[e.key] == e.val && Visits(hash, s, v, e.key))
      && (forall k | k in m && Visits(hash, s, v, k) :: Entry(k, m[k]) in emitted)
      && NoDuplicates(emitted)
  }

  lemma NoDuplicatesAppend<K, V>(a: Chain<K, V>, b: Chain<K, V>)
    requires NoDuplicates(a) && NoDuplicates(b) && forall x, y | x in a && y in b :: x.key != y.key
    ensures NoDuplicates(a + b)
  {
    var c := a + b;
    forall i, j | 0 <= i < j < |c| ensures c[i].key != c[j].key {
      if i < |a| <= j { assert c[i] in a && c[j] in b; }
    }
  }

  /** The entries of one bucket are those whose hash agrees with v under the mask. */
  lemma BucketEntries<K(!new), V>(hash: K -> nat, t: Table<K, V>, v: nat, e: Entry<K, V>)
    requires TableValid(hash, t) && t.buckets != []
    ensures e in t.buckets[Index(v, |t.buckets|)]
            <==> Get(hash, t, e.key) == Some(e.val) && Low(hash(e.key), Bits(t)) == Low(v, Bits(t))
  {
    var i := Index(v, |t.buckets|);
    IndexIsLow(v, |t.buckets|);
    IndexIsLow(hash(e.key), |t.buckets|);
    var c := t.buckets[i];
    if e in c {
      var j :| 0 <= j < |c| && c[j] == e;
      assert Index(hash(c[j].key), |t.buckets|) == i;
      FindInAt(c, j);
    }
    if Get(hash, t, e.key) == Some(e.val) && Index(hash(e.key), |t.buckets|) == i {
      var j := FindInSome(c, e.key);
    }
  }

  lemma TableSizes<K(!new), V>(hash: K -> nat, s: State<K, V>, m: map<K, V>)
    requires Represents(hash, s, m) && |m| != 0
    ensures s.ht0.buckets != [] && |s.ht0.buckets| == Pow2(Bits(s.ht0)) && Bits(s.ht0) <= MAX_SIZE_BITS
    ensures s.rehashidx != -1 ==>
              && |s.ht1.buckets| == Pow2(Bits(s.ht1)) && Bits(s.ht1) <= MAX_SIZE_BITS
              && Bits(s.ht0) != Bits(s.ht1)
  {
    if s.ht0.buckets == [] { EmptyTables(hash, s, m); }
  }

  lemma EntryOfMap<K(!new), V>(hash: K -> nat, s: State<K, V>, m: map<K, V>, e: Entry<K, V>)
    requires Represents(hash, s, m)
    ensures e.key in m && m[e.key] == e.val
            <==> Get(hash, s.ht0, e.key) == Some(e.val) || Get(hash, s.ht1, e.key) == Some(e.val)
    ensures Get(hash, s.ht0, e.key).Some? ==> Get(hash, s.ht1, e.key).None?
  {
    assert Lookup(hash, s, e.key) == if e.key in m then Some(m[e.key]) else None;
  }

  /** Which entries the expansion loop has emitted when it stands at v' having started
      at v: those whose bits between the masks lie in [HighPart(v), bound). */
  ghost predicate Expanded<K, V>(hash: K -> nat, t1: Table<K, V>, v: nat, k0: nat, bound: nat, e: Entry<K, V>)
    requires k0 <= Bits(t1)
  {
    && Get(hash, t1, e.key) == Some(e.val) && Low(hash(e.key), k0) == Low(v, k0)
    && HighPart(v, k0, Bits(t1)) <= HighPart(hash(e.key), k0, Bits(t1)) < bound
  }

  /** A bucket of the larger table: no key twice, all with the same bits between the masks. */
  lemma BucketOnce<K(!new), V>(hash: K -> nat, t: Table<K, V>, v: nat, k0: nat, bucket: Chain<K, V>)
    requires TableValid(hash, t) && t.buckets != [] && k0 <= Bits(t) && bucket == t.buckets[Index(v, |t.buckets|)]
    ensures NoDuplicates(bucket)
    ensures forall e | e in bucket :: HighPart(hash(e.key), k0, Bits(t)) == HighPart(v, k0, Bits(t))
  {
    hide Low, Shr;
    forall e | e in bucket ensures HighPart(hash(e.key), k0, Bits(t)) == HighPart(v, k0, Bits(t)) {
      BucketEntries(hash, t, v, e);
      LowJoin(hash(e.key), v, k0, Bits(t));
    }
  }

  /** The do-while loop of dictScan: emit every bucket of the larger table that expands
      the cursor, from the cursor's own expansion upwards. */
  method ExpandCursor<K(!new), V>(ghost hash: K -> nat, t1: Table<K, V>, w: nat, v: nat, m0: nat, ghost k0: nat)
    returns (emitted: seq<Entry<K, V>>, v': nat)
    requires TableValid(hash, t1) && t1.buckets != []
    requires m0 == Pow2(k0) - 1 && k0 < Bits(t1) <= w && v < Pow2(w)
    ensures v' < Pow2(w) && Low(v', k0) == Low(v, k0)
    ensures forall e :: e in emitted <==> Expanded(hash, t1, v, k0, Pow2(Bits(t1) - k0), e)
    ensures NoDuplicates(emitted)
  {
    hide And, Xor, ExpandStep, Low;
    ghost var k1 := Bits(t1);
    ghost var D := Pow2(k1 - k0);
    var m1 := |t1.buckets| - 1;
    Pow2Monotone(k0, w);
    XorMasks(k0, k1);
    emitted := [];
    v' := v;
    var again := true;
    while again
      invariant v' < Pow2(w) && Low(v', k0) == Low(v, k0)
      invariant again ==> HighPart(v', k0, k1) >= HighPart(v, k0, k1)
      invariant NoDuplicates(emitted)
      invariant forall e :: e in emitted <==>
                  Expanded(hash, t1, v, k0, if again then HighPart(v', k0, k1) else D, e)
      decreases again, D - HighPart(v', k0, k1)
    {
      ghost var hi, before := HighPart(v', k0, k1), emitted;
      var bucket := t1.buckets[Index(v', m1 + 1)];
      emitted := emitted + bucket;
      BucketOnce(hash, t1, v', k0, bucket);
      forall e ensures e in emitted <==> Expanded(hash, t1, v, k0, hi + 1, e) {
        BucketEntries(hash, t1, v', e);
        LowJoin(hash(e.key), v', k0, k1);
        assert e in before <==> Expanded(hash, t1, v, k0, hi, e);
      }
      NoDuplicatesAppend(before, bucket);
      ExpandStepMeaning(w, v', k0, k1);
      v' := ExpandStep(w, v', m0);
      AndBetweenMasks(v', k0, k1);
      again := And(v', Xor(m0, m1)) != 0;
    }
  }

  /** Only the bits under the mask matter for the next cursor. */
  lemma {:induction false} PositionAfterLow(w: nat, v: nat, v': nat, k: nat)
    requires k <= w && Low(v, k) == Low(v', k)
    ensures PositionAfter(w, v, k) == PositionAfter(w, v', k)
  {
    if k != 0 { PositionAfterLow(w - 1, v / 2, v' / 2, k - 1); }
  }

  lemma AdvanceLow(w: nat, v: nat, v': nat, k: nat)
    requires k <= w && v < Pow2(w) && v' < Pow2(w) && Low(v, k) == Low(v', k)
    ensures Pow2(k) <= Pow2(w)
    ensures Advance(w, v, Pow2(k) - 1) == Advance(w, v', Pow2(k) - 1)
  {
    hide Or, BitRev, Pow2, PositionAfter;
    PositionAfterLow(w, v, v', k);
    ReversedAdvance(w, v, k);
    ReversedAdvance(w, v', k);
  }

  /** Without rehashing, the visited entries are those of the cursor's bucket. */
  lemma SingleEmits<K(!new), V>(hash: K -> nat, s: State<K, V>, m: map<K, V>, v: nat, e: Entry<K, V>)
    requires Represents(hash, s, m) && s.rehashidx == -1 && s.ht0.buckets != []
    ensures e in s.ht0.buckets[Index(v, |s.ht0.buckets|)]
            <==> e.key in m && m[e.key] == e.val && Visits(hash, s, v, e.key)
  {
    BucketEntries(hash, s.ht0, v, e);
    EntryOfMap(hash, s, m, e);
  }

  /** While rehashing, the visited entries are those of the small bucket and those the
      expansion loop collects. */
  lemma TwoTableEmits<K(!new), V>(hash: K -> nat, s: State<K, V>, m: map<K, V>, v: nat, e: Entry<K, V>)
    requires Represents(hash, s, m) && s.rehashidx != -1 && |m| != 0
    ensures SmallTable(s).buckets != [] && Bits(LargeTable(s)) == LargeBits(s)
    ensures || e in SmallTable(s).buckets[Index(v, |SmallTable(s).buckets|)]
            || Expanded(hash, LargeTable(s), v, SmallBits(s), Pow2(LargeBits(s) - SmallBits(s)), e)
            <==> e.key in m && m[e.key] == e.val && Visits(hash, s, v, e.key)
  {
    hide TableValid, Disjoint, Models, Get, Low, Shr, Pow2;
    SizeOrder(hash, s, m);
    BucketEntries(hash, SmallTable(s), v, e);
    EntryOfMap(hash, s, m, e);
  }

  lemma SmallBucketOnce<K(!new), V>(hash: K -> nat, s: State<K, V>, m: map<K, V>, v: nat)
    requires Represents(hash, s, m) && SmallTable(s).buckets != []
    ensures NoDuplicates(SmallTable(s).buckets[Index(v, |SmallTable(s).buckets|)])
  {
  }

  /** No key is emitted from both tables. */
  lemma SidesApart<K(!new), V>(hash: K -> nat, s: State<K, V>, m: map<K, V>, v: nat, a: Chain<K, V>, b: Chain<K, V>)
    requires Represents(hash, s, m) && s.rehashidx != -1 && SmallTable(s).buckets != []
    requires a == SmallTable(s).buckets[Index(v, |SmallTable(s).buckets|)]
    requires SmallBits(s) <= Bits(LargeTable(s))
    requires forall e | e in b :: Expanded(hash, LargeTable(s), v, SmallBits(s), Pow2(Bits(LargeTable(s)) - SmallBits(s)), e)
    ensures forall x, y | x in a && y in b :: x.key != y.key
  {
    hide TableValid, Models, Get, Low, Shr, Pow2, Bits;
    forall x, y | x in a && y in b ensures x.key != y.key {
      BucketEntries(hash, SmallTable(s), v, x);
      EntryOfMap(hash, s, m, x);
      EntryOfMap(hash, s, m, y);
    }
  }

  /** dictScan: one step from cursor v. */
  method Scan<K(!new), V>(d: Dict<K, V>, w: nat, v: nat) returns (next: nat, emitted: seq<Entry<K, V>>)
    requires d.Valid() && v < Pow2(w) && w >= MAX_SIZE_BITS
    ensures SmallBits(d.St()) <= w && next < Pow2(w)
    ensures ScanStep(d.hash, w, d.St(), d.model, v, emitted, next)
  {
    hide TableValid, Disjoint, Models, Get, Advance, Visits, Expanded, Pow2, Index;
    ghost var s, m, hash := d.St(), d.model, d.hash;
    SmallBitsBound(hash, s, m);
    if d.ht0.used + d.ht1.used == 0 { return 0, []; }
    TableSizes(hash, s, m);
    SizeOrder(hash, s, m);
    Pow2Monotone(SmallBits(s), w);
    var m0, v';
    if d.rehashidx == -1 {
      m0 := |d.ht0.buckets| - 1;
      emitted := d.ht0.buckets[Index(v, m0 + 1)];
      v' := v;
      forall e ensures e in emitted <==> e.key in m && m[e.key] == e.val && Visits(hash, s, v, e.key) {
        SingleEmits(hash, s, m, v, e);
      }
      SmallBucketOnce(hash, s, m, v);
    } else {
      var t0, t1 := d.ht0, d.ht1;
      if |t0.buckets| > |t1.buckets| { t0, t1 := d.ht1, d.ht0; }
      m0 := |t0.buckets| - 1;
      emitted := t0.buckets[Index(v, m0 + 1)];
      var large;
      large, v' := ExpandCursor(hash, t1, w, v, m0, SmallBits(s));
      SmallBucketOnce(hash, s, m, v);
      SidesApart(hash, s, m, v, emitted, large);
      NoDuplicatesAppend(emitted, large);
      emitted := emitted + large;
      forall e ensures e in emitted <==> e.key in m && m[e.key] == e.val && Visits(hash, s, v, e.key) {
        TwoTableEmits(hash, s, m, v, e);
      }
      AdvanceLow(w, v, v', SmallBits(s));
    }
    next := Advance(w, v', m0);
  }

  lemma SmallBitsBound<K(!new), V>(hash: K -> nat, s: State<K, V>, m: map<K, V>)
    requires Represents(hash, s, m)
    ensures SmallBits(s) <= LargeBits(s) <= MAX_SIZE_BITS
  {
  }

  lemma SizeOrder<K(!new), V>(hash: K -> nat, s: State<K, V>, m: map<K, V>)
    requires Represents(hash, s, m) && |m| != 0
    ensures |SmallTable(s).buckets| == Pow2(SmallBits(s))
    ensures s.rehashidx != -1 ==>
              && TableValid(hash, LargeTable(s)) && LargeTable(s).buckets != [] && SmallTable(s).buckets != []
              && SmallBits(s) < LargeBits(s) == Bits(LargeTable(s))
              && SmallTable(s) == (if |s.ht0.buckets| > |s.ht1.buckets| then s.ht1 else s.ht0)
              && LargeTable(s) == (if |s.ht0.buckets| > |s.ht1.buckets| then s.ht0 else s.ht1)
  {
    TableSizes(hash, s, m);
    if Bits(s.ht0) <= Bits(s.ht1) {
      Pow2Monotone(Bits(s.ht0), Bits(s.ht1));
    } else {
      Pow2Monotone(Bits(s.ht1), Bits(s.ht0));
    }
  }
}
