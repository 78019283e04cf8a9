/** dict.c: a hash table that grows and shrinks by moving one bucket at a time between
    two tables, and still behaves as a single map. */
module Dictionary {
  import opened Basics
  import opened Words
  import opened DictTable

  /** DICT_HT_INITIAL_SIZE */
  const INITIAL_SIZE: nat := 4

  /** dict_force_resize_ratio */
  const FORCE_RESIZE_RATIO: nat := 5

  function FreshTable<K, V>(size: nat): Table<K, V> {
    Table(seq(size, _ => []), 0)
  }

  /** What installing a new table of the given size does: the first table is used
      directly, a later one starts an incremental rehash. */
  function Install<K, V>(s: State<K, V>, size: nat): State<K, V> {
    if s.ht0.buckets == [] then s.(ht0 := FreshTable(size))
    else State(s.ht0, FreshTable(size), 0)
  }

  /** New entries go to the second table while rehashing. */
  function Link<K, V>(hash: K -> nat, s: State<K, V>, e: Entry<K, V>): State<K, V>
    requires s.ht0.buckets != [] && (s.rehashidx != -1 ==> s.ht1.buckets != [])
  {
    if s.rehashidx != -1 then s.(ht1 := Insert(hash, s.ht1, e))
    else s.(ht0 := Insert(hash, s.ht0, e))
  }

  /** A state reached by at most one installation of a new table. */
  ghost predicate MaybeInstalled<K, V>(s: State<K, V>, s': State<K, V>) {
    s' == s || (s.rehashidx == -1 && exists size: nat | IsPow2(size) && size >= INITIAL_SIZE :: s' == Install(s, size))
  }

  lemma {:induction false} TotalFresh<K, V>(bs: seq<Chain<K, V>>)
    requires forall i | 0 <= i < |bs| :: bs[i] == []
    ensures Total(bs) == 0
  {
    TotalOfEmpty(bs);
  }

  lemma FreshValid<K, V>(hash: K -> nat, size: nat)
    requires IsPow2(size) && Log2(size) <= MAX_SIZE_BITS
    ensures TableValid(hash, FreshTable<K, V>(size))
    ensures forall k :: Get(hash, FreshTable<K, V>(size), k).None?
  {
    TotalFresh(FreshTable<K, V>(size).buckets);
  }

  /** While entries remain in the first table, one of them lies at or after rehashidx. */
  lemma RemainingBucket<K(!new), V>(hash: K -> nat, s: State<K, V>, m: map<K, V>) returns (b: nat)
    requires Represents(hash, s, m) && s.rehashidx != -1 && s.ht0.used != 0
    ensures s.rehashidx <= b < |s.ht0.buckets| && s.ht0.buckets[b] != []
  {
    TotalOfEmpty(s.ht0.buckets);
    b :| 0 <= b < |s.ht0.buckets| && s.ht0.buckets[b] != [];
  }

  /** Passing over empty buckets keeps the represented map. */
  lemma AdvanceKeeps<K(!new), V>(hash: K -> nat, s: State<K, V>, m: map<K, V>, idx: int)
    requires Represents(hash, s, m) && 0 <= s.rehashidx <= idx <= |s.ht0.buckets|
    requires forall i | 0 <= i < idx :: s.ht0.buckets[i] == []
    ensures Represents(hash, s.(rehashidx := idx), m)
  {
    assert forall k :: Lookup(hash, s.(rehashidx := idx), k) == Lookup(hash, s, k);
  }

  /** Moving one bucket keeps the represented map. */
  lemma MoveBucketKeeps<K(!new), V>(hash: K -> nat, s: State<K, V>, m: map<K, V>)
    requires Represents(hash, s, m) && 0 <= s.rehashidx < |s.ht0.buckets|
    ensures s.ht0.used >= |s.ht0.buckets[s.rehashidx]|
    ensures var i := s.rehashidx;
            Represents(hash, State(ClearBucket(s.ht0, i), MoveChain(hash, s.ht0.buckets[i], s.ht1), i + 1), m)
  {
    var i := s.rehashidx;
    var c := s.ht0.buckets[i];
    hide Get, TableValid, Models, MoveChain, Shape;
    TwoTables(hash, s, m);
    ClearBucketMeaning(hash, s.ht0, i);
    ChainBelongs(hash, s.ht0, i);
    ChainDistinct(hash, s.ht0, i);
    ChainElsewhere(hash, s, i);
    MoveChainMeaning(hash, c, s.ht1);
    var s' := State(ClearBucket(s.ht0, i), MoveChain(hash, c, s.ht1), i + 1);
    MoveKeeps(hash, s, s', m, c);
    ClearedShape(s, MoveChain(hash, c, s.ht1));
  }

  /** No key of a chain of the first table is in the second. */
  lemma ChainElsewhere<K(!new), V>(hash: K -> nat, s: State<K, V>, i: nat)
    requires TableValid(hash, s.ht0) && Disjoint(hash, s) && i < |s.ht0.buckets|
    ensures forall j | 0 <= j < |s.ht0.buckets[i]| :: Get(hash, s.ht1, s.ht0.buckets[i][j].key).None?
  {
    hide Get, TableValid;
    ChainBelongs(hash, s.ht0, i);
    forall j | 0 <= j < |s.ht0.buckets[i]| ensures Get(hash, s.ht1, s.ht0.buckets[i][j].key).None? {
      assert Get(hash, s.ht0, s.ht0.buckets[i][j].key).Some?;
    }
  }

  lemma ClearedShape<K, V>(s: State<K, V>, t: Table<K, V>)
    requires Shape(s) && 0 <= s.rehashidx < |s.ht0.buckets| && s.ht0.used >= |s.ht0.buckets[s.rehashidx]|
    requires |t.buckets| == |s.ht1.buckets|
    ensures Shape(State(ClearBucket(s.ht0, s.rehashidx), t, s.rehashidx + 1))
  {
  }

  lemma ChainDistinct<K(!new), V>(hash: K -> nat, t: Table<K, V>, i: nat)
    requires TableValid(hash, t) && i < |t.buckets|
    ensures NoDuplicates(t.buckets[i])
  {
  }

  /** A chain holds the keys that look it up. */
  lemma ChainBelongs<K(!new), V>(hash: K -> nat, t: Table<K, V>, i: nat)
    requires TableValid(hash, t) && i < |t.buckets|
    ensures forall k :: FindIn(t.buckets[i], k).Some? ==> Get(hash, t, k) == FindIn(t.buckets[i], k)
    ensures forall j | 0 <= j < |t.buckets[i]| ::
              Get(hash, t, t.buckets[i][j].key) == Some(t.buckets[i][j].val)
  {
    var c := t.buckets[i];
    forall k ensures FindIn(c, k).Some? ==> Get(hash, t, k) == FindIn(c, k) {
      if FindIn(c, k).Some? {
        var j := FindInSome(c, k);
        assert Index(hash(c[j].key), |t.buckets|) == i;
      }
    }
    forall j | 0 <= j < |c| ensures Get(hash, t, c[j].key) == Some(c[j].val) {
      FindInAt(c, j);
    }
  }

  /** Once the first table is empty the second one takes its place. */
  lemma FinishKeeps<K(!new), V>(hash: K -> nat, s: State<K, V>, m: map<K, V>)
    requires Represents(hash, s, m) && s.rehashidx != -1 && s.ht0.used == 0
    ensures Represents(hash, State(s.ht1, Table([], 0), -1), m)
  {
    TotalOfEmpty(s.ht0.buckets);
    var s' := State(s.ht1, Table([], 0), -1);
    forall k ensures Lookup(hash, s', k) == Lookup(hash, s, k) {
      assert Get(hash, s.ht0, k).None?;
    }
  }

  lemma InstallKeeps<K(!new), V>(hash: K -> nat, s: State<K, V>, m: map<K, V>, size: nat)
    requires Represents(hash, s, m) && s.rehashidx == -1
    requires IsPow2(size) && Log2(size) <= MAX_SIZE_BITS && size != |s.ht0.buckets|
    ensures Represents(hash, Install(s, size), m)
  {
    FreshValid<K, V>(hash, size);
    assert size > 0;
    var s' := Install(s, size);
    forall k ensures Lookup(hash, s', k) == Lookup(hash, s, k) {
      if s.ht0.buckets == [] { assert Get(hash, s.ht0, k).None?; }
    }
  }

  lemma LinkKeeps<K(!new), V>(hash: K -> nat, s: State<K, V>, m: map<K, V>, e: Entry<K, V>)
    requires Represents(hash, s, m) && s.ht0.buckets != [] && e.key !in m
    ensures Represents(hash, Link(hash, s, e), m[e.key := e.val])
  {
    assert Lookup(hash, s, e.key).None?;
    if s.rehashidx != -1 {
      InsertMeaning(hash, s.ht1, e);
    } else {
      InsertMeaning(hash, s.ht0, e);
    }
    EditKeeps(hash, s, Link(hash, s, e), m, m[e.key := e.val], e.key);
  }

  /** The table that holds the entry at bucket i, position j. */
  function Side<K, V>(s: State<K, V>, second: bool): Table<K, V> {
    if second then s.ht1 else s.ht0
  }

  function WithSide<K, V>(s: State<K, V>, second: bool, t: Table<K, V>): State<K, V> {
    if second then s.(ht1 := t) else s.(ht0 := t)
  }

  /** An edit that keeps the bucket count keeps the shape if it fills no bucket. */
  lemma EditShape<K, V>(s: State<K, V>, second: bool, t: Table<K, V>)
    requires Shape(s) && |t.buckets| == |Side(s, second).buckets| > 0
    requires forall i | 0 <= i < |t.buckets| :: Side(s, second).buckets[i] == [] ==> t.buckets[i] == []
    ensures Shape(WithSide(s, second, t))
  {
  }

  /** The key of a linked entry is in the map, and after an edit that concerns this key only the
      tables represent the edited map. */
  lemma EditSide<K(!new), V>(hash: K -> nat, s: State<K, V>, m: map<K, V>, second: bool, t: Table<K, V>, m': map<K, V>, key: K)
    requires Disjoint(hash, s) && Models(hash, s, m) && Get(hash, Side(s, second), key).Some?
    requires forall k :: k != key ==> Get(hash, t, k) == Get(hash, Side(s, second), k)
    requires Get(hash, t, key) == if key in m' then Some(m'[key]) else None
    requires forall k | k != key :: k in m' <==> k in m
    requires forall k | k != key && k in m :: m'[k] == m[k]
    ensures key in m && Disjoint(hash, WithSide(s, second, t)) && Models(hash, WithSide(s, second, t), m')
  {
    hide Get;
    assert Lookup(hash, s, key).Some?;
    EditKeeps(hash, s, WithSide(s, second, t), m, m', key);
  }

  lemma UnlinkKeeps<K(!new), V>(hash: K -> nat, s: State<K, V>, m: map<K, V>, second: bool, i: nat, j: nat)
    requires Represents(hash, s, m)
    requires var t := Side(s, second); i < |t.buckets| && j < |t.buckets[i]| && t.used > 0
    ensures var t := Side(s, second);
            && t.buckets[i][j].key in m
            && Represents(hash, WithSide(s, second, Unlink(t, i, j)), m - {t.buckets[i][j].key})
  {
    hide Get, TableValid, Disjoint, Models, Shape;
    var t := Side(s, second);
    var key := t.buckets[i][j].key;
    UnlinkMeaning(hash, t, i, j);
    ChainBelongs(hash, t, i);
    EditSide(hash, s, m, second, Unlink(t, i, j), m - {key}, key);
    EditShape(s, second, Unlink(t, i, j));
    assert (m - {key}).Keys == m.Keys - {key};
  }

  lemma SetValKeeps<K(!new), V>(hash: K -> nat, s: State<K, V>, m: map<K, V>, second: bool, i: nat, j: nat, v: V)
    requires Represents(hash, s, m)
    requires var t := Side(s, second); i < |t.buckets| && j < |t.buckets[i]|
    ensures var t := Side(s, second);
            && t.buckets[i][j].key in m
            && Represents(hash, WithSide(s, second, SetVal(t, i, j, v)), m[t.buckets[i][j].key := v])
  {
    hide Get, TableValid, Disjoint, Models, Shape;
    var t := Side(s, second);
    var key := t.buckets[i][j].key;
    SetValMeaning(hash, t, i, j, v);
    ChainBelongs(hash, t, i);
    EditSide(hash, s, m, second, SetVal(t, i, j, v), m[key := v], key);
    EditShape(s, second, SetVal(t, i, j, v));
    assert m[key := v].Keys == m.Keys;
  }

  lemma ShapeOf<K(!new), V>(hash: K -> nat, s: State<K, V>, m: map<K, V>)
    requires Represents(hash, s, m)
    ensures Shape(s) && TableValid(hash, s.ht0) && TableValid(hash, s.ht1)
  {
  }

  lemma TwoTables<K(!new), V>(hash: K -> nat, s: State<K, V>, m: map<K, V>)
    requires Represents(hash, s, m)
    ensures s.rehashidx != -1 ==> s.ht1.buckets != []
  {
  }

  /** Before the first allocation the map is empty. */
  lemma EmptyTables<K(!new), V>(hash: K -> nat, s: State<K, V>, m: map<K, V>)
    requires Represents(hash, s, m) && s.ht0.buckets == []
    ensures m == map[]
  {
    forall k ensures k !in m {
      assert Lookup(hash, s, k).None?;
    }
    assert m.Keys == {};
  }

  /** The number of chains among buckets a..b-1. */
  ghost function Filled<K, V>(buckets: seq<Chain<K, V>>, a: nat, b: nat): nat
    requires a <= b <= |buckets|
  {
    |set i | a <= i < b && buckets[i] != []|
  }

  lemma NoChains<K, V>(buckets: seq<Chain<K, V>>, a: nat)
    requires a <= |buckets|
    ensures Filled(buckets, a, a) == 0
  {
  }

  lemma NoneFilled<K, V>(buckets: seq<Chain<K, V>>, a: nat, b: nat, c: nat)
    requires a <= b <= c <= |buckets| && forall i | b <= i < c :: buckets[i] == []
    ensures Filled(buckets, a, c) == Filled(buckets, a, b)
  {
    assert (set i | a <= i < c && buckets[i] != []) == (set i | a <= i < b && buckets[i] != []);
  }

  /** n is the smallest table size that holds size elements. */
  ghost predicate IsNextPower(size: nat, n: nat) {
    IsPow2(n) && Log2(n) <= MAX_SIZE_BITS && n >= INITIAL_SIZE && n >= size && (n > INITIAL_SIZE ==> n / 2 < size)
  }

  lemma RehashRange<K(!new), V>(hash: K -> nat, s: State<K, V>, m: map<K, V>)
    requires Represents(hash, s, m)
    ensures -1 <= s.rehashidx && (s.rehashidx != -1 ==> s.rehashidx <= |s.ht0.buckets| && s.ht1.buckets != [])
    ensures s.rehashidx != -1 ==> forall i | 0 <= i < s.rehashidx :: s.ht0.buckets[i] == []
  {
  }

  lemma OneMoreFilled<K, V>(buckets: seq<Chain<K, V>>, a: nat, b: nat)
    requires a <= b < |buckets| && buckets[b] != []
    ensures Filled(buckets, a, b + 1) == Filled(buckets, a, b) + 1
  {
    assert (set i | a <= i < b + 1 && buckets[i] != []) == (set i | a <= i < b && buckets[i] != []) + {b};
  }

  /** A table without elements has no chains. */
  lemma EmptyTable<K(!new), V>(hash: K -> nat, s: State<K, V>, m: map<K, V>)
    requires Represents(hash, s, m) && s.ht0.used == 0
    ensures forall i | 0 <= i < |s.ht0.buckets| :: s.ht0.buckets[i] == []
  {
    forall i | 0 <= i < |s.ht0.buckets| ensures s.ht0.buckets[i] == [] {
      TotalUpdate(s.ht0.buckets, i, []);
    }
  }

  lemma UsedBound<K(!new), V>(hash: K -> nat, s: State<K, V>, m: map<K, V>)
    requires Represents(hash, s, m)
    ensures s.ht0.used <= |m| && (s.rehashidx != -1 ==> s.ht0.buckets != []) && (s.ht0.buckets == [] ==> s.ht0.used == 0)
  {
  }

  lemma InitialFits()
    ensures INITIAL_SIZE <= Pow2(MAX_SIZE_BITS)
  {
    Pow2Monotone(2, MAX_SIZE_BITS);
  }

  /** _dictNextPower */
  method NextPower(size: nat) returns (i: nat)
    requires size <= Pow2(MAX_SIZE_BITS)
    ensures IsNextPower(size, i)
    ensures i >= size && i >= 4 && (i == 4 || i / 2 < size) && exists k: nat :: i == Pow2(k)
  {
    i := INITIAL_SIZE;
    ghost var k := 2;
    while i < size
      invariant i == Pow2(k) && 2 <= k <= MAX_SIZE_BITS
      invariant i > INITIAL_SIZE ==> i / 2 < size
      decreases size - i
    {
      assert k != MAX_SIZE_BITS;
      i := i * 2;
      k := k + 1;
    }
    Log2Pow2(k);
    Pow2Monotone(2, k);
    assert Pow2(2) == 4;
  }

  /** Walk the chain of a key's bucket; j is -1 when the key is not linked. */
  method Locate<K(==), V>(hash: K -> nat, t: Table<K, V>, key: K) returns (i: nat, j: int)
    requires TableValid(hash, t) && t.buckets != []
    ensures i == Index(hash(key), |t.buckets|) && -1 <= j < |t.buckets[i]|
    ensures j == -1 <==> Get(hash, t, key).None?
    ensures j != -1 ==> t.buckets[i][j].key == key && Get(hash, t, key) == Some(t.buckets[i][j].val)
  {
    i := Index(hash(key), |t.buckets|);
    var he := t.buckets[i];
    j := 0;
    while he != []
      invariant 0 <= j <= |t.buckets[i]| && he == t.buckets[i][j..]
      invariant FindIn(he, key) == Get(hash, t, key)
      decreases |he|
    {
      if he[0].key == key { return; }
      he := he[1..];
      j := j + 1;
    }
    j := -1;
  }

  /** The first inner loop of dictRehash: skip empty buckets, giving up once the allowed
      visits are used. */
  method NextFilled<K, V>(bs: seq<Chain<K, V>>, from: nat, visits: nat, ghost b: nat)
    returns (idx: nat, left: nat)
    requires from <= b < |bs| && bs[b] != [] && visits > 0
    ensures from <= idx <= b && forall i | from <= i < idx :: bs[i] == []
    ensures left > 0 ==> bs[idx] != []
    ensures left == 0 ==> idx > from
    ensures visits - left == idx - from
  {
    idx, left := from, visits;
    while bs[idx] == []
      invariant from <= idx <= b && left > 0 && visits - left == idx - from
      invariant forall i | from <= i < idx :: bs[i] == []
      decreases b - idx
    {
      idx := idx + 1;
      left := left - 1;
      if left == 0 { return; }
    }
  }

  class Dict<K(==, !new), V> {
    const hash: K -> nat
    var ht0: Table<K, V>
    var ht1: Table<K, V>
    var rehashidx: int
    /** Safe iterators currently running. */
    var iterators: nat
    /** dict_can_resize */
    var canResize: bool

    /** The map that the two tables stand for. */
    ghost var model: map<K, V>

    ghost function St(): State<K, V>
      reads this
    {
      State(ht0, ht1, rehashidx)
    }

    ghost predicate Valid()
      reads this
    {
      Represents(hash, St(), model)
    }

    constructor (hash: K -> nat)
      ensures Valid() && model == map[] && iterators == 0 && rehashidx == -1
      ensures this.hash == hash
    {
      this.hash := hash;
      ht0, ht1 := Table([], 0), Table([], 0);
      rehashidx, iterators, canResize := -1, 0, true;
      model := map[];
    }

    /** dictExpand: refuse while rehashing, when the elements would not fit, or when
        nothing would change; otherwise install a table of the next power of two. */
    method Expand(size: nat) returns (ok: bool, ghost n: nat)
      requires Valid() && size <= Pow2(MAX_SIZE_BITS)
      modifies this`ht0, this`ht1, this`rehashidx
      ensures Valid()
      ensures IsNextPower(size, n)
      ensures ok <==> old(rehashidx) == -1 && old(ht0.used) <= size && n != |old(ht0.buckets)|
      ensures St() == if ok then Install(old(St()), n) else old(St())
    {
      hide Represents, Pow2, Log2, IsPow2;
      var realsize := NextPower(size);
      n := realsize;
      if rehashidx != -1 || ht0.used > size { return false, n; }
      if realsize == |ht0.buckets| { return false, n; }
      InstallKeeps(hash, St(), model, realsize);
      var t := FreshTable(realsize);
      if ht0.buckets == [] {
        ht0 := t;
        return true, n;
      }
      ht1 := t;
      rehashidx := 0;
      return true, n;
    }

    /** dictResize: shrink to the smallest size that fits. */
    method Resize() returns (ok: bool, ghost n: nat)
      requires Valid() && ht0.used <= Pow2(MAX_SIZE_BITS)
      modifies this`ht0, this`ht1, this`rehashidx
      ensures Valid()
      ensures St() == if ok then Install(old(St()), n) else old(St())
      ensures ok ==> canResize && old(rehashidx) == -1
      ensures canResize && old(rehashidx) == -1 ==>
                IsNextPower(Max(old(ht0.used), INITIAL_SIZE), n) && (ok <==> n != |old(ht0.buckets)|)
    {
      hide Represents, Pow2, Log2, IsPow2, Install;
      if !canResize || rehashidx != -1 { return false, 0; }
      var minimal := ht0.used;
      if minimal < INITIAL_SIZE {
        minimal := INITIAL_SIZE;
        InitialFits();
      }
      ok, n := Expand(minimal);
    }

    /** The inner part of dictRehash: relink every entry of the bucket at rehashidx. */
    method MoveBucket()
      requires Valid() && 0 <= rehashidx < |ht0.buckets|
      modifies this`ht0, this`ht1, this`rehashidx
      ensures Valid() && rehashidx == old(rehashidx) + 1
      ensures |ht0.buckets| == |old(ht0.buckets)| && |ht1.buckets| == |old(ht1.buckets)|
      ensures ht0.buckets == old(ht0.buckets)[old(rehashidx) := []]
    {
      hide Represents, TableValid;
      ShapeOf(hash, St(), model);
      MoveBucketKeeps(hash, St(), model);
      var de := ht0.buckets[rehashidx];
      ghost var c := de;
      while de != []
        invariant rehashidx == old(rehashidx) && ht0.buckets == old(ht0.buckets)
        invariant ht1.buckets != [] && MoveChain(hash, de, ht1) == MoveChain(hash, c, old(ht1))
        invariant ht0.used == old(ht0.used) - |c| + |de|
        decreases |de|
      {
        ht1 := Insert(hash, ht1, de[0]);
        ht0 := ht0.(used := ht0.used - 1);
        de := de[1..];
      }
      ht0 := ht0.(buckets := ht0.buckets[rehashidx := []]);
      rehashidx := rehashidx + 1;
      assert ht0 == ClearBucket(old(ht0), old(rehashidx));
    }

    /** Advance rehashidx over empty buckets. */
    method SkipEmpty(emptyVisits: nat) returns (left: nat)
      requires Valid() && rehashidx != -1 && ht0.used != 0 && emptyVisits > 0
      modifies this`rehashidx
      ensures Valid()
      ensures left > 0 ==> old(rehashidx) <= rehashidx < |ht0.buckets| && ht0.buckets[rehashidx] != []
      ensures left == 0 ==> rehashidx > old(rehashidx)
      ensures emptyVisits - left == rehashidx - old(rehashidx) && rehashidx <= |ht0.buckets|
      ensures forall i | old(rehashidx) <= i < rehashidx :: ht0.buckets[i] == []
    {
      hide Represents, Shape;
      RehashRange(hash, St(), model);
      ghost var b := RemainingBucket(hash, St(), model);
      assert |ht0.buckets| > rehashidx;
      var idx;
      idx, left := NextFilled(ht0.buckets, rehashidx, emptyVisits, b);
      AdvanceKeeps(hash, St(), model, idx);
      rehashidx := idx;
    }

    /** dictRehash: move up to n buckets, visiting at most 10n empty ones. The map is
        unchanged, the scan index never leaves the table, and every call makes progress. */
    method Rehash(n: nat) returns (more: bool)
      requires Valid()
      modifies this`ht0, this`ht1, this`rehashidx
      ensures Valid()
      ensures more <==> rehashidx != -1
      ensures old(rehashidx) == -1 ==> St() == old(St())
      ensures old(rehashidx) != -1 && n > 0 ==> rehashidx == -1 || rehashidx > old(rehashidx)
      ensures old(rehashidx) != -1 && rehashidx != -1 ==>
                && |ht0.buckets| == |old(ht0.buckets)| && |ht1.buckets| == |old(ht1.buckets)|
                && old(rehashidx) <= rehashidx <= |ht0.buckets|
                && var moved := Filled(old(ht0.buckets), old(rehashidx), rehashidx);
                   var skipped := rehashidx - old(rehashidx) - moved;
                   if skipped == 10 * n then moved <= n else moved == n && skipped < 10 * n
      ensures old(rehashidx) != -1 && rehashidx != -1 ==> forall i | rehashidx <= i < |ht0.buckets| :: ht0.buckets[i] == old(ht0.buckets)[i]
      ensures old(rehashidx) != -1 && rehashidx == -1 ==>
                && |ht0.buckets| == |old(ht1.buckets)| && old(rehashidx) <= |old(ht0.buckets)|
                && Filled(old(ht0.buckets), old(rehashidx), |old(ht0.buckets)|) <= n
      ensures old(ht0.buckets) != [] ==> ht0.buckets != []
    {
      hide Represents, Shape, Filled;
      ghost var b0, idx0 := ht0.buckets, rehashidx;
      RehashRange(hash, St(), model);
      var left := n;
      var emptyVisits := n * 10;
      if rehashidx == -1 { return false; }
      NoChains(b0, idx0);
      while left > 0 && ht0.used != 0
        invariant Valid() && 0 <= left <= n && if n == 0 then emptyVisits == 0 else emptyVisits > 0
        invariant rehashidx >= old(rehashidx) && (left < n ==> rehashidx > old(rehashidx))
        invariant |ht0.buckets| == |old(ht0.buckets)| && |ht1.buckets| == |old(ht1.buckets)|
        invariant rehashidx <= |b0| && forall i | rehashidx <= i < |b0| :: ht0.buckets[i] == b0[i]
        invariant Filled(b0, idx0, rehashidx) == n - left && rehashidx - idx0 - (n - left) == 10 * n - emptyVisits
        decreases left
      {
        left := left - 1;
        ghost var before := rehashidx;
        emptyVisits := SkipEmpty(emptyVisits);
        NoneFilled(b0, idx0, before, rehashidx);
        if emptyVisits == 0 { return true; }
        OneMoreFilled(b0, idx0, rehashidx);
        MoveBucket();
      }
      if ht0.used == 0 {
        EmptyTable(hash, St(), model);
        NoneFilled(b0, idx0, rehashidx, |b0|);
        FinishKeeps(hash, St(), model);
        ht0 := ht1;
        ht1 := Table([], 0);
        rehashidx := -1;
        return false;
      }
      return true;
    }

    /** _dictRehashStep: rehash one bucket unless a safe iterator is running. */
    method RehashStep()
      requires Valid()
      modifies this`ht0, this`ht1, this`rehashidx
      ensures Valid()
      ensures iterators > 0 || old(rehashidx) == -1 ==> St() == old(St())
      ensures iterators == 0 && old(rehashidx) != -1 && rehashidx != -1 ==>
                && old(rehashidx) < rehashidx <= |old(ht0.buckets)|
                && var moved := Filled(old(ht0.buckets), old(rehashidx), rehashidx);
                   moved == 1 || (moved == 0 && rehashidx == old(rehashidx) + 10)
      ensures iterators == 0 && old(rehashidx) != -1 && rehashidx == -1 ==>
                old(rehashidx) <= |old(ht0.buckets)| && Filled(old(ht0.buckets), old(rehashidx), |old(ht0.buckets)|) <= 1
      ensures old(ht0.buckets) != [] ==> ht0.buckets != []
    {
      hide Represents, Shape, Filled;
      if iterators == 0 {
        var _ := Rehash(1);
      }
    }

    /** _dictExpandIfNeeded: allocate the first table, or start doubling once the load is
        too high. It never fails. */
    method ExpandIfNeeded() returns (ok: bool, ghost n: nat)
      requires Valid() && 2 * |model| <= Pow2(MAX_SIZE_BITS)
      modifies this`ht0, this`ht1, this`rehashidx
      ensures Valid() && ok && ht0.buckets != []
      ensures MaybeInstalled(old(St()), St())
      ensures var size := |old(ht0.buckets)|;
              if old(rehashidx) == -1 && (size == 0 || (old(ht0.used) >= size && (canResize || old(ht0.used) / size > 5)))
              then St() == Install(old(St()), n) && IsNextPower(if size == 0 then 4 else old(ht0.used) * 2, n)
              else St() == old(St())
    {
      hide Represents, Log2, Pow2;
      n := 0;
      UsedBound(hash, St(), model);
      if rehashidx != -1 { return true, n; }
      if |ht0.buckets| == 0 {
        InitialFits();
        ok, n := Expand(INITIAL_SIZE);
        return;
      }
      if ht0.used >= |ht0.buckets| && (canResize || ht0.used / |ht0.buckets| > FORCE_RESIZE_RATIO) {
        ok, n := Expand(ht0.used * 2);
        return;
      }
      return true, n;
    }

    /** _dictKeyIndex: the bucket where the key should be linked, or -1 if it exists. */
    method KeyIndex(key: K) returns (index: int)
      requires Valid() && 2 * |model| <= Pow2(MAX_SIZE_BITS)
      modifies this`ht0, this`ht1, this`rehashidx
      ensures Valid() && ht0.buckets != []
      ensures MaybeInstalled(old(St()), St())
      ensures index == -1 <==> key in model
      ensures index != -1 ==> index == Index(hash(key), |(if rehashidx != -1 then ht1 else ht0).buckets|)
    {
      var ok, _ := ExpandIfNeeded();
      if !ok { return -1; }
      var i, j := Locate(hash, ht0, key);
      assert Lookup(hash, St(), key) == if key in model then Some(model[key]) else None;
      if j != -1 { return -1; }
      index := i;
      if rehashidx == -1 { return; }
      i, j := Locate(hash, ht1, key);
      if j != -1 { return -1; }
      index := i;
    }

    /** dictAdd: add an absent key; refuse a present one. */
    method Add(key: K, val: V) returns (ok: bool, ghost mid: State<K, V>)
      requires Valid() && 2 * |model| <= Pow2(MAX_SIZE_BITS)
      modifies this`ht0, this`ht1, this`rehashidx, this`model
      ensures Valid()
      ensures ok <==> key !in old(model)
      ensures model == if ok then old(model)[key := val] else old(model)
      ensures ht0.buckets != []
      ensures iterators > 0 ==>
                && MaybeInstalled(old(St()), mid) && mid.ht0.buckets != []
                && (mid.rehashidx != -1 ==> mid.ht1.buckets != [])
                && St() == if ok then Link(hash, mid, Entry(key, val)) else mid
    {
      hide Represents, MaybeInstalled, TableValid, Shape, Index, Pow2;
      if rehashidx != -1 { RehashStep(); }
      var index := KeyIndex(key);
      TwoTables(hash, St(), model);
      mid := St();
      if index == -1 { return false, mid; }
      LinkKeeps(hash, St(), model, Entry(key, val));
      var entry := Entry(key, val);
      if rehashidx != -1 {
        ht1 := Table(ht1.buckets[index := [entry] + ht1.buckets[index]], ht1.used + 1);
      } else {
        ht0 := Table(ht0.buckets[index := [entry] + ht0.buckets[index]], ht0.used + 1);
      }
      model := model[key := val];
      assert St() == Link(hash, mid, entry);
      return true, mid;
    }

    /** The search shared by dictFind and dictGenericDelete: the table and position of a
        key, or j == -1. */
    method Search(key: K) returns (second: bool, i: nat, j: int)
      requires Valid() && ht0.buckets != []
      ensures -1 <= j
      ensures j == -1 <==> key !in model
      ensures j != -1 ==>
                && (second ==> rehashidx != -1)
                && i < |Side(St(), second).buckets| && j < |Side(St(), second).buckets[i]|
                && Side(St(), second).buckets[i][j].key == key
                && model[key] == Side(St(), second).buckets[i][j].val
    {
      second := false;
      i, j := Locate(hash, ht0, key);
      assert Lookup(hash, St(), key) == if key in model then Some(model[key]) else None;
      if j != -1 || rehashidx == -1 { return; }
      second := true;
      i, j := Locate(hash, ht1, key);
    }

    /** dictFind and dictFetchValue. */
    method Find(key: K) returns (r: Option<V>)
      requires Valid()
      modifies this`ht0, this`ht1, this`rehashidx
      ensures Valid()
      ensures r == if key in model then Some(model[key]) else None
      ensures iterators > 0 ==> St() == old(St())
    {
      hide Represents;
      if |ht0.buckets| == 0 {
        EmptyTables(hash, St(), model);
        return None;
      }
      if rehashidx != -1 { RehashStep(); }
      var second, i, j := Search(key);
      if j == -1 { return None; }
      return Some((if second then ht1 else ht0).buckets[i][j].val);
    }

    /** dictReplace: set the value whether or not the key exists; true if it was added. */
    method Replace(key: K, val: V) returns (added: bool, ghost mid: State<K, V>, ghost second: bool, ghost i: nat, ghost j: nat)
      requires Valid() && 2 * |model| <= Pow2(MAX_SIZE_BITS)
      modifies this`ht0, this`ht1, this`rehashidx, this`model
      ensures Valid()
      ensures model == old(model)[key := val]
      ensures added <==> key !in old(model)
      ensures iterators > 0 ==>
                && MaybeInstalled(old(St()), mid) && mid.ht0.buckets != []
                && (mid.rehashidx != -1 ==> mid.ht1.buckets != [])
                && (added ==> St() == Link(hash, mid, Entry(key, val)))
      ensures iterators > 0 && !added ==>
                && i < |Side(mid, second).buckets| && j < |Side(mid, second).buckets[i]|
                && Side(mid, second).buckets[i][j].key == key
                && St() == WithSide(mid, second, SetVal(Side(mid, second), i, j, val))
    {
      hide Represents, MaybeInstalled, Pow2, Shape, TableValid;
      second, i, j := false, 0, 0;
      added, mid := Add(key, val);
      if added { return; }
      if rehashidx != -1 { RehashStep(); }
      var inSecond, b, p := Search(key);
      SetValKeeps(hash, St(), model, inSecond, b, p, val);
      second, i, j := inSecond, b, p;
      if inSecond {
        ht1 := SetVal(ht1, b, p, val);
      } else {
        ht0 := SetVal(ht0, b, p, val);
      }
      model := model[key := val];
    }

    /** dictDelete: unlink the key's entry; false if there is none. */
    method Delete(key: K) returns (ok: bool, ghost second: bool, ghost i: nat, ghost j: nat)
      requires Valid()
      modifies this`ht0, this`ht1, this`rehashidx, this`model
      ensures Valid()
      ensures ok <==> key in old(model)
      ensures model == old(model) - {key}
      ensures iterators > 0 && !ok ==> St() == old(St())
      ensures iterators > 0 && ok ==>
                && i < |Side(old(St()), second).buckets| && j < |Side(old(St()), second).buckets[i]|
                && Side(old(St()), second).buckets[i][j].key == key
                && Side(old(St()), second).used > 0
                && St() == WithSide(old(St()), second, Unlink(Side(old(St()), second), i, j))
    {
      hide Represents, Shape, TableValid, Unlink;
      i, j := 0, 0;
      second := false;
      if |ht0.buckets| == 0 {
        EmptyTables(hash, St(), model);
        return false, second, i, j;
      }
      if rehashidx != -1 { RehashStep(); }
      var inSecond, b, p := Search(key);
      if p == -1 { return false, second, i, j; }
      second, i, j := inSecond, b, p;
      ShapeOf(hash, St(), model);
      UsedPositive(hash, Side(St(), inSecond), b);
      UnlinkKeeps(hash, St(), model, inSecond, b, p);
      if inSecond {
        ht1 := Unlink(ht1, b, p);
      } else {
        ht0 := Unlink(ht0, b, p);
      }
      model := model - {key};
      return true, second, i, j;
    }
  }
}
