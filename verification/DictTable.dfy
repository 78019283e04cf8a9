/** The two-table state of a dictionary (dict.h) as a value, what it means for it to be
    well formed, and how one bucket edit changes what a lookup sees. */
module DictTable {
  import opened Basics
  import opened Words

  datatype Entry<K, V> = Entry(key: K, val: V)

  /** A collision chain, head first. */
  type Chain<K, V> = seq<Entry<K, V>>

  /** dictht: size is |buckets| and sizemask is size-1. */
  datatype Table<K, V> = Table(buckets: seq<Chain<K, V>>, used: nat)

  /** The part of dict that lookups depend on; rehashidx is -1 when not rehashing. */
  datatype State<K, V> = State(ht0: Table<K, V>, ht1: Table<K, V>, rehashidx: int)

  /** Tables stay within the range of the int that _dictKeyIndex returns. */
  const MAX_SIZE_BITS: nat := 31

  /** h & sizemask */
  function Index(h: nat, size: nat): (i: nat)
    requires size > 0
    ensures i < size
  {
    AndLe(h, size - 1);
    And(h, size - 1)
  }

  function FindIn<K(==), V>(c: Chain<K, V>, key: K): Option<V> {
    if c == [] then None
    else if c[0].key == key then Some(c[0].val)
    else FindIn(c[1..], key)
  }

  function Get<K(==), V>(hash: K -> nat, t: Table<K, V>, key: K): Option<V> {
    if t.buckets == [] then None
    else FindIn(t.buckets[Index(hash(key), |t.buckets|)], key)
  }

  function Lookup<K(==), V>(hash: K -> nat, s: State<K, V>, key: K): Option<V> {
    match Get(hash, s.ht0, key)
    case Some(v) => Some(v)
    case None => Get(hash, s.ht1, key)
  }

  function Total<K, V>(bs: seq<Chain<K, V>>): nat {
    if bs == [] then 0 else |bs[0]| + Total(bs[1..])
  }

  ghost predicate NoDuplicates<K, V>(c: Chain<K, V>) {
    forall i, j | 0 <= i < j < |c| :: c[i].key != c[j].key
  }

  ghost predicate Placed<K, V>(hash: K -> nat, bs: seq<Chain<K, V>>) {
    forall i, j | 0 <= i < |bs| && 0 <= j < |bs[i]| :: Index(hash(bs[i][j].key), |bs|) == i
  }

  ghost predicate TableValid<K, V>(hash: K -> nat, t: Table<K, V>) {
    || t == Table([], 0)
    || (&& IsPow2(|t.buckets|) && Log2(|t.buckets|) <= MAX_SIZE_BITS
        && Placed(hash, t.buckets)
        && (forall i | 0 <= i < |t.buckets| :: NoDuplicates(t.buckets[i]))
        && t.used == Total(t.buckets))
  }

  /** The second table exists exactly while rehashing, has another size, and the buckets
      of the first table below rehashidx have been emptied. */
  ghost predicate Shape<K, V>(s: State<K, V>) {
    && (s.rehashidx == -1 ==> s.ht1 == Table([], 0))
    && (s.rehashidx != -1 ==>
          && 0 <= s.rehashidx <= |s.ht0.buckets|
          && s.ht0.buckets != [] && s.ht1.buckets != []
          && |s.ht0.buckets| != |s.ht1.buckets|
          && forall i | 0 <= i < s.rehashidx :: s.ht0.buckets[i] == [])
  }

  ghost predicate Disjoint<K(!new), V>(hash: K -> nat, s: State<K, V>) {
    forall k :: Get(hash, s.ht0, k).Some? ==> Get(hash, s.ht1, k).None?
  }

  ghost predicate Models<K(!new), V>(hash: K -> nat, s: State<K, V>, m: map<K, V>) {
    forall k :: Lookup(hash, s, k) == if k in m then Some(m[k]) else None
  }

  /** The two tables together represent the map m. */
  ghost predicate Represents<K(!new), V>(hash: K -> nat, s: State<K, V>, m: map<K, V>) {
    && TableValid(hash, s.ht0) && TableValid(hash, s.ht1)
    && Shape(s) && Disjoint(hash, s) && Models(hash, s, m)
    && s.ht0.used + s.ht1.used == |m|
  }

  /** Changing what the tables hold for one key only. */
  lemma EditKeeps<K(!new), V>(hash: K -> nat, s: State<K, V>, s': State<K, V>, m: map<K, V>, m': map<K, V>, key: K)
    requires Disjoint(hash, s) && Models(hash, s, m)
    requires forall k | k != key :: Get(hash, s'.ht0, k) == Get(hash, s.ht0, k)
    requires forall k | k != key :: Get(hash, s'.ht1, k) == Get(hash, s.ht1, k)
    requires Get(hash, s'.ht0, key).Some? ==> Get(hash, s'.ht1, key).None?
    requires Lookup(hash, s', key) == if key in m' then Some(m'[key]) else None
    requires forall k | k != key :: k in m' <==> k in m
    requires forall k | k != key && k in m :: m'[k] == m[k]
    ensures Disjoint(hash, s') && Models(hash, s', m')
  {
    forall k ensures Lookup(hash, s', k) == if k in m' then Some(m'[k]) else None {
      if k != key { assert Lookup(hash, s', k) == Lookup(hash, s, k); }
    }
  }

  /** Moving the entries of a chain c from the first table to the second. */
  lemma MoveKeeps<K(!new), V>(hash: K -> nat, s: State<K, V>, s': State<K, V>, m: map<K, V>, c: Chain<K, V>)
    requires Disjoint(hash, s) && Models(hash, s, m)
    requires forall k :: FindIn(c, k).Some? ==> Get(hash, s.ht0, k) == FindIn(c, k)
    requires forall k :: Get(hash, s'.ht0, k) == if FindIn(c, k).Some? then None else Get(hash, s.ht0, k)
    requires forall k :: Get(hash, s'.ht1, k) == if FindIn(c, k).Some? then FindIn(c, k) else Get(hash, s.ht1, k)
    ensures Disjoint(hash, s') && Models(hash, s', m)
  {
    forall k ensures Lookup(hash, s', k) == Lookup(hash, s, k) {
    }
  }

  // ---- chains -------------------------------------------------------------------

  lemma {:induction false} FindInAt<K, V>(c: Chain<K, V>, j: nat)
    requires j < |c| && NoDuplicates(c)
    ensures FindIn(c, c[j].key) == Some(c[j].val)
  {
    if j != 0 {
      assert c[1..][j - 1] == c[j];
      FindInAt(c[1..], j - 1);
    }
  }

  lemma {:induction false} FindInSome<K, V>(c: Chain<K, V>, key: K) returns (j: nat)
    requires FindIn(c, key).Some?
    ensures j < |c| && c[j].key == key && FindIn(c, key) == Some(c[j].val)
  {
    if c[0].key == key {
      j := 0;
    } else {
      var j' := FindInSome(c[1..], key);
      j := j' + 1;
    }
  }

  lemma FindInNone<K, V>(c: Chain<K, V>, key: K)
    requires FindIn(c, key).None?
    ensures forall j | 0 <= j < |c| :: c[j].key != key
  {
    if c != [] {
      FindInNone(c[1..], key);
      forall j | 0 <= j < |c| ensures c[j].key != key {
        if j > 0 { assert c[j] == c[1..][j - 1]; }
      }
    }
  }

  lemma {:induction false} FindInAbsent<K, V>(c: Chain<K, V>, key: K)
    requires forall j | 0 <= j < |c| :: c[j].key != key
    ensures FindIn(c, key).None?
  {
    if c != [] {
      assert forall j | 0 <= j < |c[1..]| :: c[1..][j] == c[j + 1];
      FindInAbsent(c[1..], key);
    }
  }

  lemma {:induction false} FindInAppend<K, V>(a: Chain<K, V>, b: Chain<K, V>, key: K)
    ensures FindIn(a + b, key) == if FindIn(a, key).Some? then FindIn(a, key) else FindIn(b, key)
  {
    if a == [] {
      assert a + b == b;
    } else {
      assert (a + b)[1..] == a[1..] + b;
      FindInAppend(a[1..], b, key);
    }
  }

  lemma {:induction false} FindInMiddle<K, V>(a: Chain<K, V>, e: Entry<K, V>, b: Chain<K, V>, key: K)
    requires NoDuplicates(a + [e] + b)
    ensures FindIn(a + [e] + b, key) == if key == e.key then Some(e.val) else FindIn(a + b, key)
    ensures FindIn(a + b, e.key).None?
  {
    var c := a + [e] + b;
    assert c[|a|] == e;
    FindInAt(c, |a|);
    FindInAppend(a + [e], b, key);
    FindInAppend(a, [e], key);
    FindInAppend(a, b, key);
    forall j | 0 <= j < |a + b| ensures (a + b)[j].key != e.key {
      assert (a + b)[j] == if j < |a| then c[j] else c[j + 1];
    }
    FindInAbsent(a + b, e.key);
  }

  // ---- bucket totals ----------------------------------------------------------------

  lemma {:induction false} TotalUpdate<K, V>(bs: seq<Chain<K, V>>, i: nat, c: Chain<K, V>)
    requires i < |bs|
    ensures Total(bs[i := c]) == Total(bs) - |bs[i]| + |c|
  {
    if i == 0 {
      assert bs[i := c][1..] == bs[1..];
    } else {
      assert bs[i := c][1..] == bs[1..][i - 1 := c];
      TotalUpdate(bs[1..], i - 1, c);
    }
  }

  lemma {:induction false} TotalOfEmpty<K, V>(bs: seq<Chain<K, V>>)
    ensures Total(bs) == 0 <==> forall i | 0 <= i < |bs| :: bs[i] == []
  {
    if bs != [] {
      TotalOfEmpty(bs[1..]);
      assert forall i | 0 < i < |bs| :: bs[i] == bs[1..][i - 1];
      if Total(bs) == 0 {
        assert forall i | 0 <= i < |bs| :: i == 0 || bs[i] == bs[1..][i - 1];
      }
    }
  }

  lemma IndexIsLow(h: nat, size: nat)
    requires IsPow2(size)
    ensures size > 0 && Index(h, size) == Low(h, Log2(size))
  {
    AndMask(h, Log2(size));
  }

  // ---- bucket edits -------------------------------------------------------------------

  /** Link a new entry at the head of its bucket. */
  function Insert<K, V>(hash: K -> nat, t: Table<K, V>, e: Entry<K, V>): Table<K, V>
    requires t.buckets != []
  {
    var i := Index(hash(e.key), |t.buckets|);
    Table(t.buckets[i := [e] + t.buckets[i]], t.used + 1)
  }

  lemma FindInPush<K, V>(e: Entry<K, V>, c: Chain<K, V>, key: K)
    ensures FindIn([e] + c, key) == if e.key == key then Some(e.val) else FindIn(c, key)
  {
    assert ([e] + c)[1..] == c;
  }

  lemma InsertMeaning<K, V>(hash: K -> nat, t: Table<K, V>, e: Entry<K, V>)
    requires TableValid(hash, t) && t.buckets != [] && Get(hash, t, e.key).None?
    ensures TableValid(hash, Insert(hash, t, e))
    ensures forall k :: Get(hash, Insert(hash, t, e), k)
                     == if k == e.key then Some(e.val) else Get(hash, t, k)
  {
    var i := Index(hash(e.key), |t.buckets|);
    var c := t.buckets[i];
    var t' := Insert(hash, t, e);
    FindInNone(c, e.key);
    TotalUpdate(t.buckets, i, [e] + c);
    forall k ensures Get(hash, t', k) == if k == e.key then Some(e.val) else Get(hash, t, k) {
      FindInPush(e, c, k);
    }
    forall b | 0 <= b < |t'.buckets| ensures NoDuplicates(t'.buckets[b]) {
      assert b != i ==> t'.buckets[b] == t.buckets[b];
    }
  }

  /** Unlink the entry at position j of bucket i. */
  function Unlink<K, V>(t: Table<K, V>, i: nat, j: nat): Table<K, V>
    requires i < |t.buckets| && j < |t.buckets[i]| && t.used > 0
  {
    var c := t.buckets[i];
    Table(t.buckets[i := c[..j] + c[j + 1..]], t.used - 1)
  }

  lemma UsedPositive<K, V>(hash: K -> nat, t: Table<K, V>, i: nat)
    requires TableValid(hash, t) && i < |t.buckets| && t.buckets[i] != []
    ensures t.used > 0
  {
    TotalOfEmpty(t.buckets);
  }

  lemma UnlinkMeaning<K, V>(hash: K -> nat, t: Table<K, V>, i: nat, j: nat)
    requires TableValid(hash, t) && i < |t.buckets| && j < |t.buckets[i]| && t.used > 0
    ensures TableValid(hash, Unlink(t, i, j))
    ensures forall k :: Get(hash, Unlink(t, i, j), k)
                     == if k == t.buckets[i][j].key then None else Get(hash, t, k)
  {
    var c := t.buckets[i];
    var e := c[j];
    var t' := Unlink(t, i, j);
    assert c == c[..j] + [e] + c[j + 1..];
    TotalUpdate(t.buckets, i, c[..j] + c[j + 1..]);
    assert Index(hash(e.key), |t.buckets|) == i;
    forall k ensures Get(hash, t', k) == if k == e.key then None else Get(hash, t, k) {
      FindInMiddle(c[..j], e, c[j + 1..], k);
    }
    forall b | 0 <= b < |t'.buckets| ensures NoDuplicates(t'.buckets[b]) {
      assert b != i ==> t'.buckets[b] == t.buckets[b];
    }
    assert Placed(hash, t'.buckets) by {
      forall b, x | 0 <= b < |t'.buckets| && 0 <= x < |t'.buckets[b]|
        ensures Index(hash(t'.buckets[b][x].key), |t'.buckets|) == b
      {
        if b == i {
          assert t'.buckets[b][x] == if x < j then c[x] else c[x + 1];
        } else {
          assert t'.buckets[b] == t.buckets[b];
        }
      }
    }
  }

  /** Overwrite the value of the entry at position j of bucket i. */
  function SetVal<K, V>(t: Table<K, V>, i: nat, j: nat, v: V): Table<K, V>
    requires i < |t.buckets| && j < |t.buckets[i]|
  {
    var c := t.buckets[i];
    t.(buckets := t.buckets[i := c[j := c[j].(val := v)]])
  }

  lemma SetValMeaning<K, V>(hash: K -> nat, t: Table<K, V>, i: nat, j: nat, v: V)
    requires TableValid(hash, t) && i < |t.buckets| && j < |t.buckets[i]|
    ensures TableValid(hash, SetVal(t, i, j, v))
    ensures forall k :: Get(hash, SetVal(t, i, j, v), k)
                     == if k == t.buckets[i][j].key then Some(v) else Get(hash, t, k)
  {
    var c := t.buckets[i];
    var e := c[j];
    var c' := c[j := e.(val := v)];
    var t' := SetVal(t, i, j, v);
    assert c == c[..j] + [e] + c[j + 1..];
    assert c' == c[..j] + [e.(val := v)] + c[j + 1..];
    assert NoDuplicates(c');
    TotalUpdate(t.buckets, i, c');
    assert Index(hash(e.key), |t.buckets|) == i;
    forall k ensures Get(hash, t', k) == if k == e.key then Some(v) else Get(hash, t, k) {
      FindInMiddle(c[..j], e, c[j + 1..], k);
      FindInMiddle(c[..j], e.(val := v), c[j + 1..], k);
    }
    forall b | 0 <= b < |t'.buckets| ensures NoDuplicates(t'.buckets[b]) {
      assert b != i ==> t'.buckets[b] == t.buckets[b];
    }
    assert Placed(hash, t'.buckets) by {
      forall b, x | 0 <= b < |t'.buckets| && 0 <= x < |t'.buckets[b]|
        ensures Index(hash(t'.buckets[b][x].key), |t'.buckets|) == b
      {
        assert t'.buckets[b][x].key == t.buckets[b][x].key;
      }
    }
  }

  /** Move every entry of a chain, head first, into another table. */
  function MoveChain<K, V>(hash: K -> nat, c: Chain<K, V>, t: Table<K, V>): (r: Table<K, V>)
    requires t.buckets != []
    ensures r.used == t.used + |c| && |r.buckets| == |t.buckets|
    decreases |c|
  {
    if c == [] then t else MoveChain(hash, c[1..], Insert(hash, t, c[0]))
  }

  lemma {:induction false} MoveChainMeaning<K(!new), V>(hash: K -> nat, c: Chain<K, V>, t: Table<K, V>)
    requires TableValid(hash, t) && t.buckets != [] && NoDuplicates(c)
    requires forall j | 0 <= j < |c| :: Get(hash, t, c[j].key).None?
    ensures TableValid(hash, MoveChain(hash, c, t))
    ensures forall k :: Get(hash, MoveChain(hash, c, t), k)
                     == if FindIn(c, k).Some? then FindIn(c, k) else Get(hash, t, k)
    decreases |c|
  {
    if c != [] {
      InsertMeaning(hash, t, c[0]);
      var t' := Insert(hash, t, c[0]);
      forall j | 0 <= j < |c[1..]| ensures Get(hash, t', c[1..][j].key).None? {
        assert c[1..][j] == c[j + 1];
      }
      MoveChainMeaning(hash, c[1..], t');
      FindInAt(c, 0);
      assert forall j | 0 <= j < |c[1..]| :: c[1..][j] == c[j + 1];
      FindInAbsent(c[1..], c[0].key);
    }
  }

  /** Empty one bucket, as done once its entries have been moved. */
  function ClearBucket<K, V>(t: Table<K, V>, i: nat): Table<K, V>
    requires i < |t.buckets| && t.used >= |t.buckets[i]|
  {
    Table(t.buckets[i := []], t.used - |t.buckets[i]|)
  }

  lemma ClearBucketMeaning<K(!new), V>(hash: K -> nat, t: Table<K, V>, i: nat)
    requires TableValid(hash, t) && i < |t.buckets|
    ensures t.used >= |t.buckets[i]|
    ensures TableValid(hash, ClearBucket(t, i))
    ensures forall k :: Get(hash, ClearBucket(t, i), k)
                     == if FindIn(t.buckets[i], k).Some? then None else Get(hash, t, k)
  {
    TotalUpdate(t.buckets, i, []);
    var t' := ClearBucket(t, i);
    forall k ensures Get(hash, t', k) == if FindIn(t.buckets[i], k).Some? then None else Get(hash, t, k) {
      if FindIn(t.buckets[i], k).Some? {
        var j := FindInSome(t.buckets[i], k);
        assert Index(hash(t.buckets[i][j].key), |t.buckets|) == i;
      }
    }
    forall b | 0 <= b < |t'.buckets| ensures NoDuplicates(t'.buckets[b]) {
      assert b != i ==> t'.buckets[b] == t.buckets[b];
    }
  }
}
