/** The keyspace (db.c): every database is a dictionary of values and one of expire times; in
    cluster mode the keys of database 0 are also indexed by hash slot. */
module Keyspace {
  import opened Basics
  import opened SlotIndex

  datatype Db<V> = Db(dict: map<Key, V>, expires: map<Key, int>)

  /** Only existing keys have an expire time. */
  ghost predicate ExpiresOk<V>(dbs: seq<Db<V>>) {
    forall n | 0 <= n < |dbs| :: dbs[n].expires.Keys <= dbs[n].dict.Keys
  }

  ghost function SlotItems(slot: Key -> nat, keys: set<Key>): set<Item> {
    set k | k in keys :: Item(slot(k), k)
  }

  /** The index holds each key once, under its slot. */
  ghost predicate IndexOk(slot: Key -> nat, keys: set<Key>, index: seq<Item>) {
    Sorted(index) && Items(index) == SlotItems(slot, keys)
  }

  ghost function KeysInSlot(slot: Key -> nat, keys: set<Key>, n: nat): set<Key> {
    set k | k in keys && slot(k) == n
  }

  /** What time and role say about expiry: the clock, loading, and whether a master decides. */
  datatype Clock = Clock(now: int, loading: bool, slave: bool)

  /** The key is due and this instance deletes it. */
  predicate Expires<V>(db: Db<V>, key: Key, c: Clock) {
    key in db.expires && db.expires[key] >= 0 && !c.loading && !c.slave && c.now > db.expires[key]
  }

  function Without<V>(db: Db<V>, key: Key): Db<V> {
    Db(db.dict - {key}, db.expires - {key})
  }

  /** A database after looking at a key. */
  function Looked<V>(db: Db<V>, key: Key, c: Clock): Db<V> {
    if Expires(db, key, c) then Without(db, key) else db
  }

  datatype RenameReply = SameObject | NoKey | Zero | Renamed

  /** The database after renaming src, which carries its value and its expire time along. */
  function RenamedDb<V>(db: Db<V>, src: Key, dst: Key): Db<V>
    requires src in db.dict
  {
    var rest := Without(Without(db, dst), src);
    Db(rest.dict[dst := db.dict[src]],
       if src in db.expires && db.expires[src] != -1 then rest.expires[dst := db.expires[src]] else rest.expires)
  }

  class Keyspace<V> {
    const cluster: bool
    /** keyHashSlot */
    const slot: Key -> nat
    var dbs: seq<Db<V>>
    var index: seq<Item>

    /** In cluster mode there is only database 0. */
    ghost predicate Valid()
      reads this
    {
      && dbs != [] && ExpiresOk(dbs)
      && (cluster ==> IndexOk(slot, dbs[0].dict.Keys, index) && forall n | 1 <= n < |dbs| :: dbs[n].dict == map[])
    }

    ghost predicate Usable(n: nat)
      reads this
    {
      n < |dbs| && (cluster ==> n == 0)
    }

    constructor (cluster: bool, slot: Key -> nat, dbnum: nat)
      requires dbnum > 0
      ensures Valid() && this.cluster == cluster && this.slot == slot && index == []
      ensures dbs == seq(dbnum, _ => Db(map[], map[]))
    {
      this.cluster, this.slot := cluster, slot;
      dbs, index := seq(dbnum, _ => Db(map[], map[])), [];
    }

    /** dbAdd; an existing key aborts the program. */
    method Add(n: nat, key: Key, val: V)
      requires Valid() && Usable(n) && key !in dbs[n].dict
      modifies this`dbs, this`index
      ensures Valid() && dbs == old(dbs)[n := Db(old(dbs[n].dict)[key := val], old(dbs[n].expires))]
    {
      hide Insert;
      ghost var keys := dbs[n].dict.Keys;
      dbs := dbs[n := Db(dbs[n].dict[key := val], dbs[n].expires)];
      if cluster {
        AddedItem(slot, keys, key);
        InsertMeaning(index, Item(slot(key), key));
        index := Insert(index, Item(slot(key), key));
        assert dbs[0].dict.Keys == keys + {key};
      }
    }

    /** dbOverwrite */
    method Overwrite(n: nat, key: Key, val: V)
      requires Valid() && Usable(n) && key in dbs[n].dict
      modifies this`dbs
      ensures Valid() && dbs == old(dbs)[n := Db(old(dbs[n].dict)[key := val], old(dbs[n].expires))]
    {
      ghost var keys := dbs[n].dict.Keys;
      dbs := dbs[n := Db(dbs[n].dict[key := val], dbs[n].expires)];
      assert dbs[n].dict.Keys == keys;
    }

    /** dbDelete */
    method Delete(n: nat, key: Key) returns (deleted: bool)
      requires Valid() && Usable(n)
      modifies this`dbs, this`index
      ensures Valid() && dbs == old(dbs)[n := Db(old(dbs[n].dict) - {key}, old(dbs[n].expires) - {key})]
      ensures deleted == (key in old(dbs[n].dict))
      ensures index == if cluster && deleted then Remove(old(index), Item(slot(key), key)) else old(index)
    {
      hide Remove, Insert, Sorted, SlotItems, Items;
      ghost var keys := dbs[n].dict.Keys;
      deleted := key in dbs[n].dict;
      ghost var was := dbs[n];
      if |dbs[n].expires| > 0 { dbs := dbs[n := dbs[n].(expires := dbs[n].expires - {key})]; }
      assert dbs[n].expires == was.expires - {key};
      if deleted {
        dbs := dbs[n := dbs[n].(dict := dbs[n].dict - {key})];
        if cluster {
          RemovedItem(slot, keys, key);
          RemoveMeaning(index, Item(slot(key), key));
          index := Remove(index, Item(slot(key), key));
          assert dbs[0].dict.Keys == keys - {key};
        }
      }
      assert dbs[n].dict == was.dict - {key};
      assert dbs == old(dbs)[n := Without(was, key)];
    }

    /** getExpire: -1 when the key has no expire time. */
    method GetExpire(n: nat, key: Key) returns (expire: int)
      requires Valid() && Usable(n)
      ensures expire == if key in dbs[n].expires then dbs[n].expires[key] else -1
      ensures expire != -1 ==> key in dbs[n].dict
    {
      if |dbs[n].expires| == 0 || key !in dbs[n].expires { return -1; }
      assert key in dbs[n].dict;
      return dbs[n].expires[key];
    }

    /** setExpire */
    method SetExpire(n: nat, key: Key, expire: int)
      requires Valid() && Usable(n) && key in dbs[n].dict
      modifies this`dbs
      ensures Valid() && dbs == old(dbs)[n := Db(old(dbs[n].dict), old(dbs[n].expires)[key := expire])]
    {
      dbs := dbs[n := Db(dbs[n].dict, dbs[n].expires[key := expire])];
    }

    /** removeExpire */
    method RemoveExpire(n: nat, key: Key) returns (removed: bool)
      requires Valid() && Usable(n) && key in dbs[n].dict
      modifies this`dbs
      ensures Valid() && dbs == old(dbs)[n := Db(old(dbs[n].dict), old(dbs[n].expires) - {key})]
      ensures removed == (key in old(dbs[n].expires))
    {
      removed := key in dbs[n].expires;
      dbs := dbs[n := Db(dbs[n].dict, dbs[n].expires - {key})];
    }

    /** expireIfNeeded */
    method ExpireIfNeeded(n: nat, key: Key, c: Clock) returns (expired: bool)
      requires Valid() && Usable(n)
      modifies this`dbs, this`index
      ensures Valid() && dbs == old(dbs)[n := Looked(old(dbs[n]), key, c)]
      ensures expired <==> !c.loading && key in old(dbs[n].expires) && 0 <= old(dbs[n].expires)[key] < c.now
      ensures expired && !c.slave ==> dbs == old(dbs)[n := Db(old(dbs[n].dict) - {key}, old(dbs[n].expires) - {key})]
      ensures !expired || c.slave ==> dbs == old(dbs)
    {
      assert dbs == dbs[n := dbs[n]];
      var expire := GetExpire(n, key);
      if expire < 0 { return false; }
      if c.loading { return false; }
      if c.slave { return c.now > expire; }
      if c.now <= expire { return false; }
      expired := Delete(n, key);
    }

    /** lookupKeyWrite */
    method LookupKeyWrite(n: nat, key: Key, c: Clock) returns (r: Option<V>)
      requires Valid() && Usable(n)
      modifies this`dbs, this`index
      ensures Valid() && dbs == old(dbs)[n := Looked(old(dbs[n]), key, c)]
      ensures r == if key in dbs[n].dict then Some(dbs[n].dict[key]) else None
    {
      var _ := ExpireIfNeeded(n, key, c);
      return if key in dbs[n].dict then Some(dbs[n].dict[key]) else None;
    }

    /** setKey: whether or not the key existed, or was due, it now has the value and no expire time. */
    method SetKey(n: nat, key: Key, val: V, c: Clock)
      requires Valid() && Usable(n)
      modifies this`dbs, this`index
      ensures Valid() && dbs == old(dbs)[n := Db(old(dbs[n].dict)[key := val], old(dbs[n].expires) - {key})]
    {
      hide IndexOk;
      ghost var was := dbs[n];
      var found := LookupKeyWrite(n, key, c);
      if found.None? {
        Add(n, key, val);
      } else {
        Overwrite(n, key, val);
      }
      var _ := RemoveExpire(n, key);
      assert dbs[n] == Db(was.dict[key := val], was.expires - {key});
    }

    /** emptyDb */
    method EmptyDb() returns (removed: nat)
      requires Valid()
      modifies this`dbs, this`index
      ensures Valid() && |dbs| == |old(dbs)| && forall n | 0 <= n < |dbs| :: dbs[n] == Db(map[], map[])
      ensures removed == |KeyPairs(old(dbs))|
    {
      removed := 0;
      TotalKeysCount(dbs);
      var was := dbs;
      assert was[..|was|] == was;
      for j := 0 to |was|
        invariant |dbs| == |was| && removed == TotalKeys(was[..j])
        invariant forall n | 0 <= n < j :: dbs[n] == Db(map[], map[])
        invariant forall n | j <= n < |was| :: dbs[n] == was[n]
      {
        assert was[..j + 1][..j] == was[..j];
        removed := removed + |dbs[j].dict|;
        dbs := dbs[j := Db(map[], map[])];
      }
      if cluster { index := []; }
    }

    /** renameGenericCommand */
    method Rename(n: nat, src: Key, dst: Key, nx: bool, c: Clock) returns (reply: RenameReply)
      requires Valid() && Usable(n)
      modifies this`dbs, this`index
      ensures Valid()
      ensures reply.SameObject? <==> src == dst
      ensures reply.SameObject? ==> dbs == old(dbs)
      ensures reply.NoKey? <==> src != dst && src !in Looked(old(dbs[n]), src, c).dict
      ensures reply.NoKey? ==> dbs == old(dbs)[n := Looked(old(dbs[n]), src, c)]
      ensures reply.NoKey? <==>
                src != dst && (src in old(dbs[n].dict) ==>
                                 !c.loading && !c.slave && src in old(dbs[n].expires) && 0 <= old(dbs[n].expires)[src] < c.now)
      ensures reply.Renamed? ==>
                var was := old(dbs[n]);
                && src in was.dict
                && dbs == old(dbs)[n := Db((was.dict - {src})[dst := was.dict[src]],
                                           if src in was.expires && was.expires[src] != -1
                                           then (was.expires - {src, dst})[dst := was.expires[src]] else was.expires - {src, dst})]
      ensures !reply.SameObject? && !reply.NoKey? ==>
                var db := Looked(Looked(old(dbs[n]), src, c), dst, c);
                && src in db.dict && (reply.Zero? <==> nx && dst in db.dict)
                && dbs == old(dbs)[n := if reply.Zero? then db else RenamedDb(db, src, dst)]
    {
      hide IndexOk;
      if src == dst { return SameObject; }
      var o := LookupKeyWrite(n, src, c);
      if o.None? { return NoKey; }
      var expire := GetExpire(n, src);
      var there := LookupKeyWrite(n, dst, c);
      ghost var db := dbs[n];
      if there.Some? {
        if nx { return Zero; }
        var _ := Delete(n, dst);
      }
      assert dbs[n] == Without(db, dst);
      FinishRename(n, src, dst, o.value, expire, db);
      RenamedInFull(old(dbs[n]), src, dst, c);
      return Renamed;
    }

    /** The end of a rename, when the target does not exist any more. */
    method FinishRename(n: nat, src: Key, dst: Key, o: V, expire: int, ghost db: Db<V>)
      requires Valid() && Usable(n) && src != dst && src in db.dict && db.expires.Keys <= db.dict.Keys
      requires dbs[n] == Without(db, dst) && o == db.dict[src]
      requires expire == if src in db.expires then db.expires[src] else -1
      modifies this`dbs, this`index
      ensures Valid() && dbs == old(dbs)[n := RenamedDb(db, src, dst)]
    {
      hide IndexOk, ExpiresOk, RenamedDb, Insert, Remove;
      Add(n, dst, o);
      ghost var added := dbs[n];
      if expire != -1 { SetExpire(n, dst, expire); }
      ghost var timed := dbs[n];
      var _ := Delete(n, src);
      RenameSteps(db, src, dst, expire, added, timed, dbs[n]);
    }

    /** countKeysInSlot: rank arithmetic on the index counts the keys of the slot. */
    method CountKeysInSlot(hashslot: nat) returns (count: int)
      requires Valid() && cluster
      ensures count == |KeysInSlot(slot, dbs[0].dict.Keys, hashslot)|
    {
      hide FirstInRange, LastInRange, Rank;
      count := 0;
      RangeSize(index, hashslot);
      SlotCount(slot, dbs[0].dict.Keys, index, hashslot);
      var zn := FirstInRange(index, hashslot);
      if zn < |index| {
        RankAt(index, zn);
        var rank := Rank(index, index[zn]);
        count := |index| - (rank - 1);
        var last := LastInRange(index, hashslot);
        if last >= 0 {
          RankAt(index, last);
          rank := Rank(index, index[last]);
          count := count - (|index| - rank);
        }
      }
    }

    /** delKeysInSlot: deletes while walking the index. */
    method DelKeysInSlot(hashslot: nat) returns (j: nat)
      requires Valid() && cluster
      modifies this`dbs, this`index
      ensures Valid() && |dbs| == |old(dbs)|
      ensures var gone := KeysInSlot(slot, old(dbs[0].dict.Keys), hashslot);
              && dbs[0].dict == old(dbs[0].dict) - gone && dbs[0].expires == old(dbs[0].expires) - gone
              && j == |gone|
    {
      hide FirstInRange, Remove, IndexOk;
      j := 0;
      ghost var was := dbs[0];
      ghost var done: set<Key> := {};
      var n := FirstInRange(index, hashslot);
      assert SlotFrom(index, n, hashslot) by { FirstIsSlotFrom(slot, dbs[0].dict.Keys, index, hashslot); }
      while n < |index| && index[n].score == hashslot
        invariant Valid() && |dbs| == |old(dbs)| && n <= |index|
        invariant done <= KeysInSlot(slot, was.dict.Keys, hashslot) && j == |done|
        invariant dbs[0].dict == was.dict - done && dbs[0].expires == was.expires - done
        invariant SlotFrom(index, n, hashslot)
        decreases |index| - n
      {
        var key := index[n].key;
        ItemKey(slot, dbs[0].dict.Keys, index, n);
        RemoveAtPosition(index, n, hashslot);
        var _ := Delete(0, key);
        j := j + 1;
        done := done + {key};
        assert was.dict - (done - {key}) - {key} == was.dict - done;
        assert was.expires - (done - {key}) - {key} == was.expires - done;
      }
      assert dbs[0].dict.Keys == was.dict.Keys - done;
      AllGone(slot, was.dict.Keys, done, index, n, hashslot);
    }
  }

  /** Whether or not the target was due makes no difference to the result. */
  lemma RenamedInFull<V>(was: Db<V>, src: Key, dst: Key, c: Clock)
    requires src != dst && src in was.dict && !Expires(was, src, c) && was.expires.Keys <= was.dict.Keys
    ensures var db := Looked(Looked(was, src, c), dst, c);
            && src in db.dict
            && RenamedDb(db, src, dst).dict == (was.dict - {src})[dst := was.dict[src]]
            && RenamedDb(db, src, dst).expires
               == if src in was.expires && was.expires[src] != -1
                  then (was.expires - {src, dst})[dst := was.expires[src]] else was.expires - {src, dst}
  {
    var db := Looked(Looked(was, src, c), dst, c);
    assert RenamedDb(db, src, dst).dict == (was.dict - {src})[dst := was.dict[src]];
    assert db.expires - {dst} - {src} == was.expires - {src, dst};
  }

  /** Adding the target, its expire time, and deleting the source amount to the rename. */
  lemma RenameSteps<V>(db: Db<V>, src: Key, dst: Key, expire: int, added: Db<V>, timed: Db<V>, r: Db<V>)
    requires src != dst && src in db.dict && expire == if src in db.expires then db.expires[src] else -1
    requires added == Db(Without(db, dst).dict[dst := db.dict[src]], Without(db, dst).expires)
    requires timed == if expire != -1 then Db(added.dict, added.expires[dst := expire]) else added
    requires r == Without(timed, src)
    ensures r == RenamedDb(db, src, dst)
  {
    assert r.dict == RenamedDb(db, src, dst).dict;
    assert r.expires == RenamedDb(db, src, dst).expires;
  }

  // ---- facts about the index ------------------------------------------------------------------------------

  function TotalKeys<V>(dbs: seq<Db<V>>): nat {
    if dbs == [] then 0 else TotalKeys(dbs[..|dbs| - 1]) + |dbs[|dbs| - 1].dict|
  }

  ghost function KeyPairs<V>(dbs: seq<Db<V>>): set<(nat, Key)> {
    set n: nat, k | n < |dbs| && k in dbs[n].dict :: (n, k)
  }

  /** The number of pairs of a database and a key in it. */
  lemma {:induction false} TotalKeysCount<V>(dbs: seq<Db<V>>)
    ensures TotalKeys(dbs) == |KeyPairs(dbs)|
  {
    if dbs != [] {
      hide KeyPairs;
      var m := |dbs| - 1;
      TotalKeysCount(dbs[..m]);
      LastPairs(dbs, m);
      PairCount(m, dbs[m].dict.Keys);
    } else {
      assert KeyPairs(dbs) == {};
    }
  }

  lemma LastPairs<V>(dbs: seq<Db<V>>, m: nat)
    requires m + 1 == |dbs|
    ensures var last := set k | k in dbs[m].dict.Keys :: (m, k);
            KeyPairs(dbs) == KeyPairs(dbs[..m]) + last && KeyPairs(dbs[..m]) !! last
  {
  }

  lemma {:induction false} PairCount(m: nat, keys: set<Key>)
    ensures |set k | k in keys :: (m, k)| == |keys|
  {
    if keys != {} {
      var k :| k in keys;
      PairCount(m, keys - {k});
      assert (set x | x in keys :: (m, x)) == (set x | x in keys - {k} :: (m, x)) + {(m, k)};
    }
  }

  lemma AddedItem(slot: Key -> nat, keys: set<Key>, key: Key)
    requires key !in keys
    ensures Item(slot(key), key) !in SlotItems(slot, keys)
    ensures SlotItems(slot, keys + {key}) == SlotItems(slot, keys) + {Item(slot(key), key)}
  {
  }

  lemma RemovedItem(slot: Key -> nat, keys: set<Key>, key: Key)
    ensures SlotItems(slot, keys - {key}) == SlotItems(slot, keys) - {Item(slot(key), key)}
  {
  }

  /** Counting items of a slot counts keys. */
  lemma SlotCount(slot: Key -> nat, keys: set<Key>, index: seq<Item>, n: nat)
    requires IndexOk(slot, keys, index)
    ensures |WithScore(index, n)| == |KeysInSlot(slot, keys, n)|
  {
    assert forall x :: x in index <==> x in Items(index);
    assert WithScore(index, n) == SlotItems(slot, KeysInSlot(slot, keys, n));
    ItemCount(slot, KeysInSlot(slot, keys, n));
  }

  lemma {:induction false} ItemCount(slot: Key -> nat, keys: set<Key>)
    ensures |SlotItems(slot, keys)| == |keys|
  {
    if keys != {} {
      hide SlotItems;
      var k :| k in keys;
      ItemCount(slot, keys - {k});
      AddedItem(slot, keys - {k}, k);
      assert keys - {k} + {k} == keys;
    }
  }

  lemma ItemKey(slot: Key -> nat, keys: set<Key>, index: seq<Item>, i: nat)
    requires IndexOk(slot, keys, index) && i < |index|
    ensures Sorted(index) && index[i].key in keys && index[i] == Item(slot(index[i].key), index[i].key)
  {
    assert index[i] in Items(index);
  }

  /** All items of the slot are at or after position n, and nothing smaller is. */
  ghost predicate SlotFrom(index: seq<Item>, n: nat, hashslot: nat) {
    && n <= |index| && (forall i | 0 <= i < n :: index[i].score != hashslot)
    && forall i | n <= i < |index| :: index[i].score >= hashslot
  }

  lemma FirstIsSlotFrom(slot: Key -> nat, keys: set<Key>, index: seq<Item>, hashslot: nat)
    requires IndexOk(slot, keys, index)
    ensures SlotFrom(index, FirstInRange(index, hashslot), hashslot)
  {
    var n := FirstInRange(index, hashslot);
    forall i | n < i < |index| ensures index[i].score >= hashslot {
      assert Less(index[n], index[i]);
    }
  }

  /** Removing the item at a position leaves what is before it and moves the rest up. */
  lemma RemoveAtPosition(index: seq<Item>, n: nat, hashslot: nat)
    requires n < |index| && Sorted(index) && SlotFrom(index, n, hashslot)
    ensures Remove(index, index[n]) == index[..n] + index[n + 1..]
    ensures SlotFrom(Remove(index, index[n]), n, hashslot)
  {
    hide Less, Place, Sorted;
    RankAt(index, n);
    ClosedGap(index, n, hashslot);
  }

  lemma ClosedGap(index: seq<Item>, n: nat, hashslot: nat)
    requires n < |index| && SlotFrom(index, n, hashslot)
    ensures SlotFrom(index[..n] + index[n + 1..], n, hashslot)
  {
  }

  lemma AllGone(slot: Key -> nat, keys: set<Key>, gone: set<Key>, index: seq<Item>, n: nat, hashslot: nat)
    requires gone <= KeysInSlot(slot, keys, hashslot) && IndexOk(slot, keys - gone, index)
    requires SlotFrom(index, n, hashslot) && (n == |index| || index[n].score != hashslot)
    ensures gone == KeysInSlot(slot, keys, hashslot)
  {
    forall i | 0 <= i < |index| ensures index[i].score != hashslot {
      if n < i { assert Less(index[n], index[i]); }
    }
    forall k | k in keys - gone ensures slot(k) != hashslot {
      assert Item(slot(k), k) in SlotItems(slot, keys - gone);
      assert Item(slot(k), k) in Items(index);
    }
  }
}
