/** Safe iterators over a dictionary (dictNext in dict.c). A pointer to a linked entry is
    represented by the entry's key. What matters is which keys the iterator still has to
    return; every operation allowed while it is open leaves that set alone for the keys
    it does not add or delete. */
module DictIterator {
  import opened Basics
  import opened DictTable
  import opened Dictionary

  /** The position of a linked key in its chain. */
  function KeyPos<K(==), V>(c: Chain<K, V>, key: K): (j: nat)
    requires FindIn(c, key).Some?
    ensures j < |c| && c[j].key == key
  {
    if c[0].key == key then 0 else 1 + KeyPos(c[1..], key)
  }

  /** The chain node after the given one. */
  function Successor<K(==), V>(c: Chain<K, V>, key: K): Option<K>
    requires FindIn(c, key).Some?
  {
    var j := KeyPos(c, key);
    if j + 1 < |c| then Some(c[j + 1].key) else None
  }

  function Head<K, V>(c: Chain<K, V>): Option<K> {
    if c == [] then None else Some(c[0].key)
  }

  /** k lies in a bucket after index, or in that bucket at or after the node next. */
  ghost predicate Ahead<K, V>(hash: K -> nat, t: Table<K, V>, index: int, next: Option<K>, k: K) {
    && Get(hash, t, k).Some?
    && var b := Index(hash(k), |t.buckets|);
    && (|| b > index
        || (b == index && next.Some? && FindIn(t.buckets[b], next.value).Some?
            && KeyPos(t.buckets[b], next.value) <= KeyPos(t.buckets[b], k)))
  }

  /** The keys an iterator at this place has still to return. */
  ghost predicate Remaining<K, V>(hash: K -> nat, s: State<K, V>, table: nat, index: int, next: Option<K>, k: K) {
    if table == 0 then Ahead(hash, s.ht0, index, next, k) || Get(hash, s.ht1, k).Some?
    else Ahead(hash, s.ht1, index, next, k)
  }

  /** The saved pointer refers to a linked entry of the current bucket. */
  ghost predicate PlaceValid<K, V>(hash: K -> nat, s: State<K, V>, table: nat, index: int, next: Option<K>) {
    && table <= 1 && index >= -1 && (table == 1 ==> s.rehashidx != -1 && index >= 0)
    && var t := Side(s, table == 1);
    && (next.Some? ==>
          0 <= index < |t.buckets| && FindIn(t.buckets[index], next.value).Some?)
  }

  // ---- order within a chain ------------------------------------------------------------

  lemma {:induction false} KeyPosAt<K, V>(c: Chain<K, V>, j: nat)
    requires j < |c| && NoDuplicates(c)
    ensures FindIn(c, c[j].key).Some? && KeyPos(c, c[j].key) == j
  {
    FindInAt(c, j);
  }

  /** Removing one entry keeps the order of the others. */
  lemma OrderAfterUnlink<K, V>(c: Chain<K, V>, j: nat, x: K)
    requires NoDuplicates(c) && j < |c| && FindIn(c, x).Some? && x != c[j].key
    ensures var c' := c[..j] + c[j + 1..];
            && NoDuplicates(c') && FindIn(c', x).Some?
            && KeyPos(c', x) == if KeyPos(c, x) < j then KeyPos(c, x) else KeyPos(c, x) - 1
  {
    var c' := c[..j] + c[j + 1..];
    var p := KeyPos(c, x);
    KeyPosAt(c', if p < j then p else p - 1);
  }

  lemma OrderAfterPush<K, V>(e: Entry<K, V>, c: Chain<K, V>, x: K)
    requires FindIn(c, x).Some? && x != e.key
    ensures FindIn([e] + c, x).Some? && KeyPos([e] + c, x) == KeyPos(c, x) + 1
  {
    assert ([e] + c)[1..] == c;
  }

  // ---- moves of the iterator --------------------------------------------------------------

  lemma EnterBucket<K, V>(hash: K -> nat, t: Table<K, V>, index: int, k: K)
    requires TableValid(hash, t) && -1 <= index && index + 1 < |t.buckets|
    ensures Ahead(hash, t, index, None, k) <==> Ahead(hash, t, index + 1, Head(t.buckets[index + 1]), k)
  {
    var c := t.buckets[index + 1];
    if c != [] { KeyPosAt(c, 0); }
  }

  lemma FollowNext<K, V>(hash: K -> nat, t: Table<K, V>, index: int, n: K, k: K)
    requires TableValid(hash, t) && 0 <= index < |t.buckets| && FindIn(t.buckets[index], n).Some?
    ensures Ahead(hash, t, index, Some(n), k) && k != n
            <==> Ahead(hash, t, index, Successor(t.buckets[index], n), k)
    ensures Ahead(hash, t, index, Some(n), n)
  {
    var c := t.buckets[index];
    var j := KeyPos(c, n);
    assert Index(hash(c[j].key), |t.buckets|) == index;
    if j + 1 < |c| { KeyPosAt(c, j + 1); }
    if FindIn(c, k).Some? && k != n { KeyPosAt(c, KeyPos(c, k)); }
  }

  lemma SuccessorValid<K, V>(hash: K -> nat, t: Table<K, V>, index: int, n: K)
    requires TableValid(hash, t) && 0 <= index < |t.buckets| && FindIn(t.buckets[index], n).Some?
    ensures var r := Successor(t.buckets[index], n); r.Some? ==> FindIn(t.buckets[index], r.value).Some?
  {
    var c := t.buckets[index];
    var j := KeyPos(c, n);
    if j + 1 < |c| { FindInAt(c, j + 1); }
  }

  /** Returning the node n and saving its successor strikes exactly n off. */
  lemma StrikeOff<K(!new), V>(hash: K -> nat, s: State<K, V>, m: map<K, V>, table: nat, index: int, n: K)
    requires Represents(hash, s, m) && PlaceValid(hash, s, table, index, Some(n))
    ensures var c := Side(s, table == 1).buckets[index];
            && PlaceValid(hash, s, table, index, Successor(c, n))
            && n in m && Some(m[n]) == FindIn(c, n)
            && Remaining(hash, s, table, index, Some(n), n)
            && forall k :: Remaining(hash, s, table, index, Successor(c, n), k)
                           <==> Remaining(hash, s, table, index, Some(n), k) && k != n
  {
    hide TableValid, Ahead, Shape;
    var t := Side(s, table == 1);
    SuccessorValid(hash, t, index, n);
    ChainBelongs(hash, t, index);
    assert Lookup(hash, s, n) == if n in m then Some(m[n]) else None;
    assert Get(hash, t, n) == FindIn(t.buckets[index], n);
    forall k ensures Ahead(hash, t, index, Some(n), k) && k != n
                     <==> Ahead(hash, t, index, Successor(t.buckets[index], n), k) {
      FollowNext(hash, t, index, n, k);
    }
    FollowNext(hash, t, index, n, n);
  }

  lemma EnterNext<K(!new), V>(hash: K -> nat, s: State<K, V>, m: map<K, V>, table: nat, index: int)
    requires Represents(hash, s, m) && PlaceValid(hash, s, table, index, None)
    requires index + 1 < |Side(s, table == 1).buckets|
    ensures var h := Head(Side(s, table == 1).buckets[index + 1]);
            && PlaceValid(hash, s, table, index + 1, h)
            && forall k :: Remaining(hash, s, table, index + 1, h, k) <==> Remaining(hash, s, table, index, None, k)
  {
    hide TableValid, Ahead, Disjoint, Models;
    var t := Side(s, table == 1);
    forall k ensures Ahead(hash, t, index, None, k)
                     <==> Ahead(hash, t, index + 1, Head(t.buckets[index + 1]), k) {
      EnterBucket(hash, t, index, k);
    }
  }

  lemma PastTheEnd<K(!new), V>(hash: K -> nat, t: Table<K, V>, index: int, k: K)
    requires index + 1 >= |t.buckets|
    ensures !Ahead(hash, t, index, None, k)
  {
  }

  /** At the end of the first table a rehashing dictionary continues with the second. */
  lemma SwitchTable<K(!new), V>(hash: K -> nat, s: State<K, V>, m: map<K, V>, index: int)
    requires Represents(hash, s, m) && s.rehashidx != -1 && index + 1 >= |s.ht0.buckets|
    ensures s.ht1.buckets != []
    ensures var h := Head(s.ht1.buckets[0]);
            && PlaceValid(hash, s, 1, 0, h)
            && forall k :: Remaining(hash, s, 1, 0, h, k) <==> Remaining(hash, s, 0, index, None, k)
  {
    hide TableValid, Disjoint, Models;
    forall k ensures Remaining(hash, s, 1, 0, Head(s.ht1.buckets[0]), k) <==> Remaining(hash, s, 0, index, None, k) {
      EnterBucket(hash, s.ht1, -1, k);
      PastTheEnd(hash, s.ht0, index, k);
    }
  }

  lemma NothingLeft<K(!new), V>(hash: K -> nat, s: State<K, V>, m: map<K, V>, table: nat, index: int)
    requires Represents(hash, s, m) && PlaceValid(hash, s, table, index, None)
    requires index + 1 >= |Side(s, table == 1).buckets| && (s.rehashidx == -1 || table == 1)
    ensures forall k :: !Remaining(hash, s, table, index, None, k)
  {
    forall k ensures !Remaining(hash, s, table, index, None, k) {
      PastTheEnd(hash, Side(s, table == 1), index, k);
    }
  }

  // ---- operations while the iterator is open ------------------------------------------------

  lemma InstallKeepsRemaining<K(!new), V>(hash: K -> nat, s: State<K, V>, s': State<K, V>,
                                          table: nat, index: int, next: Option<K>)
    requires MaybeInstalled(s, s') && s.ht0.buckets != [] && (s.rehashidx == -1 ==> s.ht1 == Table([], 0))
    requires PlaceValid(hash, s, table, index, next)
    ensures PlaceValid(hash, s', table, index, next)
    ensures forall k :: Remaining(hash, s', table, index, next, k) <==> Remaining(hash, s, table, index, next, k)
  {
  }

  lemma LinkKeepsAhead<K(!new), V>(hash: K -> nat, t: Table<K, V>, e: Entry<K, V>, index: int, next: Option<K>, k: K)
    requires TableValid(hash, t) && t.buckets != [] && Get(hash, t, e.key).None? && k != e.key
    requires next.Some? ==> 0 <= index < |t.buckets| && FindIn(t.buckets[index], next.value).Some?
    ensures Ahead(hash, Insert(hash, t, e), index, next, k) <==> Ahead(hash, t, index, next, k)
    ensures next.Some? ==> FindIn(Insert(hash, t, e).buckets[index], next.value).Some?
  {
    var i := Index(hash(e.key), |t.buckets|);
    var c := t.buckets[i];
    if next.Some? && index == i {
      assert next.value != e.key;
      OrderAfterPush(e, c, next.value);
    }
    FindInPush(e, c, k);
    if FindIn(c, k).Some? { OrderAfterPush(e, c, k); }
  }

  lemma LinkKeepsRemaining<K(!new), V>(hash: K -> nat, s: State<K, V>, m: map<K, V>, e: Entry<K, V>,
                                       table: nat, index: int, next: Option<K>)
    requires Represents(hash, s, m) && s.ht0.buckets != [] && e.key !in m
    requires PlaceValid(hash, s, table, index, next)
    ensures PlaceValid(hash, Link(hash, s, e), table, index, next)
    ensures forall k | k != e.key ::
              Remaining(hash, Link(hash, s, e), table, index, next, k) <==> Remaining(hash, s, table, index, next, k)
  {
    assert Lookup(hash, s, e.key).None?;
    var second := s.rehashidx != -1;
    InsertMeaning(hash, Side(s, second), e);
    if second == (table == 1) {
      forall k | k != e.key
        ensures Remaining(hash, Link(hash, s, e), table, index, next, k) <==> Remaining(hash, s, table, index, next, k)
      {
        LinkKeepsAhead(hash, Side(s, second), e, index, next, k);
      }
      if next.Some? {
        ChainBelongs(hash, Side(s, second), index);
        assert next.value != e.key;
        FindInPush(e, Side(s, second).buckets[index], next.value);
      }
    }
  }

  lemma UnlinkKeepsAhead<K(!new), V>(hash: K -> nat, t: Table<K, V>, i: nat, j: nat, index: int, next: Option<K>, k: K)
    requires TableValid(hash, t) && i < |t.buckets| && j < |t.buckets[i]| && t.used > 0
    requires next.Some? ==> 0 <= index < |t.buckets| && FindIn(t.buckets[index], next.value).Some?
    requires next != Some(t.buckets[i][j].key) && k != t.buckets[i][j].key
    ensures Ahead(hash, Unlink(t, i, j), index, next, k) <==> Ahead(hash, t, index, next, k)
    ensures next.Some? ==> FindIn(Unlink(t, i, j).buckets[index], next.value).Some?
  {
    var c := t.buckets[i];
    UnlinkMeaning(hash, t, i, j);
    if next.Some? && index == i { OrderAfterUnlink(c, j, next.value); }
    if FindIn(c, k).Some? { OrderAfterUnlink(c, j, k); }
  }

  /** Deleting any key but the one the iterator has saved as next. */
  lemma UnlinkKeepsRemaining<K(!new), V>(hash: K -> nat, s: State<K, V>, m: map<K, V>, second: bool, i: nat, j: nat,
                                         table: nat, index: int, next: Option<K>)
    requires Represents(hash, s, m) && PlaceValid(hash, s, table, index, next)
    requires var t := Side(s, second);
             i < |t.buckets| && j < |t.buckets[i]| && t.used > 0 && next != Some(t.buckets[i][j].key)
    ensures var t := Side(s, second);
            var s' := WithSide(s, second, Unlink(t, i, j));
            && PlaceValid(hash, s', table, index, next)
            && forall k | k != t.buckets[i][j].key ::
                 Remaining(hash, s', table, index, next, k) <==> Remaining(hash, s, table, index, next, k)
  {
    hide Models, Disjoint, Shape, Placed, NoDuplicates, Index;
    var t := Side(s, second);
    var s' := WithSide(s, second, Unlink(t, i, j));
    UnlinkMeaning(hash, t, i, j);
    forall k | k != t.buckets[i][j].key
      ensures Remaining(hash, s', table, index, next, k) <==> Remaining(hash, s, table, index, next, k)
    {
      if second == (table == 1) { UnlinkKeepsAhead(hash, t, i, j, index, next, k); }
    }
    if second == (table == 1) && next.Some? && index == i {
      OrderAfterUnlink(t.buckets[i], j, next.value);
    }
  }

  /** Deleting leaves the saved pointer valid exactly when its own entry is not the one deleted;
      otherwise the pointer dangles. */
  lemma UnlinkKeepsPlaceExactly<K(!new), V>(hash: K -> nat, s: State<K, V>, m: map<K, V>, second: bool, i: nat, j: nat,
                                            table: nat, index: int, next: Option<K>)
    requires Represents(hash, s, m) && PlaceValid(hash, s, table, index, next)
    requires var t := Side(s, second); i < |t.buckets| && j < |t.buckets[i]| && t.used > 0
    ensures var t := Side(s, second);
            PlaceValid(hash, WithSide(s, second, Unlink(t, i, j)), table, index, next) <==> next != Some(t.buckets[i][j].key)
  {
    var t := Side(s, second);
    if next == Some(t.buckets[i][j].key) {
      UnlinkKeeps(hash, s, m, second, i, j);
      var s' := WithSide(s, second, Unlink(t, i, j));
      hide Represents, Unlink;
      if PlaceValid(hash, s', table, index, next) {
        PlacedKeyKnown(hash, s', m - {t.buckets[i][j].key}, table, index, next.value);
      }
    } else {
      hide Represents, Unlink;
      UnlinkKeepsRemaining(hash, s, m, second, i, j, table, index, next);
    }
  }

  /** The saved entry belongs to the dictionary and is still to be returned. */
  lemma PlacedKeyKnown<K(!new), V>(hash: K -> nat, s: State<K, V>, m: map<K, V>, table: nat, index: int, n: K)
    requires Represents(hash, s, m) && PlaceValid(hash, s, table, index, Some(n))
    ensures n in m && Remaining(hash, s, table, index, Some(n), n)
  {
    hide Represents, Remaining, PlaceValid;
    StrikeOff(hash, s, m, table, index, n);
  }

  lemma {:induction false} OrderAfterSetVal<K, V>(c: Chain<K, V>, j: nat, v: V, x: K)
    requires j < |c|
    ensures FindIn(c[j := c[j].(val := v)], x).Some? == FindIn(c, x).Some?
    ensures FindIn(c, x).Some? ==> KeyPos(c[j := c[j].(val := v)], x) == KeyPos(c, x)
  {
    if j > 0 {
      assert c[j := c[j].(val := v)][1..] == c[1..][j - 1 := c[1..][j - 1].(val := v)];
      OrderAfterSetVal(c[1..], j - 1, v, x);
    } else {
      assert c[0 := c[0].(val := v)][1..] == c[1..];
    }
  }

  lemma SetValKeepsAhead<K(!new), V>(hash: K -> nat, t: Table<K, V>, i: nat, j: nat, v: V, index: int, next: Option<K>, k: K)
    requires i < |t.buckets| && j < |t.buckets[i]|
    ensures Ahead(hash, SetVal(t, i, j, v), index, next, k) <==> Ahead(hash, t, index, next, k)
    ensures Get(hash, SetVal(t, i, j, v), k).Some? == Get(hash, t, k).Some?
    ensures next.Some? && 0 <= index < |t.buckets| ==>
              FindIn(SetVal(t, i, j, v).buckets[index], next.value).Some? == FindIn(t.buckets[index], next.value).Some?
  {
    hide FindIn, KeyPos, Index;
    var c := t.buckets[i];
    OrderAfterSetVal(c, j, v, k);
    if next.Some? { OrderAfterSetVal(c, j, v, next.value); }
  }

  /** Overwriting a value moves nothing. */
  lemma SetValKeepsRemaining<K(!new), V>(hash: K -> nat, s: State<K, V>, second: bool, i: nat, j: nat, v: V,
                                         table: nat, index: int, next: Option<K>)
    requires PlaceValid(hash, s, table, index, next)
    requires var t := Side(s, second); i < |t.buckets| && j < |t.buckets[i]|
    ensures var s' := WithSide(s, second, SetVal(Side(s, second), i, j, v));
            && PlaceValid(hash, s', table, index, next)
            && forall k :: Remaining(hash, s', table, index, next, k) <==> Remaining(hash, s, table, index, next, k)
  {
    hide Ahead, FindIn, Get;
    var t := Side(s, second);
    var s' := WithSide(s, second, SetVal(t, i, j, v));
    forall k ensures Remaining(hash, s', table, index, next, k) <==> Remaining(hash, s, table, index, next, k) {
      SetValKeepsAhead(hash, t, i, j, v, index, next, k);
    }
    if next.Some? { SetValKeepsAhead(hash, t, i, j, v, index, next, next.value); }
  }

  // ---- the iterator ----------------------------------------------------------------------------

  class SafeIterator<K(==, !new), V> {
    const d: Dict<K, V>
    var table: nat
    var index: int
    var entry: Option<K>
    var nextEntry: Option<K>

    ghost predicate Valid()
      reads this, d
    {
      && d.Valid()
      && PlaceValid(d.hash, d.St(), table, index, nextEntry)
      && (entry.None? ==> nextEntry.None?)
      && (index == -1 ==> table == 0 && entry.None?)
    }

    ghost predicate ToReturn(k: K)
      reads this, d
    {
      Remaining(d.hash, d.St(), table, index, nextEntry, k)
    }

    /** Whether k remained to be returned from an earlier place. */
    ghost predicate WasToReturn(table: nat, index: int, next: Option<K>, k: K)
      reads this, d
    {
      Remaining(d.hash, d.St(), table, index, next, k)
    }

    /** dictGetSafeIterator: everything is still to be returned. */
    constructor (d: Dict<K, V>)
      requires d.Valid()
      ensures this.d == d && Valid() && index == -1
      ensures forall k :: k in d.model ==> ToReturn(k)
    {
      this.d := d;
      table, index := 0, -1;
      entry, nextEntry := None, None;
      new;
      forall k ensures k in d.model ==> ToReturn(k) {
        assert Lookup(d.hash, d.St(), k) == if k in d.model then Some(d.model[k]) else None;
      }
    }

    /** Move to the next bucket of dictNext's walk; true when there is none. */
    method EnterBucket() returns (end: bool)
      requires Valid() && entry.None?
      modifies this, d`iterators
      ensures Valid() && d.St() == old(d.St()) && index != -1
      ensures d.iterators == old(d.iterators) + if old(index) == -1 then 1 else 0
      ensures end ==> forall k :: !Remaining(d.hash, d.St(), old(table), old(index), old(nextEntry), k)
      ensures !end ==> nextEntry == entry
                       && forall k :: Remaining(d.hash, d.St(), table, index, nextEntry, k)
                                      <==> Remaining(d.hash, d.St(), old(table), old(index), old(nextEntry), k)
      ensures !end ==> table > old(table) || (table == old(table) && old(index) < index <= |Side(d.St(), table == 1).buckets|)
    {
      hide Represents, Remaining, PlaceValid, FindIn, Successor, KeyPos;
      ghost var s, m, hash := d.St(), d.model, d.hash;
      PlaceRange(hash, s, table, index, nextEntry);
      if index == -1 && table == 0 { d.iterators := d.iterators + 1; }
      ghost var before := index;
      index := index + 1;
      if index >= |(if table == 1 then d.ht1 else d.ht0).buckets| {
        if d.rehashidx != -1 && table == 0 {
          SwitchTable(hash, s, m, before);
          table, index := 1, 0;
        } else {
          NothingLeft(hash, s, m, table, before);
          PlaceEnd(hash, s, table, index);
          return true;
        }
      } else {
        EnterNext(hash, s, m, table, before);
      }
      entry := Head((if table == 1 then d.ht1 else d.ht0).buckets[index]);
      nextEntry := entry;
      return false;
    }

    /** dictNext: return one of the remaining entries and strike it off, or None when
        nothing remains. The first call registers the iterator with the dictionary. */
    method Next() returns (r: Option<Entry<K, V>>)
      requires Valid()
      modifies this, d`iterators
      ensures Valid() && d.iterators == old(d.iterators) + if old(index) == -1 then 1 else 0
      ensures index != -1
      ensures d.St() == old(d.St())
      ensures r.None? ==> forall k :: !WasToReturn(old(table), old(index), old(nextEntry), k)
      ensures r.Some? ==>
                && WasToReturn(old(table), old(index), old(nextEntry), r.value.key)
                && r.value.key in d.model && d.model[r.value.key] == r.value.val
                && nextEntry != Some(r.value.key)
                && forall k :: ToReturn(k) <==>
                     WasToReturn(old(table), old(index), old(nextEntry), k) && k != r.value.key
    {
      hide Represents, Remaining, PlaceValid, Successor, FindIn, KeyPos;
      ghost var s, m, hash := d.St(), d.model, d.hash;
      while true
        invariant Valid() && d.St() == s
        invariant d.iterators == old(d.iterators) + if old(index) == -1 && index != -1 then 1 else 0
        invariant index == -1 ==> old(index) == -1
        invariant forall k :: Remaining(hash, s, table, index, nextEntry, k)
                              <==> Remaining(hash, s, old(table), old(index), old(nextEntry), k)
        decreases 1 - table, |Side(s, table == 1).buckets| - index, entry.Some?
      {
        PlaceRange(hash, s, table, index, nextEntry);
        if entry.None? {
          var end := EnterBucket();
          if end { return None; }
          PlaceRange(hash, s, table, index, nextEntry);
        } else {
          entry := nextEntry;
        }
        if entry.Some? {
          StrikeOff(hash, s, m, table, index, entry.value);
          var c := (if table == 1 then d.ht1 else d.ht0).buckets[index];
          nextEntry := Successor(c, entry.value);
          r := Some(c[KeyPos(c, entry.value)]);
          EntryValue(c, entry.value);
          if nextEntry.Some? { PlacedKeyKnown(hash, s, m, table, index, nextEntry.value); }
          return;
        }
      }
    }
  }

  lemma EntryValue<K, V>(c: Chain<K, V>, key: K)
    requires FindIn(c, key).Some?
    ensures FindIn(c, key) == Some(c[KeyPos(c, key)].val)
  {
  }

  lemma PlaceRange<K, V>(hash: K -> nat, s: State<K, V>, table: nat, index: int, next: Option<K>)
    requires PlaceValid(hash, s, table, index, next)
    ensures table <= 1 && index >= -1 && (table == 1 ==> s.rehashidx != -1 && index >= 0)
    ensures next.Some? ==> 0 <= index < |Side(s, table == 1).buckets|
                           && FindIn(Side(s, table == 1).buckets[index], next.value).Some?
  {
  }

  lemma PlaceEnd<K, V>(hash: K -> nat, s: State<K, V>, table: nat, index: int)
    requires table <= 1 && index >= 0 && (table == 1 ==> s.rehashidx != -1)
    ensures PlaceValid(hash, s, table, index, None)
  {
  }
}
