/** A whole safe iteration, interleaved with the operations that are allowed while the
    iterator is registered (so that no bucket is moved): every element present throughout
    is returned exactly once. */
module IterationRuns {
  import opened Basics
  import opened DictTable
  import opened Dictionary
  import opened DictIterator

  /** The dictionary, the map it stands for, and the place of the iterator. */
  datatype Moment<K, V> = Moment(s: State<K, V>, m: map<K, V>, table: nat, index: int, next: Option<K>)

  /** What happens between two moments. */
  datatype Event<K, V> =
    | Returned(key: K)
    | Installed
    | Linked(entry: Entry<K, V>)
    | Deleted(second: bool, i: nat, j: nat)
    | Overwritten(second: bool, i: nat, j: nat, val: V)

  ghost predicate Left<K, V>(hash: K -> nat, a: Moment<K, V>, k: K) {
    Remaining(hash, a.s, a.table, a.index, a.next, k)
  }

  ghost predicate MomentValid<K(!new), V>(hash: K -> nat, a: Moment<K, V>) {
    Represents(hash, a.s, a.m) && PlaceValid(hash, a.s, a.table, a.index, a.next)
  }

  /** Returned is what SafeIterator.Next does; Installed and Linked are the two halves of
      Dict.Add with a running iterator (Resize only installs); Deleted is Dict.Delete, and
      Overwritten is Dict.Replace of a key that is present. */
  ghost predicate Step<K(!new), V>(hash: K -> nat, a: Moment<K, V>, ev: Event<K, V>, b: Moment<K, V>) {
    match ev
    case Returned(key) =>
      && b.s == a.s && b.m == a.m && key in a.m && Left(hash, a, key)
      && (forall k :: Left(hash, b, k) <==> Left(hash, a, k) && k != key)
      && PlaceValid(hash, b.s, b.table, b.index, b.next)
    case Installed =>
      && a.s.ht0.buckets != [] && MaybeInstalled(a.s, b.s) && Represents(hash, b.s, b.m)
      && b == a.(s := b.s)
    case Linked(e) =>
      && a.s.ht0.buckets != [] && e.key !in a.m && Shape(a.s)
      && b == a.(s := Link(hash, a.s, e), m := a.m[e.key := e.val])
    case Deleted(second, i, j) =>
      var t := Side(a.s, second);
      && i < |t.buckets| && j < |t.buckets[i]| && t.used > 0
      && b == a.(s := WithSide(a.s, second, Unlink(t, i, j)), m := a.m - {t.buckets[i][j].key})
    case Overwritten(second, i, j, val) =>
      var t := Side(a.s, second);
      && i < |t.buckets| && j < |t.buckets[i]|
      && b == a.(s := WithSide(a.s, second, SetVal(t, i, j, val)), m := a.m[t.buckets[i][j].key := val])
  }

  /** The key that an event deletes. */
  function DeletedKey<K, V>(a: Moment<K, V>, ev: Event<K, V>): Option<K> {
    if ev.Deleted? && ev.i < |Side(a.s, ev.second).buckets| && ev.j < |Side(a.s, ev.second).buckets[ev.i]|
    then Some(Side(a.s, ev.second).buckets[ev.i][ev.j].key) else None
  }

  /** The event does not delete the entry that the iterator has saved as next. */
  ghost predicate Spares<K, V>(a: Moment<K, V>, ev: Event<K, V>) {
    a.next.Some? ==> DeletedKey(a, ev) != a.next
  }

  /** From a new iterator, for which everything in the dictionary is left, to the call of
      Next that finds nothing left. */
  ghost predicate Iteration<K(!new), V>(hash: K -> nat, run: seq<Moment<K, V>>, evs: seq<Event<K, V>>) {
    && |run| == |evs| + 1
    && MomentValid(hash, run[0]) && (forall k | k in run[0].m :: Left(hash, run[0], k))
    && (forall i | 0 <= i < |evs| :: Step(hash, run[i], evs[i], run[i + 1]))
    && (forall k :: !Left(hash, run[|evs|], k))
  }

  /** What a caller can see to: key is deleted by event i only after it was returned, and without
      having been deleted and added again in between. */
  ghost predicate WasReturned<K, V>(run: seq<Moment<K, V>>, evs: seq<Event<K, V>>, i: nat, key: K)
    requires |run| == |evs| + 1
  {
    i <= |evs| && exists h :: 0 <= h < i && evs[h] == Returned(key) && forall g | h <= g <= i :: key in run[g].m
  }

  ghost predicate DeletesReturned<K, V>(run: seq<Moment<K, V>>, evs: seq<Event<K, V>>)
    requires |run| == |evs| + 1
  {
    forall i | 0 <= i < |evs| && DeletedKey(run[i], evs[i]).Some? :: WasReturned(run, evs, i, DeletedKey(run[i], evs[i]).value)
  }

  function Returns<K(==), V(==)>(evs: seq<Event<K, V>>, key: K): nat {
    if evs == [] then 0 else (if evs[0] == Returned(key) then 1 else 0) + Returns(evs[1..], key)
  }

  lemma StepValid<K(!new), V>(hash: K -> nat, a: Moment<K, V>, ev: Event<K, V>, b: Moment<K, V>)
    requires MomentValid(hash, a) && Step(hash, a, ev, b) && Spares(a, ev)
    ensures MomentValid(hash, b)
  {
    hide Represents, Remaining, PlaceValid, Unlink, SetVal;
    match ev
    case Returned(k) =>
    case Installed =>
      ShapeOf(hash, a.s, a.m);
      InstallKeepsRemaining(hash, a.s, b.s, a.table, a.index, a.next);
    case Linked(e) =>
      LinkKeeps(hash, a.s, a.m, e);
      LinkKeepsRemaining(hash, a.s, a.m, e, a.table, a.index, a.next);
    case Deleted(second, i, j) =>
      UnlinkKeeps(hash, a.s, a.m, second, i, j);
      UnlinkKeepsRemaining(hash, a.s, a.m, second, i, j, a.table, a.index, a.next);
    case Overwritten(second, i, j, val) =>
      SetValKeeps(hash, a.s, a.m, second, i, j, val);
      SetValKeepsRemaining(hash, a.s, second, i, j, val, a.table, a.index, a.next);
  }

  /** One step changes whether a surviving key is left only by returning it. */
  lemma StepKeeps<K(!new), V>(hash: K -> nat, a: Moment<K, V>, ev: Event<K, V>, b: Moment<K, V>, key: K)
    requires MomentValid(hash, a) && Step(hash, a, ev, b) && Spares(a, ev) && key in a.m && key in b.m
    ensures ev == Returned(key) ==> Left(hash, a, key) && !Left(hash, b, key)
    ensures ev != Returned(key) ==> (Left(hash, a, key) <==> Left(hash, b, key))
  {
    hide Represents, Remaining, PlaceValid, Unlink, SetVal;
    match ev
    case Returned(k) =>
    case Installed =>
      ShapeOf(hash, a.s, a.m);
      InstallKeepsRemaining(hash, a.s, b.s, a.table, a.index, a.next);
    case Linked(e) =>
      LinkKeepsRemaining(hash, a.s, a.m, e, a.table, a.index, a.next);
    case Deleted(second, i, j) =>
      UnlinkKeepsRemaining(hash, a.s, a.m, second, i, j, a.table, a.index, a.next);
    case Overwritten(second, i, j, val) =>
      SetValKeepsRemaining(hash, a.s, second, i, j, val, a.table, a.index, a.next);
  }

  lemma {:induction false} ReturnsAreWhatIsLeft<K(!new), V>(hash: K -> nat, run: seq<Moment<K, V>>, evs: seq<Event<K, V>>, key: K)
    requires |run| == |evs| + 1 && MomentValid(hash, run[0])
    requires forall i | 0 <= i < |evs| :: Step(hash, run[i], evs[i], run[i + 1]) && Spares(run[i], evs[i])
    requires forall i | 0 <= i < |run| :: key in run[i].m
    requires forall k :: !Left(hash, run[|evs|], k)
    ensures Returns(evs, key) == if Left(hash, run[0], key) then 1 else 0
  {
    hide MomentValid, Step, Left, Represents, PlaceValid, Spares;
    if evs != [] {
      var evs', run' := evs[1..], run[1..];
      assert run[1] == run'[0] && key in run[0].m && key in run[1].m;
      StepValid(hash, run[0], evs[0], run[1]);
      StepKeeps(hash, run[0], evs[0], run[1], key);
      forall i | 0 <= i < |evs'| ensures Step(hash, run'[i], evs'[i], run'[i + 1]) && Spares(run'[i], evs'[i]) {
        assert Step(hash, run[i + 1], evs[i + 1], run[i + 2]) && Spares(run[i + 1], evs[i + 1]);
      }
      assert forall i | 0 <= i < |run'| :: run'[i] == run[i + 1];
      ReturnsAreWhatIsLeft(hash, run', evs', key);
    }
  }

  // ---- which deletions are safe ----------------------------------------------------------------

  /** The events before i spare the saved entry. */
  ghost predicate SparedUpTo<K, V>(run: seq<Moment<K, V>>, evs: seq<Event<K, V>>, i: nat)
    requires i <= |evs| < |run|
  {
    forall g | 0 <= g < i :: Spares(run[g], evs[g])
  }

  lemma {:induction false} ValidUpTo<K(!new), V>(hash: K -> nat, run: seq<Moment<K, V>>, evs: seq<Event<K, V>>, i: nat)
    requires Iteration(hash, run, evs) && i <= |evs| && SparedUpTo(run, evs, i)
    ensures MomentValid(hash, run[i])
  {
    hide MomentValid, Step, Left, Spares;
    if i > 0 {
      ValidUpTo(hash, run, evs, i - 1);
      StepValid(hash, run[i - 1], evs[i - 1], run[i]);
    }
  }

  /** A key that was returned and stays is not left to be returned. */
  lemma {:induction false} ReturnedIsNotLeft<K(!new), V>(hash: K -> nat, run: seq<Moment<K, V>>, evs: seq<Event<K, V>>, h: nat, i: nat, key: K)
    requires Iteration(hash, run, evs) && h < i <= |evs| && SparedUpTo(run, evs, i)
    requires evs[h] == Returned(key) && forall g | h <= g <= i :: key in run[g].m
    ensures !Left(hash, run[i], key)
  {
    hide MomentValid, Step, Left, Spares;
    if h + 1 < i { ReturnedIsNotLeft(hash, run, evs, h, i - 1, key); }
    ValidUpTo(hash, run, evs, i - 1);
    StepKeeps(hash, run[i - 1], evs[i - 1], run[i], key);
    if h + 1 < i && evs[i - 1] == Returned(key) { assert Left(hash, run[i - 1], key); }
  }

  lemma NextIsLeft<K(!new), V>(hash: K -> nat, a: Moment<K, V>)
    requires MomentValid(hash, a) && a.next.Some?
    ensures Left(hash, a, a.next.value)
  {
    hide Represents, Remaining, PlaceValid;
    PlacedKeyKnown(hash, a.s, a.m, a.table, a.index, a.next.value);
  }

  /** Deleting only what was returned never hits the entry that the iterator has saved. */
  lemma {:induction false} ReturnedMayBeDeleted<K(!new), V>(hash: K -> nat, run: seq<Moment<K, V>>, evs: seq<Event<K, V>>, i: nat)
    requires Iteration(hash, run, evs) && DeletesReturned(run, evs) && i <= |evs|
    ensures SparedUpTo(run, evs, i)
  {
    hide MomentValid, Step, Left, DeletedKey;
    if i > 0 {
      ReturnedMayBeDeleted(hash, run, evs, i - 1);
      var a, d := run[i - 1], DeletedKey(run[i - 1], evs[i - 1]);
      if a.next.Some? && d == a.next {
        var h :| 0 <= h < i - 1 && evs[h] == Returned(d.value) && forall g | h <= g <= i - 1 :: d.value in run[g].m;
        ReturnedIsNotLeft(hash, run, evs, h, i - 1, d.value);
        ValidUpTo(hash, run, evs, i - 1);
        NextIsLeft(hash, a);
      }
    }
  }

  /** Every key present throughout a safe iteration is returned exactly once, whatever is added,
      overwritten or deleted meanwhile, as long as no deletion hits the saved next entry. */
  lemma ReturnedExactlyOnce<K(!new), V>(hash: K -> nat, run: seq<Moment<K, V>>, evs: seq<Event<K, V>>, key: K)
    requires Iteration(hash, run, evs) && SparedUpTo(run, evs, |evs|)
    requires forall i | 0 <= i < |run| :: key in run[i].m
    ensures Returns(evs, key) == 1
  {
    hide Remaining, PlaceValid, Represents, Step, Spares;
    ReturnsAreWhatIsLeft(hash, run, evs, key);
  }

  /** The same for a caller that deletes only keys which the iterator has returned. */
  lemma CarefulIteration<K(!new), V>(hash: K -> nat, run: seq<Moment<K, V>>, evs: seq<Event<K, V>>, key: K)
    requires Iteration(hash, run, evs) && DeletesReturned(run, evs)
    requires forall i | 0 <= i < |run| :: key in run[i].m
    ensures Returns(evs, key) == 1
  {
    hide Iteration, DeletesReturned, SparedUpTo;
    ReturnedMayBeDeleted(hash, run, evs, |evs|);
    ReturnedExactlyOnce(hash, run, evs, key);
  }
}
