/** The sorted index from hash slots to keys (db.c): a skip list as a strictly sorted sequence of
    scored keys. */
module SlotIndex {
  import opened Buffers

  type Key = seq<Byte>

  datatype Item = Item(score: nat, key: Key)

  /** compareStringObjects: byte by byte, a proper prefix first. */
  predicate KeyLess(a: Key, b: Key) {
    b != [] && (a == [] || a[0] < b[0] || (a[0] == b[0] && KeyLess(a[1..], b[1..])))
  }

  lemma {:induction false} KeyTotal(a: Key, b: Key)
    ensures a == b || KeyLess(a, b) || KeyLess(b, a)
    ensures !(KeyLess(a, b) && KeyLess(b, a))
  {
    if a != [] && b != [] {
      KeyTotal(a[1..], b[1..]);
      assert a[0] == b[0] && a[1..] == b[1..] ==> a == [a[0]] + a[1..] == b;
    }
  }

  lemma {:induction false} KeyTransitive(a: Key, b: Key, c: Key)
    requires KeyLess(a, b) && KeyLess(b, c)
    ensures KeyLess(a, c)
  {
    if a != [] && a[0] == b[0] == c[0] { KeyTransitive(a[1..], b[1..], c[1..]); }
  }

  /** Order of the skip list: by score, then by key. */
  predicate Less(x: Item, y: Item) {
    x.score < y.score || (x.score == y.score && KeyLess(x.key, y.key))
  }

  lemma LessTotal(x: Item, y: Item)
    ensures x == y || Less(x, y) || Less(y, x)
    ensures !(Less(x, y) && Less(y, x)) && !Less(x, x)
  {
    KeyTotal(x.key, y.key);
    KeyTotal(x.key, x.key);
  }

  lemma LessTransitive(x: Item, y: Item, z: Item)
    requires Less(x, y) && Less(y, z)
    ensures Less(x, z)
  {
    if x.score == y.score == z.score { KeyTransitive(x.key, y.key, z.key); }
  }

  ghost predicate Sorted(s: seq<Item>) {
    forall i, j | 0 <= i < j < |s| :: Less(s[i], s[j])
  }

  ghost function Items(s: seq<Item>): set<Item> {
    set x | x in s
  }

  /** The number of items before x. */
  function Place(s: seq<Item>, x: Item): (p: nat)
    ensures p <= |s|
  {
    if s == [] || !Less(s[0], x) then 0 else 1 + Place(s[1..], x)
  }

  lemma {:induction false} PlaceSplits(s: seq<Item>, x: Item)
    requires Sorted(s)
    ensures forall i | 0 <= i < Place(s, x) :: Less(s[i], x)
    ensures forall i | Place(s, x) <= i < |s| :: !Less(s[i], x)
    ensures x in s <==> Place(s, x) < |s| && s[Place(s, x)] == x
  {
    if s != [] {
      if Less(s[0], x) {
        PlaceSplits(s[1..], x);
        LessTotal(s[0], x);
        assert forall i | 1 <= i < |s| :: s[i] == s[1..][i - 1];
      } else {
        forall i | 0 <= i < |s| ensures !Less(s[i], x) && (i > 0 ==> s[i] != x) {
          LessTotal(s[0], x);
          if i > 0 && (Less(s[i], x) || s[i] == x) {
            if Less(s[i], x) { LessTransitive(s[0], s[i], x); }
          }
        }
      }
    }
  }

  /** zslInsert */
  function Insert(s: seq<Item>, x: Item): seq<Item> {
    s[..Place(s, x)] + [x] + s[Place(s, x)..]
  }

  /** zslDelete */
  function Remove(s: seq<Item>, x: Item): seq<Item> {
    var p := Place(s, x);
    if p < |s| && s[p] == x then s[..p] + s[p + 1..] else s
  }

  lemma InsertMeaning(s: seq<Item>, x: Item)
    requires Sorted(s) && x !in s
    ensures Sorted(Insert(s, x)) && Items(Insert(s, x)) == Items(s) + {x}
  {
    hide Less, Place;
    PlaceSplits(s, x);
    var p, t := Place(s, x), Insert(s, x);
    forall i | p <= i < |s| ensures Less(x, s[i]) { LessTotal(s[i], x); }
    forall i, j | 0 <= i < j < |t| ensures Less(t[i], t[j]) {
      if i < p < j { assert Less(s[i], s[j - 1]); }
    }
    assert s == s[..p] + s[p..];
  }

  lemma RemoveMeaning(s: seq<Item>, x: Item)
    requires Sorted(s)
    ensures Sorted(Remove(s, x)) && Items(Remove(s, x)) == Items(s) - {x}
  {
    hide Less, Place;
    PlaceSplits(s, x);
    var p := Place(s, x);
    if p < |s| && s[p] == x {
      assert s == s[..p] + [x] + s[p + 1..];
      forall i | 0 <= i < |s| && i != p ensures s[i] != x { LessTotal(x, x); }
    }
  }

  // ---- ranges of one score -----------------------------------------------------------------------------

  /** zslFirstInRange for one score: the position of the first item, or the length. */
  function FirstInRange(s: seq<Item>, score: nat): (p: nat)
    ensures p <= |s| && (forall i | 0 <= i < p :: s[i].score != score) && (p < |s| ==> s[p].score == score)
  {
    if s == [] || s[0].score == score then 0
    else
      var p := FirstInRange(s[1..], score);
      assert forall i | 1 <= i < |s| :: s[i] == s[1..][i - 1];
      1 + p
  }

  /** zslLastInRange: the position of the last item, or -1. */
  function LastInRange(s: seq<Item>, score: nat): (p: int)
    ensures -1 <= p < |s| && (forall i | p < i < |s| :: s[i].score != score) && (p >= 0 ==> s[p].score == score)
  {
    if s == [] then -1
    else if s[|s| - 1].score == score then |s| - 1
    else LastInRange(s[..|s| - 1], score)
  }

  /** zslGetRank: one-based, 0 when absent. */
  function Rank(s: seq<Item>, x: Item): (r: nat)
    ensures r <= |s|
  {
    var p := Place(s, x);
    if p < |s| && s[p] == x then p + 1 else 0
  }

  lemma RankAt(s: seq<Item>, p: nat)
    requires Sorted(s) && p < |s|
    ensures Rank(s, s[p]) == p + 1
  {
    hide Less, Place;
    PlaceSplits(s, s[p]);
    var q := Place(s, s[p]);
    LessTotal(s[p], s[p]);
  }

  /** Items of one score are adjacent. */
  lemma RangeIsContiguous(s: seq<Item>, score: nat, i: nat)
    requires Sorted(s) && FirstInRange(s, score) <= i <= LastInRange(s, score)
    ensures s[i].score == score
  {
    hide KeyLess, FirstInRange, LastInRange;
    var a, b := FirstInRange(s, score), LastInRange(s, score);
    assert i == a || Less(s[a], s[i]);
    assert i == b || Less(s[i], s[b]);
  }

  ghost function WithScore(s: seq<Item>, score: nat): set<Item> {
    set x | x in s && x.score == score
  }

  /** The items of one score are those from the first to the last position, each once. */
  lemma RangeSize(s: seq<Item>, score: nat)
    requires Sorted(s)
    ensures var a, b := FirstInRange(s, score), LastInRange(s, score);
            if a == |s| then WithScore(s, score) == {} else a <= b && |WithScore(s, score)| == b - a + 1
  {
    hide Less, FirstInRange, LastInRange;
    var a, b := FirstInRange(s, score), LastInRange(s, score);
    if a == |s| {
      assert WithScore(s, score) == {};
    } else {
      var part := s[a..b + 1];
      forall i | a <= i <= b ensures s[i].score == score { RangeIsContiguous(s, score, i); }
      forall x | x in WithScore(s, score) ensures x in part {
        var i :| 0 <= i < |s| && s[i] == x;
        assert part[i - a] == x;
      }
      forall x | x in part ensures x in WithScore(s, score) {
        var i :| 0 <= i < |part| && part[i] == x;
        assert s[a + i] == x;
      }
      assert WithScore(s, score) == Items(part);
      SortedSize(part);
    }
  }

  lemma {:induction false} SortedSize(s: seq<Item>)
    requires Sorted(s)
    ensures |Items(s)| == |s|
  {
    hide Less;
    if s != [] {
      var n := |s| - 1;
      SortedSize(s[..n]);
      forall i | 0 <= i < n ensures s[i] != s[n] { LessTotal(s[n], s[n]); }
      assert Items(s) == Items(s[..n]) + {s[n]};
      assert s == s[..n] + [s[n]];
    }
  }
}
