/** Sets of integers in a sorted packed array (intset.c). */
module Intset {
  import opened Buffers
  import opened IntsetBytes

  const UINT_LIMIT: nat := 0x1_0000_0000

  ghost predicate StrictlySorted(s: seq<int>) {
    forall i, j | 0 <= i < j < |s| :: s[i] < s[j]
  }

  ghost function Elements(s: seq<int>): set<int> {
    set v | v in s
  }

  /** pos is where value is, or where it belongs. */
  ghost predicate IsPosition(s: seq<int>, value: int, pos: nat) {
    pos <= |s| && (forall i | 0 <= i < pos :: s[i] < value) && (forall i | pos <= i < |s| :: value <= s[i])
  }

  function Insert(s: seq<int>, pos: nat, value: int): seq<int>
    requires pos <= |s|
  {
    s[..pos] + [value] + s[pos..]
  }

  function RemoveAt(s: seq<int>, pos: nat): seq<int>
    requires pos < |s|
  {
    s[..pos] + s[pos + 1..]
  }

  lemma InsertMeaning(s: seq<int>, pos: nat, value: int)
    requires StrictlySorted(s) && IsPosition(s, value, pos) && value !in s
    ensures StrictlySorted(Insert(s, pos, value))
    ensures Elements(Insert(s, pos, value)) == Elements(s) + {value}
  {
    var t := Insert(s, pos, value);
    assert forall i | pos <= i < |s| :: value < s[i];
    forall i, j | 0 <= i < j < |t| ensures t[i] < t[j] {
      assert t[i] == if i < pos then s[i] else if i == pos then value else s[i - 1];
      assert t[j] == if j < pos then s[j] else if j == pos then value else s[j - 1];
    }
    assert s == s[..pos] + s[pos..];
  }

  lemma RemoveMeaning(s: seq<int>, pos: nat)
    requires StrictlySorted(s) && pos < |s|
    ensures StrictlySorted(RemoveAt(s, pos))
    ensures Elements(RemoveAt(s, pos)) == Elements(s) - {s[pos]}
  {
    assert s == s[..pos] + [s[pos]] + s[pos + 1..];
  }

  /** A sorted array has as many members as positions. */
  lemma {:induction false} SortedSize(s: seq<int>)
    requires StrictlySorted(s)
    ensures |Elements(s)| == |s|
  {
    if s != [] {
      var n := |s| - 1;
      SortedSize(s[..n]);
      assert s == s[..n] + [s[n]];
      assert Elements(s) == Elements(s[..n]) + {s[n]};
    }
  }

  class Set64 {
    var encoding: int
    var length: nat
    var contents: seq<Byte>

    ghost predicate Shape()
      reads this
    {
      IsEncoding(encoding) && |contents| == Off(length, encoding)
    }

    ghost function View(): seq<int>
      requires Shape()
      reads this
    {
      Values(contents, length, encoding)
    }

    ghost predicate Valid()
      reads this
    {
      Shape() && StrictlySorted(View()) && 8 * length < UINT_LIMIT
    }

    /** intsetNew */
    constructor ()
      ensures Valid() && View() == [] && encoding == 2
    {
      encoding, length, contents := 2, 0, [];
    }

    /** intsetSearch */
    method Search(value: int) returns (found: bool, pos: nat)
      requires Valid()
      ensures found <==> value in View()
      ensures IsPosition(View(), value, pos) && (found ==> pos < length && View()[pos] == value)
    {
      hide Get;
      ghost var s := View();
      if length == 0 { return false, 0; }
      if value > Get(contents, length - 1, encoding) {
        assert s[length - 1] < value;
        return false, length;
      } else if value < Get(contents, 0, encoding) {
        assert value < s[0];
        return false, 0;
      }
      var min, max, mid, cur := 0, length - 1, -1, -1;
      while max >= min
        invariant 0 <= min <= length && -1 <= max < length && min <= max + 1
        invariant forall i | 0 <= i < min :: s[i] < value
        invariant forall i | max < i < length :: value < s[i]
        invariant if mid == -1 then min <= max else 0 <= mid < length && cur == s[mid] != value
        decreases max - min + 1
      {
        mid := (min + max) / 2;
        cur := Get(contents, mid, encoding);
        assert cur == s[mid];
        if value > cur {
          min := mid + 1;
        } else if value < cur {
          max := mid - 1;
        } else {
          break;
        }
      }
      if value == cur { return true, mid; }
      return false, min;
    }

    /** intsetResize to len elements of the current encoding; the size is a 32-bit number. */
    method ResizeTo(len: nat)
      requires IsEncoding(encoding) && 8 * len < UINT_LIMIT
      modifies this`contents
      ensures contents == Resize(old(contents), Off(len, encoding))
    {
      var size := Off(len, encoding) % UINT_LIMIT;
      contents := Resize(contents, size);
    }

    /** intsetUpgradeAndAdd: widen every value in place, from the back, and put the new value,
        which lies outside the old range, at the front or at the back. */
    method UpgradeAndAdd(value: int)
      requires Valid() && IsInt64(value) && ValueEncoding(value) > encoding && 8 * (length + 1) < UINT_LIMIT
      modifies this
      ensures Valid() && encoding == ValueEncoding(value) && length == old(length) + 1
      ensures View() == if value < 0 then [value] + old(View()) else old(View()) + [value]
    {
      hide Get, Set, Resize;
      ghost var s, curenc0 := View(), encoding;
      var curenc := encoding;
      var newenc := ValueEncoding(value);
      var prepend := if value < 0 then 1 else 0;
      encoding := newenc;
      ResizeTo(length + 1);
      forall k | 0 <= k < length ensures Get(contents, k, curenc) == s[k] {
        GetResized(old(contents), Off(length + 1, newenc), k, curenc);
      }
      Widen(curenc, prepend, s);
      var at := if prepend == 1 then 0 else length;
      forall k | 0 <= k < length ensures Get(Set(contents, at, value, newenc), k + prepend, newenc) == s[k] {
        GetSetOther(contents, at, value, newenc, k + prepend, newenc);
      }
      GetSet(contents, at, value, newenc);
      contents := Set(contents, at, value, newenc);
      length := length + 1;
      assert forall k | 0 <= k < |s| :: Get(contents, k + prepend, newenc) == s[k];
      assert View() == if value < 0 then [value] + s else s + [value];
      OutsideRange(s, value, curenc);
    }

    /** The loop of intsetUpgradeAndAdd. No value is overwritten before it was read. */
    method Widen(curenc: int, prepend: nat, ghost s: seq<int>)
      requires IsEncoding(curenc) && IsEncoding(encoding) && curenc < encoding && prepend <= 1
      requires |contents| == Off(length + 1, encoding) && |s| == length
      requires forall k | 0 <= k < length :: Get(contents, k, curenc) == s[k]
      modifies this`contents
      ensures |contents| == Off(length + 1, encoding)
      ensures forall k | 0 <= k < length :: Get(contents, k + prepend, encoding) == s[k]
    {
      hide Get, Set;
      var len := length;
      while len > 0
        invariant 0 <= len <= length && |contents| == Off(length + 1, encoding)
        invariant forall k | 0 <= k < len :: Get(contents, k, curenc) == s[k]
        invariant forall k | len <= k < length :: Get(contents, k + prepend, encoding) == s[k]
      {
        len := len - 1;
        var v := Get(contents, len, curenc);
        forall k | 0 <= k < len ensures Get(Set(contents, len + prepend, v, encoding), k, curenc) == s[k] {
          GetSetOther(contents, len + prepend, v, encoding, k, curenc);
        }
        forall k | len < k < length ensures Get(Set(contents, len + prepend, v, encoding), k + prepend, encoding) == s[k] {
          GetSetOther(contents, len + prepend, v, encoding, k + prepend, encoding);
        }
        GetSet(contents, len + prepend, v, encoding);
        contents := Set(contents, len + prepend, v, encoding);
      }
    }

    /** Step 3 of intsetAdd: make room at pos and write the value. */
    method InsertAt(pos: nat, value: int)
      requires Shape() && pos <= length && InRange(value, encoding) && 8 * (length + 1) < UINT_LIMIT
      modifies this`contents, this`length
      ensures Shape() && length == old(length) + 1 && View() == Insert(old(View()), pos, value)
    {
      hide Get, Set, Resize, MoveTail, Insert;
      InsertedValues(contents, length, pos, value, encoding);
      ResizeTo(length + 1);
      if pos < length {
        contents := MoveTail(contents, pos, pos + 1, length - pos, encoding);
      }
      contents := Set(contents, pos, value, encoding);
      length := length + 1;
    }

    /** intsetAdd */
    method Add(value: int) returns (success: bool)
      requires Valid() && IsInt64(value) && 8 * (length + 1) < UINT_LIMIT
      modifies this
      ensures Valid() && Elements(View()) == Elements(old(View())) + {value}
      ensures success <==> value !in old(View())
      ensures encoding == if ValueEncoding(value) > old(encoding) then ValueEncoding(value) else old(encoding)
    {
      hide Get;
      if ValueEncoding(value) > encoding {
        UpgradeAndAdd(value);
        UpgradedElements(old(View()), value, old(encoding));
        return true;
      }
      var found, pos := Search(value);
      if found { return false; }
      InsertMeaning(View(), pos, value);
      InsertAt(pos, value);
      return true;
    }

    /** intsetRemove */
    method Remove(value: int) returns (success: bool)
      requires Valid() && IsInt64(value)
      modifies this
      ensures Valid() && Elements(View()) == Elements(old(View())) - {value}
      ensures success <==> value in old(View())
      ensures encoding == old(encoding)
    {
      hide Get;
      if ValueEncoding(value) > encoding {
        NotInRange(View(), value, encoding);
        return false;
      }
      var found, pos := Search(value);
      if !found { return false; }
      RemoveMeaning(View(), pos);
      DeleteAt(pos);
      return true;
    }

    method DeleteAt(pos: nat)
      requires Shape() && pos < length && 8 * length < UINT_LIMIT
      modifies this`contents, this`length
      ensures Shape() && length == old(length) - 1 && View() == RemoveAt(old(View()), pos)
    {
      hide Get, Resize, MoveTail, RemoveAt;
      DeletedValues(contents, length, pos, encoding);
      var len := length;
      if pos < len - 1 {
        contents := MoveTail(contents, pos + 1, pos, len - (pos + 1), encoding);
      }
      ResizeTo(len - 1);
      length := len - 1;
    }

    /** intsetFind */
    method Find(value: int) returns (found: bool)
      requires Valid() && IsInt64(value)
      ensures found <==> value in Elements(View())
    {
      hide Get;
      if ValueEncoding(value) > encoding {
        NotInRange(View(), value, encoding);
        return false;
      }
      var pos;
      found, pos := Search(value);
    }
  }

  /** The bytes after making room at pos and writing a value there. */
  function InsertedBytes(c: seq<Byte>, n: nat, pos: nat, value: int, enc: int): (r: seq<Byte>)
    requires IsEncoding(enc) && |c| == Off(n, enc) && pos <= n && InRange(value, enc)
    ensures |r| == Off(n + 1, enc)
  {
    var c1 := Resize(c, Off(n + 1, enc));
    Set(if pos < n then MoveTail(c1, pos, pos + 1, n - pos, enc) else c1, pos, value, enc)
  }

  lemma InsertedValue(c: seq<Byte>, n: nat, pos: nat, value: int, enc: int, k: nat)
    requires IsEncoding(enc) && |c| == Off(n, enc) && pos <= n && InRange(value, enc) && k <= n
    ensures Get(InsertedBytes(c, n, pos, value, enc), k, enc)
            == if k < pos then Get(c, k, enc) else if k == pos then value else Get(c, k - 1, enc)
  {
    hide Get, Set, Resize, MoveTail;
    var c1 := Resize(c, Off(n + 1, enc));
    var c2 := if pos < n then MoveTail(c1, pos, pos + 1, n - pos, enc) else c1;
    if k == pos {
      GetSet(c2, pos, value, enc);
    } else {
      GetSetOther(c2, pos, value, enc, k, enc);
      if pos < n { GetMoved(c1, pos, pos + 1, n - pos, enc, k); }
      GetResized(c, Off(n + 1, enc), if k < pos then k else k - 1, enc);
    }
  }

  lemma InsertedValues(c: seq<Byte>, n: nat, pos: nat, value: int, enc: int)
    requires IsEncoding(enc) && |c| == Off(n, enc) && pos <= n && InRange(value, enc)
    ensures Values(InsertedBytes(c, n, pos, value, enc), n + 1, enc) == Insert(Values(c, n, enc), pos, value)
  {
    hide Get, InsertedBytes;
    var s, t := Values(c, n, enc), Values(InsertedBytes(c, n, pos, value, enc), n + 1, enc);
    forall k | 0 <= k < n + 1 ensures t[k] == Insert(s, pos, value)[k] {
      InsertedValue(c, n, pos, value, enc, k);
    }
  }

  /** The bytes after closing the gap at pos. */
  function DeletedBytes(c: seq<Byte>, n: nat, pos: nat, enc: int): (r: seq<Byte>)
    requires IsEncoding(enc) && |c| == Off(n, enc) && pos < n
    ensures |r| == Off(n - 1, enc)
  {
    Resize(if pos < n - 1 then MoveTail(c, pos + 1, pos, n - (pos + 1), enc) else c, Off(n - 1, enc))
  }

  lemma DeletedValues(c: seq<Byte>, n: nat, pos: nat, enc: int)
    requires IsEncoding(enc) && |c| == Off(n, enc) && pos < n
    ensures Values(DeletedBytes(c, n, pos, enc), n - 1, enc) == RemoveAt(Values(c, n, enc), pos)
  {
    hide Get, Resize, MoveTail;
    var c1 := if pos < n - 1 then MoveTail(c, pos + 1, pos, n - (pos + 1), enc) else c;
    var s, t := Values(c, n, enc), Values(DeletedBytes(c, n, pos, enc), n - 1, enc);
    forall k | 0 <= k < n - 1 ensures t[k] == RemoveAt(s, pos)[k] {
      GetResized(c1, Off(n - 1, enc), k, enc);
      if pos < n - 1 { GetMoved(c, pos + 1, pos, n - (pos + 1), enc, k); }
    }
  }

  lemma NotInRange(s: seq<int>, value: int, enc: int)
    requires IsEncoding(enc) && IsInt64(value) && ValueEncoding(value) > enc
    requires forall i | 0 <= i < |s| :: InRange(s[i], enc)
    ensures value !in s
  {
  }

  /** A value that needs a wider encoding is beyond all present values. */
  lemma OutsideRange(s: seq<int>, value: int, enc: int)
    requires IsEncoding(enc) && IsInt64(value) && ValueEncoding(value) > enc
    requires StrictlySorted(s) && forall i | 0 <= i < |s| :: InRange(s[i], enc)
    ensures StrictlySorted(if value < 0 then [value] + s else s + [value])
  {
  }

  lemma UpgradedElements(s: seq<int>, value: int, enc: int)
    requires IsEncoding(enc) && IsInt64(value) && ValueEncoding(value) > enc
    requires forall i | 0 <= i < |s| :: InRange(s[i], enc)
    ensures value !in s
    ensures Elements(if value < 0 then [value] + s else s + [value]) == Elements(s) + {value}
  {
    NotInRange(s, value, enc);
  }
}
