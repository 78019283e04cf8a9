/** PFADD and PFMERGE (hyperloglog.c): the registers depend only on the set of elements that
    went in, however they were spread over objects, encodings and merges. */
module HllMerge {
  import opened Basics
  import opened Words
  import opened HllDense
  import opened HllSparse
  import opened HyperLogLog

  /** Registers after adding an element with this hash. */
  function Added(regs: seq<nat>, hash: nat): (r: seq<nat>)
    requires |regs| == REGISTERS
    ensures |r| == REGISTERS
  {
    regs[Index(hash) := Max(regs[Index(hash)], Count(hash))]
  }

  function AddedAll(regs: seq<nat>, hashes: seq<nat>): (r: seq<nat>)
    requires |regs| == REGISTERS
    ensures |r| == REGISTERS
    decreases |hashes|
  {
    if hashes == [] then regs else AddedAll(Added(regs, hashes[0]), hashes[1..])
  }

  /** The maximum of a list of registers, from all zero as in PFMERGE. */
  function Merged(parts: seq<seq<nat>>): (r: seq<nat>)
    requires forall i | 0 <= i < |parts| :: |parts[i]| == REGISTERS
    ensures |r| == REGISTERS
  {
    if parts == [] then Repeat(0, REGISTERS)
    else MaxRegs(Merged(parts[..|parts| - 1]), parts[|parts| - 1])
  }

  // ---- what registers mean -----------------------------------------------------------------

  /** Register i holds the longest pattern among the elements that belong to it. */
  ghost predicate Longest(value: nat, i: nat, elems: set<nat>) {
    && (forall h | h in elems && Index(h) == i :: Count(h) <= value)
    && (value == 0 || exists h :: h in elems && Index(h) == i && Count(h) == value)
  }

  ghost predicate Summarizes(regs: seq<nat>, elems: set<nat>) {
    |regs| == REGISTERS && forall i | 0 <= i < REGISTERS :: Longest(regs[i], i, elems)
  }

  /** A set of elements determines the registers. */
  lemma SummaryUnique(a: seq<nat>, b: seq<nat>, elems: set<nat>)
    requires Summarizes(a, elems) && Summarizes(b, elems)
    ensures a == b
  {
    hide Index, Count;
    forall i | 0 <= i < REGISTERS ensures a[i] == b[i] {
      assert Longest(a[i], i, elems) && Longest(b[i], i, elems);
    }
  }

  lemma SummaryEmpty()
    ensures Summarizes(Repeat(0, REGISTERS), {})
  {
  }

  lemma SummaryAdd(regs: seq<nat>, elems: set<nat>, hash: nat)
    requires Summarizes(regs, elems)
    ensures Summarizes(Added(regs, hash), elems + {hash})
  {
    hide Index, Count;
    var regs' := Added(regs, hash);
    forall i | 0 <= i < REGISTERS ensures Longest(regs'[i], i, elems + {hash}) {
      assert Longest(regs[i], i, elems);
      if i == Index(hash) && Count(hash) > regs[i] {
        assert hash in elems + {hash};
      } else if regs[i] != 0 {
        var h :| h in elems && Index(h) == i && Count(h) == regs[i];
        assert h in elems + {hash};
      }
    }
  }

  lemma SummaryMerge(a: seq<nat>, ea: set<nat>, b: seq<nat>, eb: set<nat>)
    requires Summarizes(a, ea) && Summarizes(b, eb)
    ensures Summarizes(MaxRegs(a, b), ea + eb)
  {
    hide Index, Count;
    var m := MaxRegs(a, b);
    forall i | 0 <= i < REGISTERS ensures Longest(m[i], i, ea + eb) {
      assert Longest(a[i], i, ea) && Longest(b[i], i, eb);
      if m[i] != 0 {
        var elems := if a[i] >= b[i] then ea else eb;
        var h :| h in elems && Index(h) == i && Count(h) == m[i];
        assert h in ea + eb;
      }
    }
  }

  function Elements(hashes: seq<nat>): set<nat> {
    set h | h in hashes
  }

  lemma {:induction false} SummaryAddAll(regs: seq<nat>, elems: set<nat>, hashes: seq<nat>)
    requires Summarizes(regs, elems)
    ensures Summarizes(AddedAll(regs, hashes), elems + Elements(hashes))
    decreases |hashes|
  {
    hide Summarizes, Added;
    if hashes == [] {
      assert elems + Elements(hashes) == elems;
    } else {
      AddedSize(regs, elems);
      SummaryAdd(regs, elems, hashes[0]);
      SummaryAddAll(Added(regs, hashes[0]), elems + {hashes[0]}, hashes[1..]);
      assert hashes == [hashes[0]] + hashes[1..];
      assert elems + {hashes[0]} + Elements(hashes[1..]) == elems + Elements(hashes);
    }
  }

  lemma AddedSize(regs: seq<nat>, elems: set<nat>)
    requires Summarizes(regs, elems)
    ensures |regs| == REGISTERS
  {
  }

  // ---- the homomorphism ---------------------------------------------------------------------

  /** The registers of an object to which these elements were added. */
  function Built(hashes: seq<nat>): (r: seq<nat>)
    ensures |r| == REGISTERS
  {
    AddedAll(Repeat(0, REGISTERS), hashes)
  }

  function BuiltEach(parts: seq<seq<nat>>): (r: seq<seq<nat>>)
    ensures |r| == |parts| && forall i | 0 <= i < |r| :: |r[i]| == REGISTERS
  {
    seq(|parts|, i requires 0 <= i < |parts| => Built(parts[i]))
  }

  function ElementsOf(parts: seq<seq<nat>>): set<nat> {
    set part, h | part in parts && h in part :: h
  }

  lemma BuiltSummary(hashes: seq<nat>)
    ensures Summarizes(Built(hashes), Elements(hashes))
  {
    SummaryEmpty();
    SummaryAddAll(Repeat(0, REGISTERS), {}, hashes);
    assert {} + Elements(hashes) == Elements(hashes);
  }

  lemma {:induction false} MergedSummary(parts: seq<seq<nat>>)
    ensures Summarizes(Merged(BuiltEach(parts)), ElementsOf(parts))
    decreases |parts|
  {
    hide Summarizes, Built, MaxRegs;
    if parts == [] {
      SummaryEmpty();
      assert ElementsOf(parts) == {};
    } else {
      var init, last := parts[..|parts| - 1], parts[|parts| - 1];
      MergedSummary(init);
      BuiltSummary(last);
      SummaryMerge(Merged(BuiltEach(init)), ElementsOf(init), Built(last), Elements(last));
      assert BuiltEach(parts)[..|parts| - 1] == BuiltEach(init);
      assert parts == init + [last];
      assert ElementsOf(init) + Elements(last) == ElementsOf(parts);
    }
  }

  /** Adding elements to several objects and merging them gives what adding all of them to a
      single object gives, in whatever order and however often each element occurs. */
  lemma MergeIsHomomorphism(parts: seq<seq<nat>>, all: seq<nat>)
    requires ElementsOf(parts) == Elements(all)
    ensures Merged(BuiltEach(parts)) == Built(all)
  {
    hide Summarizes, Built, Merged;
    MergedSummary(parts);
    BuiltSummary(all);
    SummaryUnique(Merged(BuiltEach(parts)), Built(all), Elements(all));
  }

  // ---- the commands -------------------------------------------------------------------------

  /** The loop of pfaddCommand; updated counts the elements that changed a register. */
  method PfAdd(o: Hll, hashes: seq<nat>, maxBytes: nat) returns (updated: nat)
    requires o.Valid() && forall i | 0 <= i < |hashes| :: hashes[i] < Pow2(64)
    modifies o
    ensures o.Valid() && o.Regs() == AddedAll(old(o.Regs()), hashes)
    ensures updated > 0 <==> o.Regs() != old(o.Regs())
  {
    hide Pow2, Index, Count;
    updated := 0;
    ghost var start := o.Regs();
    for j := 0 to |hashes|
      invariant o.Valid() && AddedAll(o.Regs(), hashes[j..]) == AddedAll(start, hashes)
      invariant Below(start, o.Regs())
      invariant updated > 0 <==> o.Regs() != start
    {
      ghost var was := o.Regs();
      var r := o.AddElement(hashes[j], maxBytes);
      assert hashes[j..][0] == hashes[j] && hashes[j..][1..] == hashes[j + 1..];
      if r == 1 {
        NeverBack(start, was, o.Regs());
        updated := updated + 1;
      }
    }
  }

  ghost predicate Below(a: seq<nat>, b: seq<nat>) {
    |a| == |b| && forall i | 0 <= i < |a| :: a[i] <= b[i]
  }

  /** Registers only rise, so a change is never undone. */
  lemma NeverBack(a: seq<nat>, b: seq<nat>, c: seq<nat>)
    requires Below(a, b) && Below(b, c) && b != c
    ensures a != c
  {
    var i :| 0 <= i < |b| && b[i] != c[i];
  }

  ghost predicate AllReadable(objs: seq<Hll?>)
    reads objs
  {
    forall i | 0 <= i < |objs| :: objs[i] != null ==> objs[i].Readable()
  }

  ghost predicate AllValid(objs: seq<Hll?>)
    reads objs
  {
    forall i | 0 <= i < |objs| :: objs[i] != null ==> objs[i].Valid()
  }

  /** The registers of each object; a missing key counts as an empty object. */
  ghost function Views(objs: seq<Hll?>): (r: seq<seq<nat>>)
    requires AllValid(objs)
    reads objs
    ensures |r| == |objs| && forall i | 0 <= i < |r| :: |r[i]| == REGISTERS
  {
    if objs == [] then []
    else
      var last := objs[|objs| - 1];
      Views(objs[..|objs| - 1]) + [if last == null then Repeat(0, REGISTERS) else last.Regs()]
  }

  /** Every register value fits the six bits of the dense encoding. */
  ghost predicate Fit(regs: seq<nat>) {
    forall i | 0 <= i < |regs| :: regs[i] < Pow2(BITS)
  }

  lemma RegsFit(o: Hll)
    requires o.Valid()
    ensures Fit(o.Regs())
  {
    hide Parses, Expand, Pow2;
    forall i | 0 <= i < REGISTERS ensures o.Regs()[i] < Pow2(BITS) {
      if o.dense {
        RegisterBits(o.buf, i, 0);
      } else {
        SparseValuesSmall(o.buf[..o.len], i);
        CountFits(o.Regs()[i]);
      }
    }
  }

  /** The first loop of pfmergeCommand: the maximum of all objects, or a refusal. */
  method MergeSources(objs: seq<Hll?>) returns (ok: bool, max: array<nat>)
    requires AllReadable(objs)
    ensures fresh(max) && max.Length == REGISTERS
    ensures ok == AllValid(objs)
    ensures ok ==> max[..] == Merged(Views(objs)) && Fit(max[..])
  {
    hide Pow2, Hll.Valid, Hll.Regs, Hll.Readable, Merged, Views, Parses, Expand;
    max := new nat[REGISTERS](_ => 0);
    NothingMerged();
    assert objs[..0] == [];
    assert max[..] == Repeat(0, REGISTERS);
    CountFits(0);
    for j := 0 to |objs|
      invariant AllReadable(objs) && AllValid(objs[..j])
      invariant max[..] == Merged(Views(objs[..j])) && Fit(max[..])
    {
      assert objs[..j + 1][..j] == objs[..j] && objs[..j + 1][j] == objs[j];
      ghost var now := max[..];
      if objs[j] == null {
        MaxZero(now);
      } else {
        var merged := objs[j].MergeInto(max);
        if !merged { return false, max; }
        RegsFit(objs[j]);
      }
      ViewsStep(objs, j);
    }
    assert objs[..|objs|] == objs;
    return true, max;
  }

  lemma NothingMerged()
    ensures Merged(Views([])) == Repeat(0, REGISTERS)
  {
  }

  lemma ViewsStep(objs: seq<Hll?>, j: nat)
    requires j < |objs| && AllValid(objs[..j]) && (objs[j] != null ==> objs[j].Valid())
    ensures AllValid(objs[..j + 1])
    ensures Merged(Views(objs[..j + 1]))
            == MaxRegs(Merged(Views(objs[..j])), if objs[j] == null then Repeat(0, REGISTERS) else objs[j].Regs())
  {
    hide Hll.Valid, Hll.Regs, MaxRegs, Parses, Expand;
    var part := objs[..j + 1];
    assert part[..j] == objs[..j] && part[j] == objs[j];
    assert Views(part)[..j] == Views(objs[..j]);
  }

  lemma MaxZero(regs: seq<nat>)
    requires |regs| == REGISTERS
    ensures MaxRegs(regs, Repeat(0, REGISTERS)) == regs
  {
  }

  /** The last loop of pfmergeCommand. */
  method WriteRegisters(dest: Hll, max: array<nat>)
    requires dest.Valid() && dest.dense && max.Length == REGISTERS && Fit(max[..])
    modifies dest`buf
    ensures dest.Valid() && dest.Regs() == max[..]
  {
    hide Pow2, DenseOk, GetRegister, SetRegister;
    var d := dest.buf;
    DenseSize(d);
    for j := 0 to REGISTERS
      invariant DenseOk(d) && |d| == DENSE_BYTES
      invariant forall k | 0 <= k < j :: Registers(d)[k] == max[k]
    {
      SetRegisterMeaning(d, j, max[j]);
      d := SetRegister(d, j, max[j]);
      DenseSize(d);
    }
    dest.buf := d;
  }

  /** pfmergeCommand over the looked-up keys, the destination first: it becomes the dense
      maximum of all, itself included; nothing changes if some object is refused. */
  method PfMerge(objs: seq<Hll?>) returns (dest: Hll?, ok: bool)
    requires objs != [] && AllReadable(objs)
    modifies objs[0]
    ensures ok == old(AllValid(objs))
    ensures !ok && objs[0] != null ==> unchanged(objs[0])
    ensures ok ==> dest != null && (if objs[0] == null then fresh(dest) else dest == objs[0])
    ensures ok ==> dest.Valid() && dest.dense && dest.Regs() == Merged(old(Views(objs)))
  {
    var merged, max := MergeSources(objs);
    if !merged { return null, false; }
    dest := objs[0];
    if dest == null { dest := new Hll(); }
    ok := dest.SparseToDense();
    assert ok;
    WriteRegisters(dest, max);
  }
}
