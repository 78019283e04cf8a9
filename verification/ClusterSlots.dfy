/** Hash slot ownership (cluster.c): the table from slots to nodes, the bitmap and counter
    of every node, and the handlers that rebind slots. */
module ClusterSlots {
  import opened Basics
  import opened Words
  import opened ReverseBits
  import opened ClusterEpochs

  /** REDIS_CLUSTER_SLOTS */
  const SLOTS: nat := 16384

  /** A bitmap of SLOTS bits in bytes, low bit first. */
  type Bitmap = seq<nat>

  /** The flags that matter here. A node in handshake is known under a random name until it
      answers, and is neither master nor slave. */
  datatype Flags = Flags(handshake: bool, master: bool, slave: bool)

  const HANDSHAKING := Flags(true, false, false)
  const MASTER := Flags(false, true, false)
  const SLAVE := Flags(false, false, true)

  datatype Node = Node(flags: Flags, slaveof: Option<Name>, configEpoch: nat, bitmap: Bitmap, numslots: int)

  // ---- bitmaps -----------------------------------------------------------------------

  ghost predicate BitmapOk(bm: Bitmap) {
    |bm| == SLOTS / 8 && forall b | 0 <= b < |bm| :: bm[b] < Pow2(8)
  }

  predicate TestBit(bm: Bitmap, pos: nat)
    requires pos / 8 < |bm|
  {
    And(bm[pos / 8], Pow2(pos % 8)) != 0
  }

  function SetBit(bm: Bitmap, pos: nat): Bitmap
    requires pos / 8 < |bm|
  {
    bm[pos / 8 := Or(bm[pos / 8], Pow2(pos % 8))]
  }

  function ClearBit(bm: Bitmap, pos: nat): Bitmap
    requires pos / 8 < |bm|
  {
    Pow2Monotone(pos % 8, 8);
    bm[pos / 8 := And(bm[pos / 8], Not(8, Pow2(pos % 8)))]
  }

  lemma TestIsBit(bm: Bitmap, pos: nat)
    requires pos / 8 < |bm|
    ensures TestBit(bm, pos) == Bit(bm[pos / 8], pos % 8)
  {
    AndPow2(bm[pos / 8], pos % 8);
  }

  /** Slot j is bit j % 8 of byte j / 8, the lowest bit first. */
  lemma TestBitDigit(bm: Bitmap, pos: nat)
    requires pos / 8 < |bm|
    ensures TestBit(bm, pos) <==> bm[pos / 8] / Pow2(pos % 8) % 2 == 1
  {
    hide TestBit, Bit, Pow2;
    TestIsBit(bm, pos);
    BitIsDigit(bm[pos / 8], pos % 8);
  }

  /** Setting a bit sets that bit and no other. */
  lemma SetBitMeaning(bm: Bitmap, pos: nat, q: nat)
    requires BitmapOk(bm) && pos < SLOTS && q < SLOTS
    ensures BitmapOk(SetBit(bm, pos))
    ensures TestBit(SetBit(bm, pos), q) == (q == pos || TestBit(bm, q))
  {
    hide Bit, Or, And, Pow2, Not;
    var x := bm[pos / 8];
    Pow2Monotone(pos % 8, 8);
    OrBound(x, Pow2(pos % 8), 8);
    TestIsBit(SetBit(bm, pos), q);
    TestIsBit(bm, q);
    BitOr(x, Pow2(pos % 8), q % 8);
    BitPow2(pos % 8, q % 8);
  }

  lemma ClearBitMeaning(bm: Bitmap, pos: nat, q: nat)
    requires BitmapOk(bm) && pos < SLOTS && q < SLOTS
    ensures BitmapOk(ClearBit(bm, pos))
    ensures TestBit(ClearBit(bm, pos), q) == (q != pos && TestBit(bm, q))
  {
    hide Bit, Or, And, Pow2, Not;
    var x := bm[pos / 8];
    Pow2Monotone(pos % 8, 8);
    AndBound(x, Not(8, Pow2(pos % 8)), 8);
    TestIsBit(ClearBit(bm, pos), q);
    TestIsBit(bm, q);
    BitAnd(x, Not(8, Pow2(pos % 8)), q % 8);
    BitNot(8, Pow2(pos % 8), q % 8);
    BitPow2(pos % 8, q % 8);
  }

  /** The number of set bits among the first n. */
  ghost function CountBits(bm: Bitmap, n: nat): nat
    requires BitmapOk(bm) && n <= SLOTS
  {
    if n == 0 then 0 else CountBits(bm, n - 1) + if TestBit(bm, n - 1) then 1 else 0
  }

  lemma {:induction false} CountAfterChange(bm: Bitmap, bm': Bitmap, pos: nat, n: nat)
    requires BitmapOk(bm) && BitmapOk(bm') && pos < SLOTS && n <= SLOTS
    requires forall q | 0 <= q < SLOTS && q != pos :: TestBit(bm', q) == TestBit(bm, q)
    requires TestBit(bm', pos) != TestBit(bm, pos)
    ensures CountBits(bm', n) == CountBits(bm, n) + if pos >= n then 0 else if TestBit(bm', pos) then 1 else -1
  {
    if n > 0 { CountAfterChange(bm, bm', pos, n - 1); }
  }

  lemma {:induction false} CountZero(bm: Bitmap, n: nat)
    requires BitmapOk(bm) && n <= SLOTS
    ensures CountBits(bm, n) == 0 <==> forall q | 0 <= q < n :: !TestBit(bm, q)
  {
    if n > 0 { CountZero(bm, n - 1); }
  }

  // ---- consistency ---------------------------------------------------------------------

  ghost predicate NodeOk(n: Node) {
    BitmapOk(n.bitmap) && n.numslots == CountBits(n.bitmap, SLOTS)
  }

  /** slots[j] is n exactly when bit j of n's bitmap is set; so bitmaps are disjoint. */
  ghost predicate Agree(nodes: map<Name, Node>, slots: seq<Option<Name>>) {
    && |slots| == SLOTS
    && (forall n | n in nodes :: NodeOk(nodes[n]))
    && (forall j | 0 <= j < SLOTS :: slots[j].Some? ==> slots[j].value in nodes)
    && (forall n | n in nodes :: OwnBits(nodes[n].bitmap, slots, n))
  }

  ghost predicate OwnBits(bm: Bitmap, slots: seq<Option<Name>>, n: Name)
    requires BitmapOk(bm) && |slots| == SLOTS
  {
    forall j | 0 <= j < SLOTS :: TestBit(bm, j) <==> slots[j] == Some(n)
  }

  lemma AgreeSize(nodes: map<Name, Node>, slots: seq<Option<Name>>)
    requires Agree(nodes, slots)
    ensures |slots| == SLOTS
  {
  }

  /** A node owns no slot exactly when its counter is zero. */
  lemma NoSlots(nodes: map<Name, Node>, slots: seq<Option<Name>>, n: Name)
    requires Agree(nodes, slots) && n in nodes
    ensures nodes[n].numslots == 0 <==> forall j | 0 <= j < SLOTS :: slots[j] != Some(n)
  {
    CountZero(nodes[n].bitmap, SLOTS);
    assert forall j | 0 <= j < SLOTS :: TestBit(nodes[n].bitmap, j) <==> slots[j] == Some(n);
    if nodes[n].numslots == 0 {
      forall j | 0 <= j < SLOTS ensures slots[j] != Some(n) {
        assert !TestBit(nodes[n].bitmap, j);
      }
    }
  }

  lemma BitTellsOwner(nodes: map<Name, Node>, slots: seq<Option<Name>>, n: Name, j: nat)
    requires Agree(nodes, slots) && n in nodes && j < SLOTS
    ensures |slots| == SLOTS && j / 8 < |nodes[n].bitmap|
    ensures TestBit(nodes[n].bitmap, j) <==> slots[j] == Some(n)
  {
  }

  lemma OwnerKnown(nodes: map<Name, Node>, slots: seq<Option<Name>>, j: nat)
    requires Agree(nodes, slots) && j < SLOTS
    ensures |slots| == SLOTS && (slots[j].Some? ==> slots[j].value in nodes)
  {
  }

  /** Rebinding one slot changes one entry, at most two bitmaps and two counters. */
  lemma BindAgrees(nodes: map<Name, Node>, slots: seq<Option<Name>>, n: Name, j: nat)
    requires Agree(nodes, slots) && n in nodes && j < SLOTS && slots[j].None?
    ensures j / 8 < |nodes[n].bitmap|
    ensures var x := nodes[n];
            Agree(nodes[n := x.(bitmap := SetBit(x.bitmap, j), numslots := x.numslots + 1)], slots[j := Some(n)])
  {
    var x := nodes[n];
    forall q | 0 <= q < SLOTS ensures TestBit(SetBit(x.bitmap, j), q) == (q == j || TestBit(x.bitmap, q)) {
      SetBitMeaning(x.bitmap, j, q);
    }
    SetBitMeaning(x.bitmap, j, j);
    CountAfterChange(x.bitmap, SetBit(x.bitmap, j), j, SLOTS);
  }

  lemma UnbindAgrees(nodes: map<Name, Node>, slots: seq<Option<Name>>, j: nat)
    requires Agree(nodes, slots) && j < SLOTS && slots[j].Some?
    ensures slots[j].value in nodes && j / 8 < |nodes[slots[j].value].bitmap|
    ensures var n := slots[j].value; var x := nodes[n];
            Agree(nodes[n := x.(bitmap := ClearBit(x.bitmap, j), numslots := x.numslots - 1)], slots[j := None])
  {
    var n := slots[j].value;
    var x := nodes[n];
    forall q | 0 <= q < SLOTS ensures TestBit(ClearBit(x.bitmap, j), q) == (q != j && TestBit(x.bitmap, q)) {
      ClearBitMeaning(x.bitmap, j, q);
    }
    ClearBitMeaning(x.bitmap, j, j);
    CountAfterChange(x.bitmap, ClearBit(x.bitmap, j), j, SLOTS);
  }

  /** Two node tables are the same except for the slots of the nodes. */
  ghost predicate SameNodes(a: map<Name, Node>, b: map<Name, Node>) {
    && a.Keys == b.Keys
    && forall n | n in a :: a[n].flags == b[n].flags && a[n].slaveof == b[n].slaveof && a[n].configEpoch == b[n].configEpoch
  }

  /** Whether an update by the sender takes slot j. */
  predicate Takes(nodes: map<Name, Node>, slots: seq<Option<Name>>, importing: seq<Option<Name>>,
                  claimed: Bitmap, sender: Name, epoch: nat, j: nat)
    requires j < |slots| && j < |importing| && j / 8 < |claimed|
  {
    && TestBit(claimed, j) && slots[j] != Some(sender) && importing[j].None?
    && match slots[j]
       case None => true
       case Some(n) => n in nodes && nodes[n].configEpoch < epoch
  }

  /** The slot table after the sender took what it may among the first n slots. */
  ghost predicate Taken(nodes: map<Name, Node>, slots: seq<Option<Name>>, importing: seq<Option<Name>>,
                        claimed: Bitmap, sender: Name, epoch: nat, n: nat, slots': seq<Option<Name>>)
    requires |slots| == |importing| == SLOTS && |claimed| == SLOTS / 8
  {
    && |slots'| == SLOTS
    && forall q | 0 <= q < SLOTS ::
         slots'[q] == if q < n && Takes(nodes, slots, importing, claimed, sender, epoch, q) then Some(sender) else slots[q]
  }

  /** Some slot among the first n with this owner is taken. */
  ghost predicate LosesSlot(nodes: map<Name, Node>, slots: seq<Option<Name>>, importing: seq<Option<Name>>,
                            claimed: Bitmap, sender: Name, epoch: nat, n: nat, owner: Option<Name>)
    requires |slots| == |importing| == SLOTS && |claimed| == SLOTS / 8
  {
    exists q :: 0 <= q < n && q < SLOTS && slots[q] == owner && Takes(nodes, slots, importing, claimed, sender, epoch, q)
  }

  lemma SameTakes(a: map<Name, Node>, b: map<Name, Node>, slots: seq<Option<Name>>, slots': seq<Option<Name>>,
                  importing: seq<Option<Name>>, claimed: Bitmap, sender: Name, epoch: nat, j: nat)
    requires SameNodes(b, a) && |slots| == |slots'| == |importing| == SLOTS && |claimed| == SLOTS / 8 && j < SLOTS
    requires slots[j] == slots'[j]
    ensures Takes(b, slots', importing, claimed, sender, epoch, j)
            == Takes(a, slots, importing, claimed, sender, epoch, j)
  {
  }

  lemma LosesNext(nodes: map<Name, Node>, slots: seq<Option<Name>>, importing: seq<Option<Name>>,
                  claimed: Bitmap, sender: Name, epoch: nat, n: nat, owner: Option<Name>)
    requires |slots| == |importing| == SLOTS && |claimed| == SLOTS / 8 && n < SLOTS
    ensures LosesSlot(nodes, slots, importing, claimed, sender, epoch, n + 1, owner)
            <==> (|| LosesSlot(nodes, slots, importing, claimed, sender, epoch, n, owner)
                  || (slots[n] == owner && Takes(nodes, slots, importing, claimed, sender, epoch, n)))
  {
  }

  /** Every slot of this owner is taken. */
  ghost predicate LosesAll(nodes: map<Name, Node>, slots: seq<Option<Name>>, importing: seq<Option<Name>>,
                           claimed: Bitmap, sender: Name, epoch: nat, owner: Option<Name>)
    requires |slots| == |importing| == SLOTS && |claimed| == SLOTS / 8
  {
    forall q | 0 <= q < SLOTS && slots[q] == owner :: Takes(nodes, slots, importing, claimed, sender, epoch, q)
  }

  /** The slots of an owner before and after a claim of another node tell which were taken. */
  lemma LossShows(nodes: map<Name, Node>, slots: seq<Option<Name>>, importing: seq<Option<Name>>,
                  claimed: Bitmap, sender: Name, epoch: nat, slots': seq<Option<Name>>, owner: Option<Name>)
    requires |slots| == |importing| == SLOTS && |claimed| == SLOTS / 8
    requires Taken(nodes, slots, importing, claimed, sender, epoch, SLOTS, slots')
    ensures LosesSlot(nodes, slots, importing, claimed, sender, epoch, SLOTS, owner)
            <==> exists j :: 0 <= j < SLOTS && slots[j] == owner && slots'[j] != owner
    ensures owner.Some? && owner != Some(sender) ==>
              (LosesAll(nodes, slots, importing, claimed, sender, epoch, owner) <==> forall j | 0 <= j < SLOTS :: slots'[j] != owner)
  {
    hide TestBit;
  }

  /** Which slots a claim takes, in full. */
  lemma TakenInFull(nodes: map<Name, Node>, slots: seq<Option<Name>>, importing: seq<Option<Name>>,
                    claimed: Bitmap, sender: Name, epoch: nat, slots': seq<Option<Name>>)
    requires |slots| == |importing| == SLOTS && |claimed| == SLOTS / 8 && Agree(nodes, slots)
    requires Taken(nodes, slots, importing, claimed, sender, epoch, SLOTS, slots')
    ensures forall j | 0 <= j < SLOTS :: slots[j].Some? ==> slots[j].value in nodes
    ensures forall j | 0 <= j < SLOTS ::
              slots'[j] == if && TestBit(claimed, j) && slots[j] != Some(sender) && importing[j].None?
                              && (slots[j].Some? ==> nodes[slots[j].value].configEpoch < epoch)
                           then Some(sender) else slots[j]
  {
    hide TestBit, Agree;
    forall j | 0 <= j < SLOTS ensures slots[j].Some? ==> slots[j].value in nodes {
      OwnerKnown(nodes, slots, j);
    }
  }

  /** Another node than the claimant is left without slots exactly when all of its slots are taken. */
  lemma LeftWithNone(nodes: map<Name, Node>, slots: seq<Option<Name>>, importing: seq<Option<Name>>,
                     claimed: Bitmap, sender: Name, epoch: nat, nodes': map<Name, Node>, slots': seq<Option<Name>>, n: Name)
    requires |slots| == |importing| == SLOTS && |claimed| == SLOTS / 8
    requires Taken(nodes, slots, importing, claimed, sender, epoch, SLOTS, slots') && Agree(nodes', slots')
    requires n in nodes' && n != sender
    ensures nodes'[n].numslots == 0 <==> LosesAll(nodes, slots, importing, claimed, sender, epoch, Some(n))
  {
    hide Agree, Takes;
    NoSlots(nodes', slots', n);
  }

  lemma OwnSlotsSame(nodes: map<Name, Node>, slots: seq<Option<Name>>, nodes': map<Name, Node>, slots': seq<Option<Name>>, n: Name)
    requires Agree(nodes, slots) && Agree(nodes', slots') && n in nodes && n in nodes' && |slots| == |slots'| == SLOTS
    requires forall j | 0 <= j < SLOTS :: slots[j] == Some(n) <==> slots'[j] == Some(n)
    ensures nodes[n].numslots == 0 <==> nodes'[n].numslots == 0
  {
    hide Agree;
    NoSlots(nodes, slots, n);
    NoSlots(nodes', slots', n);
  }

  // ---- the table of one node ------------------------------------------------------------------

  /** A slave's master, where known, is a known node. */
  ghost predicate MastersKnown(nodes: map<Name, Node>) {
    forall n | n in nodes && nodes[n].slaveof.Some? :: nodes[n].slaveof.value in nodes
  }

  /** Slots are imported from known nodes. */
  ghost predicate ImportsKnown(nodes: map<Name, Node>, importing: seq<Option<Name>>) {
    |importing| == SLOTS && forall j | 0 <= j < SLOTS && importing[j].Some? :: importing[j].value in nodes
  }

  /** This node is either a master, without a master of its own, or a slave. */
  ghost predicate OwnFlags(x: Node) {
    x.flags == SLAVE || (x.flags == MASTER && x.slaveof.None?)
  }

  ghost predicate TableOk(me: Name, nodes: map<Name, Node>, slots: seq<Option<Name>>, importing: seq<Option<Name>>) {
    && me in nodes && OwnFlags(nodes[me])
    && Agree(nodes, slots) && MastersKnown(nodes) && ImportsKnown(nodes, importing)
  }

  /** curmaster of clusterUpdateSlotsConfigWith. */
  function MasterOf(me: Name, nodes: map<Name, Node>): Option<Name>
    requires me in nodes
  {
    if nodes[me].flags.master then Some(me) else nodes[me].slaveof
  }

  /** A slave knows its master. */
  ghost predicate KnowsMaster(me: Name, nodes: map<Name, Node>) {
    me in nodes && MasterOf(me, nodes).Some?
  }

  /** A slave owns no slot. The program does not keep this: CLUSTER ADDSLOTS does not look at roles. */
  ghost predicate EmptySlave(me: Name, nodes: map<Name, Node>) {
    me in nodes && (nodes[me].flags.slave ==> nodes[me].numslots == 0)
  }

  /** createClusterNode */
  function FreshNode(flags: Flags): Node {
    Node(flags, None, 0, seq(SLOTS / 8, _ => 0), 0)
  }

  lemma FreshFields(flags: Flags)
    ensures FreshNode(flags).flags == flags && FreshNode(flags).slaveof.None? && FreshNode(flags).numslots == 0
    ensures FreshNode(flags).configEpoch == 0 && HANDSHAKING == Flags(true, false, false)
    ensures MASTER == Flags(false, true, false) && SLAVE == Flags(false, false, true)
  {
  }

  lemma FreshNodeOk(flags: Flags)
    ensures NodeOk(FreshNode(flags)) && forall j | 0 <= j < SLOTS :: !TestBit(FreshNode(flags).bitmap, j)
  {
    hide And, Pow2, CountBits;
    var bm := FreshNode(flags).bitmap;
    assert BitmapOk(bm) by { Pow2Monotone(0, 8); }
    forall j | 0 <= j < SLOTS ensures !TestBit(bm, j) {
      ZeroByte(j % 8);
    }
    CountZero(bm, SLOTS);
  }

  lemma ZeroByte(i: nat)
    ensures And(0, Pow2(i)) == 0
  {
    AndPow2(0, i);
    BitZero(i);
  }

  function Unbound(): seq<Option<Name>> {
    seq(SLOTS, _ => None)
  }

  lemma InitialOk(name: Name)
    ensures TableOk(name, map[name := FreshNode(MASTER)], Unbound(), Unbound())
  {
    hide TestBit, BitmapOk, CountBits;
    FreshNodeOk(MASTER);
  }

  lemma AddedNodeAgrees(nodes: map<Name, Node>, slots: seq<Option<Name>>, n: Name, flags: Flags)
    requires Agree(nodes, slots) && n !in nodes
    ensures Agree(nodes[n := FreshNode(flags)], slots)
  {
    hide TestBit, BitmapOk, CountBits;
    FreshNodeOk(flags);
  }

  /** Agreement is about slots only. */
  lemma SameSlotsAgree(nodes: map<Name, Node>, slots: seq<Option<Name>>, n: Name, x: Node)
    requires Agree(nodes, slots) && n in nodes && x.bitmap == nodes[n].bitmap && x.numslots == nodes[n].numslots
    ensures Agree(nodes[n := x], slots)
  {
  }

  /** The nodes without n; its slaves no longer know a master. */
  function Orphaned(nodes: map<Name, Node>, n: Name): map<Name, Node> {
    map k | k in nodes && k != n :: if nodes[k].slaveof == Some(n) then nodes[k].(slaveof := None) else nodes[k]
  }

  lemma OrphansAgree(nodes: map<Name, Node>, slots: seq<Option<Name>>, n: Name)
    requires Agree(nodes, slots) && forall j | 0 <= j < |slots| :: slots[j] != Some(n)
    ensures Agree(Orphaned(nodes, n), slots)
  {
    hide TestBit, BitmapOk, CountBits;
    var nodes' := Orphaned(nodes, n);
    forall k | k in nodes' ensures NodeOk(nodes'[k]) && OwnBits(nodes'[k].bitmap, slots, k) {
      assert nodes'[k].bitmap == nodes[k].bitmap && OwnBits(nodes[k].bitmap, slots, k);
    }
  }

  lemma OrphansOk(nodes: map<Name, Node>, importing: seq<Option<Name>>, n: Name, importing': seq<Option<Name>>)
    requires MastersKnown(nodes) && ImportsKnown(nodes, importing) && |importing'| == SLOTS
    requires forall j | 0 <= j < SLOTS :: importing'[j] == if importing[j] == Some(n) then None else importing[j]
    ensures MastersKnown(Orphaned(nodes, n)) && ImportsKnown(Orphaned(nodes, n), importing')
  {
  }

  /** Node n is gone: its slots are unassigned, nothing is imported from it, and its slaves know no
      master; nothing else changes. */
  ghost predicate Deleted(nodes: map<Name, Node>, slots: seq<Option<Name>>, importing: seq<Option<Name>>, n: Name,
                          nodes': map<Name, Node>, slots': seq<Option<Name>>, importing': seq<Option<Name>>) {
    && nodes'.Keys == nodes.Keys - {n} && |slots| == |slots'| == |importing| == |importing'| == SLOTS
    && (forall k | k in nodes' ::
          && nodes'[k].configEpoch == nodes[k].configEpoch && nodes'[k].flags == nodes[k].flags
          && nodes'[k].slaveof == if nodes[k].slaveof == Some(n) then None else nodes[k].slaveof)
    && (forall j | 0 <= j < SLOTS :: slots'[j] == if slots[j] == Some(n) then None else slots[j])
    && forall j | 0 <= j < SLOTS :: importing'[j] == if importing[j] == Some(n) then None else importing[j]
  }

  lemma NowDeleted(nodes: map<Name, Node>, slots: seq<Option<Name>>, importing: seq<Option<Name>>, n: Name,
                   unbound: map<Name, Node>, slots': seq<Option<Name>>, importing': seq<Option<Name>>)
    requires SameNodes(unbound, nodes) && |slots| == |slots'| == |importing| == |importing'| == SLOTS
    requires forall j | 0 <= j < SLOTS :: slots'[j] == if slots[j] == Some(n) then None else slots[j]
    requires forall j | 0 <= j < SLOTS :: importing'[j] == if importing[j] == Some(n) then None else importing[j]
    ensures Deleted(nodes, slots, importing, n, Orphaned(unbound, n), slots', importing')
  {
  }

  lemma MasterDeleted(me: Name, nodes: map<Name, Node>, unbound: map<Name, Node>, n: Name)
    requires SameNodes(unbound, nodes) && me in nodes && me != n
    ensures me in Orphaned(unbound, n) && Orphaned(unbound, n)[me].flags == nodes[me].flags
    ensures Orphaned(unbound, n)[me].slaveof == if nodes[me].slaveof == Some(n) then None else nodes[me].slaveof
  {
  }

  // ---- renaming -------------------------------------------------------------------------------

  /** A reference to node a under its new name b. */
  function Ren(x: Option<Name>, a: Name, b: Name): Option<Name> {
    if x == Some(a) then Some(b) else x
  }

  function RenSlots(slots: seq<Option<Name>>, a: Name, b: Name): (r: seq<Option<Name>>)
    ensures |r| == |slots| && forall j | 0 <= j < |slots| :: r[j] == Ren(slots[j], a, b)
  {
    seq(|slots|, j requires 0 <= j < |slots| => Ren(slots[j], a, b))
  }

  /** The node table in which a is called b. */
  function RenNodes(nodes: map<Name, Node>, a: Name, b: Name): map<Name, Node>
    requires a in nodes
  {
    (map k | k in nodes && k != a :: nodes[k].(slaveof := Ren(nodes[k].slaveof, a, b)))
    [b := nodes[a].(slaveof := Ren(nodes[a].slaveof, a, b))]
  }

  /** The node table after the handshake with a, which turned out to be b, with these roles. */
  function Shaken(nodes: map<Name, Node>, a: Name, b: Name, master: bool, slave: bool): map<Name, Node>
    requires a in nodes
  {
    var x := RenNodes(nodes, a, b)[b];
    RenNodes(nodes, a, b)[b := x.(flags := Flags(false, master || x.flags.master, slave || x.flags.slave))]
  }

  lemma RenamedAgrees(nodes: map<Name, Node>, slots: seq<Option<Name>>, a: Name, b: Name)
    requires Agree(nodes, slots) && a in nodes && b !in nodes
    ensures Agree(RenNodes(nodes, a, b), RenSlots(slots, a, b))
  {
    hide TestBit, BitmapOk, CountBits;
    var nodes', slots' := RenNodes(nodes, a, b), RenSlots(slots, a, b);
    forall k | k in nodes' ensures NodeOk(nodes'[k]) && OwnBits(nodes'[k].bitmap, slots', k) {
      var k0 := if k == b then a else k;
      assert nodes'[k].bitmap == nodes[k0].bitmap && OwnBits(nodes[k0].bitmap, slots, k0);
    }
  }

  // ---- owners ---------------------------------------------------------------------------------

  /** No known configEpoch drops. */
  ghost predicate EpochsGrow(a: map<Name, Node>, b: map<Name, Node>) {
    a.Keys <= b.Keys && forall n | n in a :: a[n].configEpoch <= b[n].configEpoch
  }

  /** Assigned slots stay assigned: to the same owner, whose epoch did not drop, or to one with a
      strictly greater epoch. */
  ghost predicate OwnersAdvance(a: map<Name, Node>, s: seq<Option<Name>>, b: map<Name, Node>, s': seq<Option<Name>>) {
    && |s| == |s'| == SLOTS
    && forall j | 0 <= j < SLOTS && s[j].Some? ::
         && s'[j].Some? && s[j].value in a && s'[j].value in b
         && a[s[j].value].configEpoch <= b[s'[j].value].configEpoch
         && (s'[j] != s[j] ==> a[s[j].value].configEpoch < b[s'[j].value].configEpoch)
  }

  /** Assigned slots keep their owners. */
  lemma OwnersKept(a: map<Name, Node>, s: seq<Option<Name>>, b: map<Name, Node>, s': seq<Option<Name>>)
    requires Agree(a, s) && EpochsGrow(a, b) && |s'| == |s|
    requires forall j | 0 <= j < |s| && s[j].Some? :: s'[j] == s[j]
    ensures OwnersAdvance(a, s, b, s')
  {
  }

  lemma OwnersAdvanceTransitive(a: map<Name, Node>, s: seq<Option<Name>>, b: map<Name, Node>, t: seq<Option<Name>>,
                                c: map<Name, Node>, u: seq<Option<Name>>)
    requires OwnersAdvance(a, s, b, t) && OwnersAdvance(b, t, c, u)
    ensures OwnersAdvance(a, s, c, u)
  {
  }

  /** Claims under an epoch that the claimant has published make owners advance. */
  lemma TakenAdvances(nodes: map<Name, Node>, slots: seq<Option<Name>>, importing: seq<Option<Name>>, claimed: Bitmap,
                      sender: Name, epoch: nat, nodes': map<Name, Node>, slots': seq<Option<Name>>)
    requires |slots| == |importing| == SLOTS && |claimed| == SLOTS / 8
    requires Agree(nodes, slots) && EpochsGrow(nodes, nodes') && sender in nodes && epoch <= nodes[sender].configEpoch
    requires Taken(nodes, slots, importing, claimed, sender, epoch, SLOTS, slots')
    ensures OwnersAdvance(nodes, slots, nodes', slots')
  {
    hide Agree, TestBit;
    forall j | 0 <= j < SLOTS && slots[j].Some?
      ensures && slots'[j].Some? && slots[j].value in nodes && slots'[j].value in nodes'
              && nodes[slots[j].value].configEpoch <= nodes'[slots'[j].value].configEpoch
              && (slots'[j] != slots[j] ==> nodes[slots[j].value].configEpoch < nodes'[slots'[j].value].configEpoch)
    {
      OwnerKnown(nodes, slots, j);
    }
  }

  /** No handshake begins among the known nodes, and only these nodes may have become masters. */
  ghost predicate Steady(a: map<Name, Node>, b: map<Name, Node>, promoted: set<Name>) {
    && (forall n | n in a && !a[n].flags.handshake :: n in b && !b[n].flags.handshake)
    && forall n | n in b && b[n].flags.master && n !in promoted :: n in a && a[n].flags.master
  }

  lemma SteadyTrans(a: map<Name, Node>, b: map<Name, Node>, c: map<Name, Node>, d: map<Name, Node>, n: Name)
    requires Steady(a, b, {}) && Steady(b, c, {n}) && Steady(c, d, {})
    ensures Steady(a, d, {n})
  {
  }

  lemma SteadyMore(a: map<Name, Node>, b: map<Name, Node>, n: Name)
    requires Steady(a, b, {})
    ensures Steady(a, b, {n})
  {
  }

  /** What happens at the end of clusterUpdateSlotsConfigWith: nothing bad, a NULL curmaster is
      dereferenced, or the assertion of clusterSetMaster fails because a slave owns slots. */
  datatype Crash = NoCrash | NullMaster | SlaveOwnsSlots

  /** The claim is taken to come from the successor of a master that this node does not know. */
  ghost predicate ClaimsFromNull(me: Name, nodes: map<Name, Node>, slots: seq<Option<Name>>, importing: seq<Option<Name>>,
                                 claimed: Bitmap, sender: Name, epoch: nat)
    requires |slots| == |importing| == SLOTS && |claimed| == SLOTS / 8 && me in nodes
  {
    && sender != me && MasterOf(me, nodes).None?
    && LosesSlot(nodes, slots, importing, claimed, sender, epoch, SLOTS, None)
  }

  /** The master of this node, or the node itself as a master, loses all of its slots. */
  ghost predicate Replaces(me: Name, nodes: map<Name, Node>, slots: seq<Option<Name>>, importing: seq<Option<Name>>,
                           claimed: Bitmap, sender: Name, epoch: nat)
    requires |slots| == |importing| == SLOTS && |claimed| == SLOTS / 8 && me in nodes
  {
    var m := MasterOf(me, nodes);
    && sender != me && m.Some?
    && LosesSlot(nodes, slots, importing, claimed, sender, epoch, SLOTS, m)
    && LosesAll(nodes, slots, importing, claimed, sender, epoch, m)
  }

  /** The header and the configuration part of a PING, PONG or MEET. */
  datatype Packet = Packet(sender: Name, configEpoch: nat, master: bool, slave: bool, slaveof: Option<Name>, claimed: Bitmap)

  /** Whether the sender announces that it is no longer a master, and so gives up its slots. */
  predicate Demotes(nodes: map<Name, Node>, p: Packet) {
    p.sender in nodes && nodes[p.sender].flags.master && p.slaveof.Some?
  }

  /** The node table after n published an epoch. */
  function Raised(nodes: map<Name, Node>, n: Name, epoch: nat): map<Name, Node>
    requires n in nodes
  {
    nodes[n := nodes[n].(configEpoch := Max(nodes[n].configEpoch, epoch))]
  }

  /** The node table after the header of a packet from this sender. */
  function Headed(nodes: map<Name, Node>, sender: Name, epoch: nat): map<Name, Node> {
    if sender in nodes && !nodes[sender].flags.handshake then Raised(nodes, sender, epoch) else nodes
  }

  /** The node table after the first part of a packet: a MEET from an unknown node starts a handshake. */
  function Greeted(nodes: map<Name, Node>, p: Packet, meet: bool, random: Name): map<Name, Node> {
    if p.sender in nodes then Headed(nodes, p.sender, p.configEpoch)
    else if meet && random !in nodes then nodes[random := FreshNode(HANDSHAKING)]
    else nodes
  }

  /** The node table with n as a master, which it may be already. */
  function AsMaster(nodes: map<Name, Node>, n: Name): map<Name, Node>
    requires n in nodes
  {
    if nodes[n].flags.master then nodes
    else nodes[n := nodes[n].(flags := Flags(nodes[n].flags.handshake, true, false), slaveof := None)]
  }

  /** The node table after n said that it is a slave of m: a master turns into a slave, and a known
      master is noted. */
  function AsSlave(nodes: map<Name, Node>, n: Name, m: Name): map<Name, Node>
    requires n in nodes
  {
    var x := nodes[n];
    nodes[n := x.(flags := if x.flags.master then Flags(x.flags.handshake, false, true) else x.flags,
                  slaveof := if m in nodes then Some(m) else x.slaveof)]
  }

  /** The node table after an UPDATE reported n as a master with this configEpoch. */
  function Published(nodes: map<Name, Node>, n: Name, epoch: nat): map<Name, Node>
    requires n in nodes
  {
    var m := if nodes[n].flags.slave then AsMaster(nodes, n) else nodes;
    m[n := m[n].(configEpoch := epoch)]
  }

  /** The outcome of a claim: which nodes are what, who owns the slots, and how the code ends. */
  ghost predicate Outcome(me: Name, nodes: map<Name, Node>, slots: seq<Option<Name>>, importing: seq<Option<Name>>,
                          claimed: Bitmap, sender: Name, epoch: nat,
                          nodes': map<Name, Node>, slots': seq<Option<Name>>, importing': seq<Option<Name>>, crash: Crash)
    requires |slots| == |importing| == SLOTS && |claimed| == SLOTS / 8 && me in nodes
  {
    var replaced := Replaces(me, nodes, slots, importing, claimed, sender, epoch);
    var emptied := LosesAll(nodes, slots, importing, claimed, sender, epoch, Some(me));
    && (if sender == me then slots' == slots else Taken(nodes, slots, importing, claimed, sender, epoch, SLOTS, slots'))
    && (crash == NullMaster <==> ClaimsFromNull(me, nodes, slots, importing, claimed, sender, epoch))
    && (crash == SlaveOwnsSlots <==> replaced && !emptied)
    && SameNodes(nodes', if replaced && emptied then nodes[me := nodes[me].(flags := SLAVE, slaveof := Some(sender))] else nodes)
    && importing' == if replaced && emptied && nodes[me].flags.master then Unbound() else importing
  }

  /** What an UPDATE does: if it is news about a known node, that node becomes a master with the
      reported configEpoch and claims its slots. */
  ghost predicate Reported(me: Name, nodes: map<Name, Node>, slots: seq<Option<Name>>, importing: seq<Option<Name>>,
                           sender: Name, senderEpoch: nat, n: Name, epoch: nat, claimed: Bitmap,
                           nodes': map<Name, Node>, slots': seq<Option<Name>>, importing': seq<Option<Name>>, crash: Crash)
    requires |slots| == |importing| == SLOTS && |claimed| == SLOTS / 8 && me in nodes
  {
    var known := Headed(nodes, sender, senderEpoch);
    if sender in known && n in known && known[n].configEpoch < epoch
    then Outcome(me, Published(known, n, epoch), slots, importing, claimed, n, epoch, nodes', slots', importing', crash)
    else nodes' == known && slots' == slots && importing' == importing && crash == NoCrash
  }

  /** What the configuration in a packet of a known sender does. */
  ghost predicate Configured(me: Name, nodes: map<Name, Node>, slots: seq<Option<Name>>, importing: seq<Option<Name>>, p: Packet, epoch: nat,
                             nodes': map<Name, Node>, slots': seq<Option<Name>>, importing': seq<Option<Name>>, crash: Crash)
    requires |slots| == |importing| == SLOTS && |p.claimed| == SLOTS / 8 && me in nodes && p.sender in nodes
  {
    match p.slaveof
    case None =>
      var now := AsMaster(nodes, p.sender);
      if nodes[p.sender].bitmap != p.claimed
      then Outcome(me, now, slots, importing, p.claimed, p.sender, epoch, nodes', slots', importing', crash)
      else nodes' == now && slots' == slots && importing' == importing && crash == NoCrash
    case Some(m) =>
      && SameNodes(nodes', AsSlave(nodes, p.sender, m)) && importing' == importing && crash == NoCrash && |slots'| == SLOTS
      && forall j | 0 <= j < SLOTS ::
           slots'[j] == if nodes[p.sender].flags.master && slots[j] == Some(p.sender) then None else slots[j]
  }

  /** What a PING, PONG or MEET does: it names or deletes a node in handshake, configures a known
      sender, or changes no slots. */
  ghost predicate Received(me: Name, nodes: map<Name, Node>, slots: seq<Option<Name>>, importing: seq<Option<Name>>,
                           link: Option<Name>, meet: bool, p: Packet, random: Name,
                           nodes': map<Name, Node>, slots': seq<Option<Name>>, importing': seq<Option<Name>>, crash: Crash)
    requires |slots| == |importing| == SLOTS && |p.claimed| == SLOTS / 8 && me in nodes && random != p.sender
  {
    var known := Greeted(nodes, p, meet, random);
    if EndsHandshake(nodes, link) then
      && crash == NoCrash
      && if p.sender in nodes then Deleted(known, slots, importing, link.value, nodes', slots', importing')
         else && nodes' == Shaken(known, link.value, p.sender, p.master, p.slave)
              && slots' == RenSlots(slots, link.value, p.sender) && importing' == RenSlots(importing, link.value, p.sender)
    else if p.sender in nodes && (link.None? || link.value == p.sender) then
      Configured(me, known, slots, importing, p, if nodes[p.sender].flags.handshake then 0 else p.configEpoch,
                 nodes', slots', importing', crash)
    else nodes' == known && slots' == slots && importing' == importing && crash == NoCrash
  }

  /** Whether the packet ends a handshake: it answers on the link of a node in handshake. */
  predicate EndsHandshake(nodes: map<Name, Node>, link: Option<Name>) {
    link.Some? && link.value in nodes && nodes[link.value].flags.handshake
  }

  /** When a packet makes this node lose its master: the master is a node in handshake that turns
      out to be known already; or a packet of this node itself, sent when it was a slave, comes back
      when it is a master and names a master that is not known. */
  predicate PacketLosesMaster(me: Name, nodes: map<Name, Node>, link: Option<Name>, p: Packet)
    requires me in nodes
  {
    if EndsHandshake(nodes, link) then p.sender in nodes && MasterOf(me, nodes) == link
    else link.None? && p.sender == me && Demotes(nodes, p) && p.slaveof.value !in nodes
  }

  /** Whether CLUSTER ADDSLOTS or, with del, CLUSTER DELSLOTS accepts its arguments. */
  ghost predicate Accepts(slots: seq<Option<Name>>, args: seq<int>, del: bool) {
    && (forall i | 0 <= i < |args| :: 0 <= args[i] < |slots| && slots[args[i]].Some? == del)
    && forall i, k | 0 <= i < k < |args| :: args[i] != args[k]
  }

  lemma SameNodesRefl(a: map<Name, Node>)
    ensures SameNodes(a, a)
  {
  }

  lemma RolesKept(a: map<Name, Node>, b: map<Name, Node>, importing: seq<Option<Name>>)
    requires SameNodes(b, a)
    ensures MastersKnown(a) ==> MastersKnown(b)
    ensures ImportsKnown(a, importing) ==> ImportsKnown(b, importing)
  {
  }

  lemma TableSizes(me: Name, nodes: map<Name, Node>, slots: seq<Option<Name>>, importing: seq<Option<Name>>)
    requires TableOk(me, nodes, slots, importing)
    ensures |slots| == |importing| == SLOTS
  {
  }

  lemma MasterIsKnown(me: Name, nodes: map<Name, Node>)
    requires me in nodes && MastersKnown(nodes) && MasterOf(me, nodes).Some?
    ensures MasterOf(me, nodes).value in nodes
  {
  }

  /** A node that loses a slot is not the claimant. */
  lemma OwnerLoses(nodes: map<Name, Node>, slots: seq<Option<Name>>, importing: seq<Option<Name>>,
                   claimed: Bitmap, sender: Name, epoch: nat, owner: Option<Name>)
    requires |slots| == |importing| == SLOTS && |claimed| == SLOTS / 8
    requires LosesSlot(nodes, slots, importing, claimed, sender, epoch, SLOTS, owner)
    ensures owner != Some(sender)
  {
  }

  /** Where no slave owns a slot, none does after a claim of another node. */
  lemma ClaimsLeaveSlaveEmpty(me: Name, nodes: map<Name, Node>, slots: seq<Option<Name>>, importing: seq<Option<Name>>, claimed: Bitmap,
                              sender: Name, epoch: nat, nodes': map<Name, Node>, slots': seq<Option<Name>>)
    requires |slots| == |importing| == SLOTS && |claimed| == SLOTS / 8 && sender != me && me in nodes && me in nodes'
    requires Agree(nodes, slots) && Agree(nodes', slots')
    requires Taken(nodes, slots, importing, claimed, sender, epoch, SLOTS, slots')
    ensures nodes[me].numslots == 0 ==> nodes'[me].numslots == 0 && LosesAll(nodes, slots, importing, claimed, sender, epoch, Some(me))
  {
    hide Agree, Takes;
    NoSlots(nodes, slots, me);
    NoSlots(nodes', slots', me);
  }

  lemma NotAccepted(slots: seq<Option<Name>>, args: seq<int>, del: bool, i: nat)
    requires i < |args| && |slots| == SLOTS
    requires args[i] < 0 || args[i] >= SLOTS || slots[args[i]].Some? != del || args[i] in args[..i]
    ensures !Accepts(slots, args, del)
  {
  }

  class SlotTable {
    const myself: Name
    var nodes: map<Name, Node>
    var slots: seq<Option<Name>>
    /** importing_slots_from */
    var importing: seq<Option<Name>>

    ghost predicate Valid()
      reads this
    {
      TableOk(myself, nodes, slots, importing)
    }

    /** clusterInit without a configuration file: a master that knows only itself. */
    constructor (name: Name)
      ensures Valid() && myself == name && nodes == map[name := FreshNode(MASTER)]
      ensures slots == Unbound() && importing == Unbound()
    {
      hide TableOk, Unbound, FreshNode;
      InitialOk(name);
      myself := name;
      nodes := map[name := FreshNode(MASTER)];
      slots, importing := Unbound(), Unbound();
    }

    /** createClusterNode and clusterAddNode: a known name is refused. */
    method AddNode(n: Name, flags: Flags) returns (ok: bool)
      requires Valid()
      modifies this`nodes
      ensures Valid() && (ok <==> n !in old(nodes))
      ensures nodes == if ok then old(nodes)[n := FreshNode(flags)] else old(nodes)
    {
      hide Agree;
      if n in nodes { return false; }
      AddedNodeAgrees(nodes, slots, n, flags);
      nodes := nodes[n := FreshNode(flags)];
      return true;
    }

    /** clusterDelNode: unbind its slots, forget imports from it, make its slaves masterless, and
        remove it. */
    method DelNode(n: Name)
      requires Valid() && n in nodes && n != myself
      modifies this`nodes, this`slots, this`importing
      ensures Valid() && Deleted(old(nodes), old(slots), old(importing), n, nodes, slots, importing)
      ensures EmptySlave(myself, old(nodes)) ==> EmptySlave(myself, nodes)
      ensures KnowsMaster(myself, old(nodes)) ==> (KnowsMaster(myself, nodes) <==> MasterOf(myself, old(nodes)) != Some(n))
    {
      hide Agree, MastersKnown, ImportsKnown, Deleted;
      TableSizes(myself, nodes, slots, importing);
      var _ := DelNodeSlots(n);
      AgreeSize(nodes, slots);
      ghost var unbound := nodes;
      var imports := importing;
      importing := seq(SLOTS, j requires 0 <= j < SLOTS => if imports[j] == Some(n) then None else imports[j]);
      OrphansAgree(nodes, slots, n);
      OrphansOk(nodes, imports, n, importing);
      nodes := Orphaned(nodes, n);
      NowDeleted(old(nodes), old(slots), old(importing), n, unbound, slots, importing);
      MasterDeleted(myself, old(nodes), unbound, n);
      OwnSlotsSame(old(nodes), old(slots), nodes, slots, myself);
    }

    /** clusterCron: a node whose handshake takes too long is deleted, even this node's master. */
    method HandshakeTimeout(n: Name) returns (deleted: bool)
      requires Valid()
      modifies this`nodes, this`slots, this`importing
      ensures Valid() && (deleted <==> n in old(nodes) && n != myself && old(nodes)[n].flags.handshake)
      ensures if deleted then Deleted(old(nodes), old(slots), old(importing), n, nodes, slots, importing)
              else nodes == old(nodes) && slots == old(slots) && importing == old(importing)
      ensures EmptySlave(myself, old(nodes)) ==> EmptySlave(myself, nodes)
      ensures KnowsMaster(myself, old(nodes)) ==>
                (KnowsMaster(myself, nodes) <==> !(deleted && MasterOf(myself, old(nodes)) == Some(n)))
    {
      hide Agree, MastersKnown, ImportsKnown;
      if n !in nodes || n == myself { return false; }
      if !nodes[n].flags.handshake { return false; }
      DelNode(n);
      return true;
    }

    /** clusterRenameNode, and the flags that the node has sent. Pointers to the node stay. */
    method CompleteHandshake(a: Name, b: Name, master: bool, slave: bool)
      requires Valid() && a in nodes && a != myself && b !in nodes
      modifies this`nodes, this`slots, this`importing
      ensures Valid() && nodes == Shaken(old(nodes), a, b, master, slave)
      ensures slots == RenSlots(old(slots), a, b) && importing == RenSlots(old(importing), a, b)
      ensures nodes.Keys == old(nodes).Keys - {a} + {b}
      ensures nodes[b].flags == Flags(false, master || old(nodes)[a].flags.master, slave || old(nodes)[a].flags.slave)
      ensures nodes[b].bitmap == old(nodes)[a].bitmap && nodes[b].configEpoch == old(nodes)[a].configEpoch
      ensures forall k | k in nodes && k != b ::
                nodes[k] == if old(nodes)[k].slaveof == Some(a) then old(nodes)[k].(slaveof := Some(b)) else old(nodes)[k]
      ensures forall j | 0 <= j < |slots| :: slots[j] == if old(slots)[j] == Some(a) then Some(b) else old(slots)[j]
      ensures EmptySlave(myself, old(nodes)) ==> EmptySlave(myself, nodes)
      ensures KnowsMaster(myself, old(nodes)) <==> KnowsMaster(myself, nodes)
    {
      hide Agree;
      RenamedAgrees(nodes, slots, a, b);
      var nodes' := Shaken(nodes, a, b, master, slave);
      SameSlotsAgree(RenNodes(nodes, a, b), RenSlots(slots, a, b), b, nodes'[b]);
      nodes := nodes';
      slots, importing := RenSlots(slots, a, b), RenSlots(importing, a, b);
    }

    /** A packet on the link of a node in handshake: the node gets its name or, when a node of that
        name is known already, is deleted, even if it is this node's master. */
    method EndHandshake(link: Name, p: Packet)
      requires Valid() && link in nodes && link != myself && nodes[link].flags.handshake
      modifies this`nodes, this`slots, this`importing
      ensures Valid()
      ensures p.sender !in old(nodes) ==>
                && nodes == Shaken(old(nodes), link, p.sender, p.master, p.slave)
                && slots == RenSlots(old(slots), link, p.sender) && importing == RenSlots(old(importing), link, p.sender)
      ensures p.sender in old(nodes) ==> Deleted(old(nodes), old(slots), old(importing), link, nodes, slots, importing)
      ensures EmptySlave(myself, old(nodes)) ==> EmptySlave(myself, nodes)
      ensures KnowsMaster(myself, old(nodes)) ==>
                (KnowsMaster(myself, nodes) <==> !(p.sender in old(nodes) && MasterOf(myself, old(nodes)) == Some(link)))
    {
      hide Agree, MastersKnown, ImportsKnown;
      if p.sender in nodes {
        DelNode(link);
      } else {
        CompleteHandshake(link, p.sender, p.master, p.slave);
      }
    }

    /** CLUSTER FORGET: a node does not forget itself or its own master. */
    method Forget(n: Name) returns (ok: bool)
      requires Valid()
      modifies this`nodes, this`slots, this`importing
      ensures Valid() && (ok <==> n in old(nodes) && n != myself && MasterOf(myself, old(nodes)) != Some(n))
      ensures if ok then Deleted(old(nodes), old(slots), old(importing), n, nodes, slots, importing)
              else nodes == old(nodes) && slots == old(slots) && importing == old(importing)
      ensures EmptySlave(myself, old(nodes)) ==> EmptySlave(myself, nodes)
      ensures KnowsMaster(myself, old(nodes)) ==> KnowsMaster(myself, nodes)
    {
      hide Agree, MastersKnown, ImportsKnown;
      if n !in nodes || n == myself { return false; }
      if nodes[myself].flags.slave && nodes[myself].slaveof == Some(n) { return false; }
      DelNode(n);
      return true;
    }

    /** CLUSTER REPLICATE. A node in handshake is not a slave, so it is accepted as master. A slave
        is not asked for its slots, and clusterSetMaster asserts that it has none. */
    method Replicate(n: Name, dbEmpty: bool) returns (ok: bool, crash: Crash)
      requires Valid()
      modifies this`nodes, this`importing
      ensures Valid()
      ensures ok || crash != NoCrash <==>
                (&& n in old(nodes) && n != myself && !old(nodes)[n].flags.slave
                 && (old(nodes)[myself].flags.master ==> old(nodes)[myself].numslots == 0 && dbEmpty))
      ensures crash == (if (ok || crash != NoCrash) && !EmptySlave(myself, old(nodes)) then SlaveOwnsSlots else NoCrash)
      ensures if ok then nodes == old(nodes)[myself := old(nodes)[myself].(flags := SLAVE, slaveof := Some(n))] && crash == NoCrash
              else nodes == old(nodes)
      ensures importing == if ok && old(nodes)[myself].flags.master then Unbound() else old(importing)
    {
      hide Agree, MastersKnown, ImportsKnown;
      crash := NoCrash;
      if n !in nodes || n == myself || nodes[n].flags.slave { return false, NoCrash; }
      if nodes[myself].flags.master && (nodes[myself].numslots != 0 || !dbEmpty) { return false, NoCrash; }
      if nodes[myself].numslots != 0 { return false, SlaveOwnsSlots; }
      SetMaster(n);
      return true, NoCrash;
    }

    /** CLUSTER ADDSLOTS and CLUSTER DELSLOTS: all arguments are checked before anything changes. */
    method ChangeSlots(args: seq<int>, del: bool) returns (ok: bool)
      requires Valid()
      modifies this`nodes, this`slots, this`importing
      ensures Valid() && SameNodes(nodes, old(nodes))
      ensures ok <==> Accepts(old(slots), args, del)
      ensures |old(slots)| == SLOTS
      ensures ok <==>
                && (forall i | 0 <= i < |args| :: 0 <= args[i] < 16384 && old(slots)[args[i]].Some? == del)
                && forall i, k | 0 <= i < k < |args| :: args[i] != args[k]
      ensures !ok ==> nodes == old(nodes) && slots == old(slots) && importing == old(importing)
      ensures ok ==> forall j | 0 <= j < SLOTS ::
                       && slots[j] == (if j in args then if del then None else Some(myself) else old(slots)[j])
                       && importing[j] == (if j in args then None else old(importing)[j])
    {
      hide Agree;
      AgreeSize(nodes, slots);
      var marked;
      ok, marked := CheckSlots(args, del);
      if ok { ChangeMarked(marked, args, del); }
    }

    /** The first loop of CLUSTER ADDSLOTS and CLUSTER DELSLOTS. */
    method CheckSlots(args: seq<int>, del: bool) returns (ok: bool, marked: seq<bool>)
      requires |slots| == SLOTS
      ensures ok <==> Accepts(slots, args, del)
      ensures ok ==> |marked| == SLOTS
      ensures ok ==> forall j | 0 <= j < SLOTS :: (marked[j] <==> j in args) && (marked[j] ==> slots[j].Some? == del)
    {
      marked := seq(SLOTS, _ => false);
      for i := 0 to |args|
        invariant |marked| == SLOTS && Accepts(slots, args[..i], del)
        invariant forall j | 0 <= j < SLOTS :: (marked[j] <==> j in args[..i]) && (marked[j] ==> slots[j].Some? == del)
      {
        var slot := args[i];
        assert args[..i + 1] == args[..i] + [slot];
        if !(0 <= slot < SLOTS) || slots[slot].Some? != del || marked[slot] {
          NotAccepted(slots, args, del, i);
          return false, marked;
        }
        marked := marked[slot := true];
      }
      assert args[..|args|] == args;
      return true, marked;
    }

    /** The second loop; clusterAddSlot and clusterDelSlot succeed, as the code asserts. */
    method ChangeMarked(marked: seq<bool>, ghost args: seq<int>, del: bool)
      requires Valid() && |slots| == |importing| == |marked| == SLOTS
      requires forall j | 0 <= j < SLOTS :: (marked[j] <==> j in args) && (marked[j] ==> slots[j].Some? == del)
      modifies this`nodes, this`slots, this`importing
      ensures Valid() && SameNodes(nodes, old(nodes)) && |slots| == |importing| == SLOTS
      ensures forall j | 0 <= j < SLOTS ::
                && slots[j] == (if j in args then if del then None else Some(myself) else old(slots)[j])
                && importing[j] == (if j in args then None else old(importing)[j])
    {
      hide TableOk;
      var j := 0;
      while j < SLOTS
        invariant j <= SLOTS && |slots| == |importing| == SLOTS && Valid() && SameNodes(nodes, old(nodes))
        invariant forall q | 0 <= q < SLOTS ::
                    && slots[q] == (if q < j && q in args then if del then None else Some(myself) else old(slots)[q])
                    && importing[q] == (if q < j && q in args then None else old(importing)[q])
      {
        if marked[j] { ChangeSlot(j, del); }
        j := j + 1;
      }
    }

    method ChangeSlot(j: nat, del: bool)
      requires Valid() && |slots| == |importing| == SLOTS && j < SLOTS && slots[j].Some? == del
      modifies this`nodes, this`slots, this`importing
      ensures Valid() && SameNodes(nodes, old(nodes))
      ensures slots == old(slots)[j := if del then None else Some(myself)] && importing == old(importing)[j := None]
    {
      hide Agree, MastersKnown;
      importing := importing[j := None];
      var retval;
      if del { retval := DelSlot(j); } else { retval := AddSlot(myself, j); }
      assert retval;
    }

    /** CLUSTER SETSLOT IMPORTING, which only masters accept. */
    method SetSlotImporting(j: nat, n: Name) returns (ok: bool)
      requires Valid() && j < SLOTS
      modifies this`importing
      ensures Valid() && (ok <==> nodes[myself].flags.master && |slots| == SLOTS && slots[j] != Some(myself) && n in nodes)
      ensures importing == if ok then old(importing)[j := Some(n)] else old(importing)
    {
      hide Agree;
      AgreeSize(nodes, slots);
      if nodes[myself].flags.slave || slots[j] == Some(myself) || n !in nodes { return false; }
      importing := importing[j := Some(n)];
      return true;
    }

    /** CLUSTER SETSLOT STABLE */
    method SetSlotStable(j: nat) returns (ok: bool)
      requires Valid() && j < SLOTS
      modifies this`importing
      ensures Valid() && (ok <==> nodes[myself].flags.master)
      ensures importing == if ok then old(importing)[j := None] else old(importing)
    {
      hide Agree;
      if nodes[myself].flags.slave { return false; }
      importing := importing[j := None];
      return true;
    }

    /** CLUSTER SETSLOT NODE, on masters only; the slot may go to any known node. bumped is the
        configEpoch that clusterBumpConfigEpochWithoutConsensus leaves behind. */
    method SetSlotNode(j: nat, n: Name, hasKeys: bool, bumped: nat) returns (ok: bool)
      requires Valid() && j < SLOTS
      modifies this`nodes, this`slots, this`importing
      ensures Valid() && |old(slots)| == |old(importing)| == SLOTS
      ensures ok <==> old(nodes)[myself].flags.master && n in old(nodes) && (old(slots)[j] == Some(myself) && n != myself ==> !hasKeys)
      ensures slots == if ok then old(slots)[j := Some(n)] else old(slots)
      ensures importing == if ok && n == myself then old(importing)[j := None] else old(importing)
      ensures SameNodes(nodes, if ok && n == myself && old(importing)[j].Some? then Raised(old(nodes), myself, bumped) else old(nodes))
      ensures !ok ==> nodes == old(nodes)
    {
      hide Agree, MastersKnown, ImportsKnown, SameNodes;
      TableSizes(myself, nodes, slots, importing);
      SameNodesRefl(nodes);
      if nodes[myself].flags.slave || n !in nodes { return false; }
      if slots[j] == Some(myself) && n != myself && hasKeys { return false; }
      if n == myself { CloseImport(j, bumped); }
      Rebind(j, n);
      return true;
    }

    /** A finished import gives this node a new configEpoch. */
    method CloseImport(j: nat, bumped: nat)
      requires Valid() && j < SLOTS
      modifies this`nodes, this`importing
      ensures Valid() && |old(importing)| == SLOTS && importing == old(importing)[j := None]
      ensures nodes == if old(importing)[j].Some? then Raised(old(nodes), myself, bumped) else old(nodes)
    {
      hide Agree, MastersKnown;
      TableSizes(myself, nodes, slots, importing);
      if importing[j].Some? {
        RaiseEpoch(myself, bumped);
        importing := importing[j := None];
      }
    }

    method Rebind(j: nat, n: Name)
      requires Valid() && n in nodes && j < SLOTS
      modifies this`nodes, this`slots
      ensures Valid() && SameNodes(nodes, old(nodes)) && |old(slots)| == SLOTS && slots == old(slots)[j := Some(n)]
    {
      hide Agree, MastersKnown, ImportsKnown;
      AgreeSize(nodes, slots);
      var _ := DelSlot(j);
      var _ := AddSlot(n, j);
    }

    /** The role switch of clusterProcessPacket; slaveof is the master named in the header. A master
        that became a slave loses its slots; a slave keeps those it has. */
    method SwitchRole(sender: Name, slaveof: Option<Name>)
      requires Valid() && sender in nodes
      modifies this`nodes, this`slots
      ensures Valid() && nodes.Keys == old(nodes).Keys
      ensures forall k | k in nodes :: nodes[k].configEpoch == old(nodes)[k].configEpoch
      ensures forall k | k in nodes && k != sender ::
                nodes[k].flags == old(nodes)[k].flags && nodes[k].slaveof == old(nodes)[k].slaveof
      ensures slaveof.None? ==> nodes == AsMaster(old(nodes), sender) && nodes[sender].flags.master && slots == old(slots)
      ensures slaveof.Some? ==> SameNodes(nodes, AsSlave(old(nodes), sender, slaveof.value)) && !nodes[sender].flags.master
      ensures slaveof.None? && !old(nodes)[sender].flags.master ==> !nodes[sender].flags.slave && nodes[sender].slaveof.None?
      ensures slaveof.Some? ==> nodes[sender].slaveof == if slaveof.value in nodes then slaveof else old(nodes)[sender].slaveof
      ensures slaveof.Some? && old(nodes)[sender].flags.master ==> nodes[sender].flags.slave
      ensures nodes[sender].flags.handshake == old(nodes)[sender].flags.handshake && |slots| == |old(slots)| == SLOTS
      ensures forall j | 0 <= j < SLOTS ::
                slots[j] == if slaveof.Some? && old(nodes)[sender].flags.master && old(slots)[j] == Some(sender)
                            then None else old(slots)[j]
      ensures EmptySlave(myself, old(nodes)) ==> EmptySlave(myself, nodes)
      ensures KnowsMaster(myself, old(nodes)) ==>
                (KnowsMaster(myself, nodes) <==>
                  !(sender == myself && old(nodes)[myself].flags.master && slaveof.Some? && slaveof.value !in nodes))
    {
      hide Agree, MastersKnown, ImportsKnown;
      AgreeSize(nodes, slots);
      if slaveof.None? {
        SetNodeAsMaster(sender);
        return;
      }
      BecomeSlave(sender, slaveof.value);
    }

    method BecomeSlave(n: Name, m: Name)
      requires Valid() && n in nodes
      modifies this`nodes, this`slots
      ensures Valid() && SameNodes(nodes, AsSlave(old(nodes), n, m)) && |slots| == |old(slots)| == SLOTS
      ensures forall j | 0 <= j < SLOTS ::
                slots[j] == if old(nodes)[n].flags.master && old(slots)[j] == Some(n) then None else old(slots)[j]
      ensures EmptySlave(myself, old(nodes)) ==> EmptySlave(myself, nodes)
    {
      hide Agree, MastersKnown, ImportsKnown;
      AgreeSize(nodes, slots);
      if nodes[n].flags.master { StopBeingMaster(n); }
      if m in nodes { Follow(n, m); }
    }

    /** A master turned into a slave gives up its slots. */
    method StopBeingMaster(n: Name)
      requires Valid() && n in nodes && nodes[n].flags.master
      modifies this`nodes, this`slots
      ensures Valid() && |old(slots)| == |slots| == SLOTS
      ensures SameNodes(nodes, old(nodes)[n := old(nodes)[n].(flags := Flags(old(nodes)[n].flags.handshake, false, true))])
      ensures forall j | 0 <= j < SLOTS :: slots[j] == if old(slots)[j] == Some(n) then None else old(slots)[j]
      ensures EmptySlave(myself, old(nodes)) ==> EmptySlave(myself, nodes)
    {
      hide Agree, MastersKnown, ImportsKnown;
      AgreeSize(nodes, slots);
      var _ := DelNodeSlots(n);
      AgreeSize(nodes, slots);
      if n != myself { OwnSlotsSame(old(nodes), old(slots), nodes, slots, myself); }
      SetFlags(n, Flags(nodes[n].flags.handshake, false, true));
    }

    method SetFlags(n: Name, flags: Flags)
      requires Valid() && n in nodes && (n == myself ==> OwnFlags(nodes[n].(flags := flags)))
      modifies this`nodes
      ensures Valid() && nodes == old(nodes)[n := old(nodes)[n].(flags := flags)]
    {
      hide Agree;
      SameSlotsAgree(nodes, slots, n, nodes[n].(flags := flags));
      nodes := nodes[n := nodes[n].(flags := flags)];
    }

    method Follow(n: Name, master: Name)
      requires Valid() && n in nodes && master in nodes && !nodes[n].flags.master
      modifies this`nodes
      ensures Valid() && nodes == old(nodes)[n := old(nodes)[n].(slaveof := Some(master))]
    {
      hide Agree;
      var x := nodes[n].(slaveof := Some(master));
      SameSlotsAgree(nodes, slots, n, x);
      nodes := nodes[n := x];
    }

    /** A node publishes a configEpoch, which is taken when it is newer. */
    method RaiseEpoch(n: Name, epoch: nat)
      requires Valid() && n in nodes
      modifies this`nodes
      ensures Valid() && nodes == Raised(old(nodes), n, epoch)
    {
      hide Agree;
      SameSlotsAgree(nodes, slots, n, nodes[n].(configEpoch := Max(nodes[n].configEpoch, epoch)));
      if epoch > nodes[n].configEpoch {
        nodes := nodes[n := nodes[n].(configEpoch := epoch)];
      } else {
        assert nodes[n := nodes[n].(configEpoch := nodes[n].configEpoch)] == nodes;
      }
    }

    /** The configuration of a known sender: its role, and then its slots if it is a master. Unless
        the sender gives up being a master, every assigned slot stays assigned, to the same owner or
        to one with a strictly greater configEpoch. */
    method ProcessConfig(p: Packet, epoch: nat, hasKeys: nat -> bool) returns (crash: Crash)
      requires Valid() && |p.claimed| == SLOTS / 8 && p.sender in nodes && epoch <= nodes[p.sender].configEpoch
      modifies this`nodes, this`slots, this`importing
      ensures |old(slots)| == |old(importing)| == SLOTS && myself in old(nodes)
      ensures Valid() && nodes.Keys == old(nodes).Keys && EpochsGrow(old(nodes), nodes)
      ensures Configured(myself, old(nodes), old(slots), old(importing), p, epoch, nodes, slots, importing, crash)
      ensures !Demotes(old(nodes), p) ==> OwnersAdvance(old(nodes), old(slots), nodes, slots)
      ensures Steady(old(nodes), nodes, if p.slaveof.None? then {p.sender} else {})
      ensures EmptySlave(myself, old(nodes)) ==> EmptySlave(myself, nodes) && crash != SlaveOwnsSlots
      ensures KnowsMaster(myself, old(nodes)) ==>
                && crash != NullMaster
                && (KnowsMaster(myself, nodes) <==>
                     !(p.sender == myself && Demotes(old(nodes), p) && p.slaveof.value !in nodes))
    {
      hide Agree, OwnersAdvance, MastersKnown, ImportsKnown, Outcome;
      TableSizes(myself, nodes, slots, importing);
      ghost var nodes0, slots0 := nodes, slots;
      SwitchRole(p.sender, p.slaveof);
      AgreeSize(nodes, slots);
      crash := NoCrash;
      if p.slaveof.None? || !nodes0[p.sender].flags.master { OwnersKept(nodes0, slots0, nodes, slots); }
      if nodes[p.sender].flags.master && nodes[p.sender].bitmap != p.claimed {
        ghost var nodes1, slots1 := nodes, slots;
        crash := ApplyClaims(p.sender, epoch, p.claimed, hasKeys);
        OwnersAdvanceTransitive(nodes0, slots0, nodes1, slots1, nodes, slots);
      }
    }

    /** A PING, PONG or MEET. link is the node at the other end of an outgoing link; random names the
        new node when an unknown node sends a MEET. */
    method ReceivePing(link: Option<Name>, meet: bool, p: Packet, random: Name, hasKeys: nat -> bool) returns (crash: Crash)
      requires Valid() && |p.claimed| == SLOTS / 8 && random != p.sender
      requires link.Some? ==> link.value in nodes && link.value != myself
      modifies this`nodes, this`slots, this`importing
      ensures |old(slots)| == |old(importing)| == SLOTS && myself in old(nodes)
      ensures Valid()
      ensures Received(myself, old(nodes), old(slots), old(importing), link, meet, p, random, nodes, slots, importing, crash)
      ensures !EndsHandshake(old(nodes), link) ==>
                && EpochsGrow(old(nodes), nodes)
                && Steady(old(nodes), nodes, if p.slaveof.None? then {p.sender} else {})
                && (!Demotes(old(nodes), p) ==> OwnersAdvance(old(nodes), old(slots), nodes, slots))
      ensures EmptySlave(myself, old(nodes)) ==> EmptySlave(myself, nodes) && crash != SlaveOwnsSlots
      ensures KnowsMaster(myself, old(nodes)) ==>
                crash != NullMaster && (KnowsMaster(myself, nodes) <==> !PacketLosesMaster(myself, old(nodes), link, p))
    {
      hide Agree, OwnersAdvance, MastersKnown, ImportsKnown, FreshNode, Configured, Deleted, Shaken, RenSlots, OwnFlags, Greeted;
      TableSizes(myself, nodes, slots, importing);
      ghost var nodes0, slots0 := nodes, slots;
      crash := NoCrash;
      var known := Greet(p, meet, random);
      var epoch := if known && !nodes[p.sender].flags.handshake then p.configEpoch else 0;
      ghost var nodes1 := nodes;
      OwnersKept(nodes0, slots0, nodes1, slots);
      if link.Some? {
        if nodes[link.value].flags.handshake {
          EndHandshake(link.value, p);
          return;
        } else if link.value != p.sender {
          return;
        }
      }
      if known {
        crash := ProcessConfig(p, epoch, hasKeys);
        if !Demotes(nodes0, p) { OwnersAdvanceTransitive(nodes0, slots0, nodes1, slots0, nodes, slots); }
      }
    }

    /** The first part of a PING, PONG or MEET. */
    method Greet(p: Packet, meet: bool, random: Name) returns (known: bool)
      requires Valid() && random != p.sender
      modifies this`nodes
      ensures Valid() && nodes == Greeted(old(nodes), p, meet, random) && old(nodes).Keys <= nodes.Keys
      ensures (known <==> p.sender in old(nodes)) && (known <==> p.sender in nodes)
      ensures EpochsGrow(old(nodes), nodes) && Steady(old(nodes), nodes, {})
      ensures forall k | k in old(nodes) :: nodes[k].flags == old(nodes)[k].flags && nodes[k].slaveof == old(nodes)[k].slaveof
      ensures known ==> nodes.Keys == old(nodes).Keys
      ensures known && !nodes[p.sender].flags.handshake ==> p.configEpoch <= nodes[p.sender].configEpoch
      ensures EmptySlave(myself, old(nodes)) ==> EmptySlave(myself, nodes)
    {
      hide Agree, MastersKnown, ImportsKnown, FreshNode;
      FreshFields(HANDSHAKING);
      known := ProcessSender(p.sender, p.configEpoch);
      if !known && meet {
        var _ := AddNode(random, HANDSHAKING);
      }
    }

    /** Both callers of clusterUpdateSlotsConfigWith have published the epoch of the claim first. */
    method ApplyClaims(sender: Name, epoch: nat, claimed: Bitmap, hasKeys: nat -> bool) returns (crash: Crash)
      requires Valid() && |claimed| == SLOTS / 8 && sender in nodes && epoch <= nodes[sender].configEpoch
      modifies this`nodes, this`slots, this`importing
      ensures |old(slots)| == |old(importing)| == SLOTS && myself in old(nodes)
      ensures Valid() && nodes.Keys == old(nodes).Keys && EpochsGrow(old(nodes), nodes)
      ensures Outcome(myself, old(nodes), old(slots), old(importing), claimed, sender, epoch, nodes, slots, importing, crash)
      ensures OwnersAdvance(old(nodes), old(slots), nodes, slots) && Steady(old(nodes), nodes, {})
      ensures EmptySlave(myself, old(nodes)) ==> EmptySlave(myself, nodes) && crash != SlaveOwnsSlots
      ensures KnowsMaster(myself, old(nodes)) ==> KnowsMaster(myself, nodes) && crash != NullMaster
    {
      hide Agree, Takes, MastersKnown, ImportsKnown, LosesSlot, OwnersAdvance;
      TableSizes(myself, nodes, slots, importing);
      ghost var nodes0, slots0 := nodes, slots;
      var _, _, c := UpdateSlotsConfigWith(sender, epoch, claimed, hasKeys);
      crash := c;
      AgreeSize(nodes, slots);
      if sender != myself {
        TakenAdvances(nodes0, slots0, old(importing), claimed, sender, epoch, nodes, slots);
        ClaimsLeaveSlaveEmpty(myself, nodes0, slots0, old(importing), claimed, sender, epoch, nodes, slots);
      } else {
        OwnersKept(nodes0, slots0, nodes, slots);
      }
    }

    /** An UPDATE that a known sender sends about a known node n: newer information makes n a master
        and applies its claims. Every assigned slot stays assigned, to the same owner or to one with
        a strictly greater configEpoch. */
    method ReceiveUpdate(sender: Name, senderEpoch: nat, n: Name, epoch: nat, claimed: Bitmap, hasKeys: nat -> bool)
      returns (crash: Crash)
      requires Valid() && |claimed| == SLOTS / 8
      modifies this`nodes, this`slots, this`importing
      ensures |old(slots)| == |old(importing)| == SLOTS && myself in old(nodes)
      ensures Valid() && nodes.Keys == old(nodes).Keys
      ensures EpochsGrow(old(nodes), nodes) && OwnersAdvance(old(nodes), old(slots), nodes, slots)
      ensures sender in old(nodes) && n in old(nodes) ==> nodes[n].configEpoch >= epoch
      ensures Reported(myself, old(nodes), old(slots), old(importing), sender, senderEpoch, n, epoch, claimed, nodes, slots, importing, crash)
      ensures Steady(old(nodes), nodes, {n})
      ensures EmptySlave(myself, old(nodes)) ==> EmptySlave(myself, nodes) && crash != SlaveOwnsSlots
      ensures KnowsMaster(myself, old(nodes)) ==> KnowsMaster(myself, nodes) && crash != NullMaster
    {
      hide Agree, OwnersAdvance, MastersKnown, ImportsKnown, Steady, Outcome;
      TableSizes(myself, nodes, slots, importing);
      ghost var nodes0, slots0 := nodes, slots;
      var known := ProcessSender(sender, senderEpoch);
      OwnersKept(nodes0, slots0, nodes, slots);
      SteadyMore(nodes0, nodes, n);
      if !known || n !in nodes { return NoCrash; }
      if nodes[n].configEpoch >= epoch { return NoCrash; }
      ghost var nodes1 := nodes;
      PublishAsMaster(n, epoch);
      ghost var nodes2 := nodes;
      OwnersKept(nodes0, slots0, nodes2, slots);
      crash := ApplyClaims(n, epoch, claimed, hasKeys);
      SteadyTrans(nodes0, nodes1, nodes2, nodes, n);
      OwnersAdvanceTransitive(nodes0, slots0, nodes2, slots0, nodes, slots);
    }

    /** The header of a packet, as far as this table is concerned. */
    method ProcessSender(sender: Name, epoch: nat) returns (known: bool)
      requires Valid()
      modifies this`nodes
      ensures Valid() && nodes.Keys == old(nodes).Keys && EpochsGrow(old(nodes), nodes)
      ensures known <==> sender in nodes
      ensures nodes == Headed(old(nodes), sender, epoch)
      ensures forall k | k in nodes ::
                nodes[k] == if k == sender && !old(nodes)[k].flags.handshake && old(nodes)[k].configEpoch < epoch
                            then old(nodes)[k].(configEpoch := epoch) else old(nodes)[k]
      ensures Steady(old(nodes), nodes, {})
      ensures EmptySlave(myself, old(nodes)) ==> EmptySlave(myself, nodes)
      ensures KnowsMaster(myself, old(nodes)) ==> KnowsMaster(myself, nodes)
    {
      hide Agree, MastersKnown, ImportsKnown;
      known := sender in nodes;
      if known && !nodes[sender].flags.handshake { RaiseEpoch(sender, epoch); }
    }

    /** Newer information about n: it is a master, with this configEpoch. */
    method PublishAsMaster(n: Name, epoch: nat)
      requires Valid() && n in nodes && nodes[n].configEpoch < epoch
      modifies this`nodes
      ensures Valid() && nodes.Keys == old(nodes).Keys && EpochsGrow(old(nodes), nodes) && nodes[n].configEpoch == epoch
      ensures nodes == Published(old(nodes), n, epoch)
      ensures Steady(old(nodes), nodes, {n})
      ensures EmptySlave(myself, old(nodes)) ==> EmptySlave(myself, nodes)
      ensures KnowsMaster(myself, old(nodes)) ==> KnowsMaster(myself, nodes)
    {
      hide Agree, MastersKnown, ImportsKnown;
      if nodes[n].flags.slave { SetNodeAsMaster(n); }
      RaiseEpoch(n, epoch);
    }

    /** clusterAddSlot: bind an unassigned slot. */
    method AddSlot(n: Name, j: nat) returns (ok: bool)
      requires Valid() && n in nodes && j < SLOTS
      modifies this`nodes, this`slots
      ensures Valid() && SameNodes(nodes, old(nodes))
      ensures ok <==> old(slots[j]).None?
      ensures slots == if ok then old(slots)[j := Some(n)] else old(slots)
    {
      hide Agree, TestBit, SetBit, MastersKnown, ImportsKnown;
      ghost var nodes0 := nodes;
      BitTellsOwner(nodes, slots, n, j);
      if slots[j].Some? { return false; }
      BindAgrees(nodes, slots, n, j);
      var x := nodes[n];
      var wasSet := TestBit(x.bitmap, j);
      nodes := nodes[n := x.(bitmap := SetBit(x.bitmap, j), numslots := if wasSet then x.numslots else x.numslots + 1)];
      slots := slots[j := Some(n)];
      RolesKept(nodes0, nodes, importing);
      return true;
    }

    /** clusterDelSlot: unbind a slot; the owner's bit was set. */
    method DelSlot(j: nat) returns (ok: bool)
      requires Valid() && j < SLOTS
      modifies this`nodes, this`slots
      ensures Valid() && SameNodes(nodes, old(nodes))
      ensures ok <==> old(slots[j]).Some?
      ensures slots == old(slots)[j := None]
    {
      hide Agree, TestBit, ClearBit, MastersKnown, ImportsKnown;
      ghost var nodes0 := nodes;
      AgreeSize(nodes, slots);
      if slots[j].None? { return false; }
      UnbindAgrees(nodes, slots, j);
      var n := slots[j].value;
      var x := nodes[n];
      BitTellsOwner(nodes, slots, n, j);
      assert TestBit(x.bitmap, j);
      nodes := nodes[n := x.(bitmap := ClearBit(x.bitmap, j), numslots := x.numslots - 1)];
      slots := slots[j := None];
      RolesKept(nodes0, nodes, importing);
      return true;
    }

    /** clusterDelNodeSlots: unbind all slots of a node. The result counts all slots, not those
        unbound. */
    method DelNodeSlots(n: Name) returns (deleted: nat)
      requires Valid() && n in nodes
      modifies this`nodes, this`slots
      ensures Valid() && SameNodes(nodes, old(nodes))
      ensures forall j | 0 <= j < SLOTS :: slots[j] == if old(slots)[j] == Some(n) then None else old(slots)[j]
      ensures nodes[n].numslots == 0 && deleted == SLOTS
    {
      hide Agree, MastersKnown, ImportsKnown;
      AgreeSize(nodes, slots);
      deleted := 0;
      var j := 0;
      while j < SLOTS
        invariant j == deleted <= SLOTS && |slots| == SLOTS && Valid() && SameNodes(nodes, old(nodes))
        invariant forall q | 0 <= q < SLOTS ::
                    slots[q] == if q < j && old(slots)[q] == Some(n) then None else old(slots)[q]
      {
        BitTellsOwner(nodes, slots, n, j);
        if TestBit(nodes[n].bitmap, j) { var _ := DelSlot(j); }
        deleted := deleted + 1;
        j := j + 1;
      }
      NoSlots(nodes, slots, n);
    }

    /** The body of that loop for one claimed slot. */
    method TakeSlot(sender: Name, epoch: nat, claimed: Bitmap, j: nat) returns (taken: bool)
      requires Valid() && |importing| == SLOTS && sender in nodes && |claimed| == SLOTS / 8 && j < SLOTS
      modifies this`nodes, this`slots
      ensures Valid() && SameNodes(nodes, old(nodes))
      ensures taken <==> Takes(old(nodes), old(slots), importing, claimed, sender, epoch, j)
      ensures slots == if taken then old(slots)[j := Some(sender)] else old(slots)
    {
      hide Agree, TestBit, MastersKnown, ImportsKnown;
      OwnerKnown(nodes, slots, j);
      if !TestBit(claimed, j) { return false; }
      if slots[j] == Some(sender) { return false; }
      if importing[j].Some? { return false; }
      if slots[j].None? || nodes[slots[j].value].configEpoch < epoch {
        var _ := DelSlot(j);
        var _ := AddSlot(sender, j);
        return true;
      }
      return false;
    }

    /** The loop of clusterUpdateSlotsConfigWith: take every claimed slot that is unassigned
        or owned under an older epoch. */
    method TakeSlots(sender: Name, epoch: nat, claimed: Bitmap, hasKeys: nat -> bool, curmaster: Option<Name>)
      returns (newmaster: bool, dirty: seq<nat>)
      requires Valid() && |slots| == |importing| == SLOTS && sender in nodes && |claimed| == SLOTS / 8
      modifies this`nodes, this`slots
      ensures Valid() && SameNodes(nodes, old(nodes))
      ensures Taken(old(nodes), old(slots), importing, claimed, sender, epoch, SLOTS, slots)
      ensures newmaster <==> LosesSlot(old(nodes), old(slots), importing, claimed, sender, epoch, SLOTS, curmaster)
      ensures forall q :: q in dirty <==>
                (0 <= q < SLOTS && old(slots)[q] == Some(myself) && hasKeys(q)
                 && Takes(old(nodes), old(slots), importing, claimed, sender, epoch, q))
    {
      hide Agree, MastersKnown, ImportsKnown;
      newmaster, dirty := false, [];
      ghost var nodes0, slots0 := nodes, slots;
      hide Takes;
      var j := 0;
      while j < SLOTS
        invariant j <= SLOTS && |slots| == SLOTS && Valid() && SameNodes(nodes, nodes0)
        invariant Taken(nodes0, slots0, importing, claimed, sender, epoch, j, slots)
        invariant newmaster <==> LosesSlot(nodes0, slots0, importing, claimed, sender, epoch, j, curmaster)
        invariant forall q :: q in dirty <==>
                    (0 <= q < j && slots0[q] == Some(myself) && hasKeys(q)
                     && Takes(nodes0, slots0, importing, claimed, sender, epoch, q))
      {
        var owner := slots[j];
        assert owner == slots0[j];
        SameTakes(nodes0, nodes, slots0, slots, importing, claimed, sender, epoch, j);
        var taken := TakeSlot(sender, epoch, claimed, j);
        LosesNext(nodes0, slots0, importing, claimed, sender, epoch, j, curmaster);
        if taken {
          if owner == Some(myself) && hasKeys(j) { dirty := dirty + [j]; }
          if owner == curmaster { newmaster := true; }
        }
        j := j + 1;
      }
    }

    /** clusterUpdateSlotsConfigWith. dirty lists the slots taken from this node that still hold keys
        and are to be emptied; crash says how the code ends instead. */
    method UpdateSlotsConfigWith(sender: Name, epoch: nat, claimed: Bitmap, hasKeys: nat -> bool)
      returns (dirty: seq<nat>, demoted: bool, crash: Crash)
      requires Valid() && sender in nodes && |claimed| == SLOTS / 8
      modifies this`nodes, this`slots, this`importing
      ensures Valid() && |old(slots)| == SLOTS
      ensures Outcome(myself, old(nodes), old(slots), old(importing), claimed, sender, epoch, nodes, slots, importing, crash)
      ensures forall j | 0 <= j < SLOTS ::
                slots[j] == if && sender != myself && TestBit(claimed, j) && old(slots)[j] != Some(sender) && old(importing)[j].None?
                               && (old(slots)[j].Some? ==> old(nodes)[old(slots)[j].value].configEpoch < epoch)
                            then Some(sender) else old(slots)[j]
      ensures var curmaster := if old(nodes)[myself].flags.master then Some(myself) else old(nodes)[myself].slaveof;
              var lost := sender != myself && exists j :: 0 <= j < SLOTS && old(slots)[j] == curmaster && slots[j] != curmaster;
              var emptied := lost && curmaster.Some? && forall j | 0 <= j < SLOTS :: slots[j] != curmaster;
              && (crash == NullMaster <==> lost && curmaster.None?)
              && (crash == SlaveOwnsSlots <==> emptied && exists j :: 0 <= j < SLOTS && slots[j] == Some(myself))
              && (demoted <==> emptied && forall j | 0 <= j < SLOTS :: slots[j] != Some(myself))
      ensures sender == myself ==> nodes == old(nodes)
      ensures demoted ==> nodes[myself].flags == SLAVE && nodes[myself].slaveof == Some(sender) && nodes[myself].numslots == 0
      ensures demoted <==>
                (&& Replaces(myself, old(nodes), old(slots), old(importing), claimed, sender, epoch)
                 && LosesAll(old(nodes), old(slots), old(importing), claimed, sender, epoch, Some(myself)))
      ensures sender == myself || demoted || crash != NoCrash ==> dirty == []
      ensures sender != myself && !demoted && crash == NoCrash ==>
                forall q :: q in dirty <==>
                  (0 <= q < SLOTS && old(slots)[q] == Some(myself) && slots[q] != Some(myself) && hasKeys(q))
    {
      hide Agree, LosesSlot, LosesAll, MastersKnown, ImportsKnown, Takes, TestBit;
      TableSizes(myself, nodes, slots, importing);
      dirty, demoted, crash := [], false, NoCrash;
      var curmaster := MasterOf(myself, nodes);
      if sender == myself { return; }
      ghost var nodes0, slots0 := nodes, slots;
      var newmaster, found := TakeSlots(sender, epoch, claimed, hasKeys, curmaster);
      TakenInFull(nodes0, slots0, importing, claimed, sender, epoch, slots);
      LossShows(nodes0, slots0, importing, claimed, sender, epoch, slots, curmaster);
      LossShows(nodes0, slots0, importing, claimed, sender, epoch, slots, Some(myself));
      if !newmaster {
        dirty := found;
        return;
      }
      if curmaster.None? { return [], false, NullMaster; }
      OwnerLoses(nodes0, slots0, importing, claimed, sender, epoch, curmaster);
      MasterIsKnown(myself, nodes0);
      LeftWithNone(nodes0, slots0, importing, claimed, sender, epoch, nodes, slots, curmaster.value);
      LeftWithNone(nodes0, slots0, importing, claimed, sender, epoch, nodes, slots, myself);
      if nodes[curmaster.value].numslots != 0 {
        dirty := found;
      } else if nodes[myself].numslots != 0 {
        crash := SlaveOwnsSlots;
      } else {
        SetMaster(sender);
        demoted := true;
      }
    }

    /** clusterSetMaster: this node, which owns no slot, becomes a slave of n. */
    method SetMaster(n: Name)
      requires Valid() && n in nodes && n != myself && nodes[myself].numslots == 0
      modifies this`nodes, this`importing
      ensures Valid() && nodes == old(nodes)[myself := old(nodes)[myself].(flags := SLAVE, slaveof := Some(n))]
      ensures importing == if old(nodes)[myself].flags.master then Unbound() else old(importing)
    {
      hide Agree;
      var x := nodes[myself].(flags := SLAVE, slaveof := Some(n));
      SameSlotsAgree(nodes, slots, myself, x);
      if nodes[myself].flags.master {
        importing := Unbound();  // clusterCloseAllSlots
      }
      nodes := nodes[myself := x];
    }

    /** clusterSetNodeAsMaster */
    method SetNodeAsMaster(n: Name)
      requires Valid() && n in nodes
      modifies this`nodes
      ensures Valid()
      ensures nodes == AsMaster(old(nodes), n) && nodes[n].flags.master
      ensures forall k | k in nodes && k != n :: nodes[k] == old(nodes)[k]
    {
      hide Agree;
      if nodes[n].flags.master { return; }
      var x := nodes[n].(flags := Flags(nodes[n].flags.handshake, true, false), slaveof := None);
      SameSlotsAgree(nodes, slots, n, x);
      nodes := nodes[n := x];
    }

    /** clusterFailoverReplaceYourMaster: the slave takes exactly its master's slots, and keeps any
        that it has. */
    method FailoverReplaceYourMaster()
      requires Valid()
      modifies this`nodes, this`slots
      ensures Valid() && nodes.Keys == old(nodes.Keys)
      ensures KnowsMaster(myself, old(nodes)) ==> nodes[myself].flags.master
      ensures SameNodes(nodes, if old(nodes)[myself].slaveof.None? then old(nodes) else AsMaster(old(nodes), myself))
      ensures old(nodes)[myself].flags.master || old(nodes)[myself].slaveof.None? ==>
                nodes == old(nodes) && slots == old(slots)
      ensures old(nodes)[myself].flags.slave && old(nodes)[myself].slaveof.Some? ==>
                && (forall j | 0 <= j < SLOTS ::
                      slots[j] == if old(slots)[j] == old(nodes)[myself].slaveof then Some(myself) else old(slots)[j])
                && (old(nodes)[myself].slaveof != Some(myself) ==>
                      nodes[old(nodes)[myself].slaveof.value].numslots == 0)
    {
      hide Agree;
      AgreeSize(nodes, slots);
      if nodes[myself].flags.master || nodes[myself].slaveof.None? { return; }
      var oldmaster := nodes[myself].slaveof.value;
      SetNodeAsMaster(myself);
      ClaimSlots(oldmaster);
      NoSlots(nodes, slots, oldmaster);
    }

    /** The loop of clusterFailoverReplaceYourMaster. */
    method ClaimSlots(oldmaster: Name)
      requires Valid() && |slots| == SLOTS && oldmaster in nodes && myself in nodes
      modifies this`nodes, this`slots
      ensures Valid() && SameNodes(nodes, old(nodes)) && |slots| == SLOTS
      ensures forall j | 0 <= j < SLOTS ::
                slots[j] == if old(slots)[j] == Some(oldmaster) then Some(myself) else old(slots)[j]
    {
      hide Agree, MastersKnown, ImportsKnown;
      var j := 0;
      while j < SLOTS
        invariant j <= SLOTS && |slots| == SLOTS && Valid() && SameNodes(nodes, old(nodes))
        invariant forall q | 0 <= q < SLOTS ::
                    slots[q] == if q < j && old(slots)[q] == Some(oldmaster) then Some(myself) else old(slots)[q]
      {
        BitTellsOwner(nodes, slots, oldmaster, j);
        if TestBit(nodes[oldmaster].bitmap, j) {
          var _ := DelSlot(j);
          var _ := AddSlot(myself, j);
        }
        j := j + 1;
      }
    }
  }

  /** No two nodes claim the same slot. */
  lemma BitmapsDisjoint(nodes: map<Name, Node>, slots: seq<Option<Name>>, a: Name, b: Name, j: nat)
    requires Agree(nodes, slots) && a in nodes && b in nodes && a != b && j < SLOTS
    ensures !(TestBit(nodes[a].bitmap, j) && TestBit(nodes[b].bitmap, j))
  {
    assert TestBit(nodes[a].bitmap, j) <==> slots[j] == Some(a);
    assert TestBit(nodes[b].bitmap, j) <==> slots[j] == Some(b);
  }
}
