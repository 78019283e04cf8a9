/** When the code that handles claims of slots (cluster.c) can end badly: exactly in which tables some
    claim makes it dereference a NULL master or fail its assertion on the slots of a slave, and how
    such tables come about. */
module ClusterSlotCrashes {
  import opened Basics
  import opened ClusterEpochs
  import opened ClusterSlots

  /** Some claim of s makes the code dereference a NULL master. */
  ghost predicate CanUseNull(me: Name, nodes: map<Name, Node>, slots: seq<Option<Name>>, importing: seq<Option<Name>>, s: Name)
    requires |slots| == |importing| == SLOTS && me in nodes
  {
    exists claimed: Bitmap, epoch: nat ::
      |claimed| == SLOTS / 8 && ClaimsFromNull(me, nodes, slots, importing, claimed, s, epoch)
  }

  /** Some claim of s makes the assertion of clusterSetMaster fail. */
  ghost predicate CanFailAssertion(me: Name, nodes: map<Name, Node>, slots: seq<Option<Name>>, importing: seq<Option<Name>>, s: Name)
    requires |slots| == |importing| == SLOTS && me in nodes
  {
    exists claimed: Bitmap, epoch: nat ::
      && |claimed| == SLOTS / 8 && Replaces(me, nodes, slots, importing, claimed, s, epoch)
      && !LosesAll(nodes, slots, importing, claimed, s, epoch, Some(me))
  }

  /** A bitmap with one bit. */
  function OneSlot(j: nat): (bm: Bitmap)
    requires j < SLOTS
    ensures |bm| == SLOTS / 8
  {
    SetBit(FreshNode(MASTER).bitmap, j)
  }

  lemma OneSlotBits(j: nat, q: nat)
    requires j < SLOTS && q < SLOTS
    ensures TestBit(OneSlot(j), q) <==> q == j
  {
    hide TestBit, SetBit;
    FreshNodeOk(MASTER);
    SetBitMeaning(FreshNode(MASTER).bitmap, j, q);
  }

  lemma OneSlotDiffers(j: nat, flags: Flags)
    requires j < SLOTS
    ensures OneSlot(j) != FreshNode(flags).bitmap
  {
    hide TestBit, SetBit, OneSlot;
    FreshNodeOk(flags);
    OneSlotBits(j, j);
  }

  /** The NULL master is used exactly where a slave without master meets a slot that is neither
      assigned nor being imported. */
  lemma UsesNullExactly(me: Name, nodes: map<Name, Node>, slots: seq<Option<Name>>, importing: seq<Option<Name>>, s: Name)
    requires TableOk(me, nodes, slots, importing) && |slots| == |importing| == SLOTS
    ensures CanUseNull(me, nodes, slots, importing, s) <==>
              (&& s != me && MasterOf(me, nodes).None?
               && exists j :: 0 <= j < SLOTS && slots[j].None? && importing[j].None?)
  {
    hide Agree, TestBit, OneSlot;
    if s != me && MasterOf(me, nodes).None? {
      if j :| 0 <= j < SLOTS && slots[j].None? && importing[j].None? {
        OneSlotBits(j, j);
        assert Takes(nodes, slots, importing, OneSlot(j), s, 0, j);
        assert ClaimsFromNull(me, nodes, slots, importing, OneSlot(j), s, 0);
      }
    }
  }

  /** The assertion fails exactly for a slave that owns a slot, and whose master owns slots, none of
      which is being imported; any third node can then claim them. */
  lemma FailsAssertionExactly(me: Name, nodes: map<Name, Node>, slots: seq<Option<Name>>, importing: seq<Option<Name>>, s: Name)
    requires TableOk(me, nodes, slots, importing) && |slots| == |importing| == SLOTS
    ensures var m := MasterOf(me, nodes);
            CanFailAssertion(me, nodes, slots, importing, s) <==>
              (&& s != me && m.Some? && m != Some(me) && m != Some(s)
               && (exists j :: 0 <= j < SLOTS && slots[j] == Some(me))
               && (exists j :: 0 <= j < SLOTS && slots[j] == m)
               && forall j | 0 <= j < SLOTS && slots[j] == m :: importing[j].None?)
  {
    hide Agree, TestBit, MastersKnown, ImportsKnown;
    var m := MasterOf(me, nodes);
    if claimed: Bitmap, epoch: nat :| && |claimed| == SLOTS / 8 && Replaces(me, nodes, slots, importing, claimed, s, epoch)
                                      && !LosesAll(nodes, slots, importing, claimed, s, epoch, Some(me)) {
      OwnerLoses(nodes, slots, importing, claimed, s, epoch, m);
      assert m != Some(me);
    }
    if && s != me && m.Some? && m != Some(me) && m != Some(s)
       && (forall j | 0 <= j < SLOTS && slots[j] == m :: importing[j].None?) {
      MasterIsKnown(me, nodes);
      var claimed, epoch := nodes[m.value].bitmap, nodes[m.value].configEpoch + 1;
      forall q | 0 <= q < SLOTS
        ensures |claimed| == SLOTS / 8 && (TestBit(claimed, q) <==> slots[q] == m)
        ensures slots[q] == m ==> Takes(nodes, slots, importing, claimed, s, epoch, q)
      {
        OwnClaims(nodes, slots, m.value, q);
      }
      if i, j :| 0 <= i < SLOTS && 0 <= j < SLOTS && slots[i] == Some(me) && slots[j] == m {
        assert |claimed| == SLOTS / 8 by { OwnClaims(nodes, slots, m.value, 0); }
        assert Takes(nodes, slots, importing, claimed, s, epoch, j) && !Takes(nodes, slots, importing, claimed, s, epoch, i);
        assert Replaces(me, nodes, slots, importing, claimed, s, epoch);
      }
    }
  }

  lemma OwnClaims(nodes: map<Name, Node>, slots: seq<Option<Name>>, n: Name, q: nat)
    requires Agree(nodes, slots) && n in nodes && q < SLOTS
    ensures |slots| == SLOTS && |nodes[n].bitmap| == SLOTS / 8 && (TestBit(nodes[n].bitmap, q) <==> slots[q] == Some(n))
  {
    BitTellsOwner(nodes, slots, n, q);
  }

  /** The answer of a master, named b, to a first contact. */
  function Hello(b: Name): Packet {
    Packet(b, 0, true, false, None, FreshNode(MASTER).bitmap)
  }

  function ClaimOf(b: Name, epoch: nat, j: nat): Packet
    requires j < SLOTS
  {
    Packet(b, epoch, true, false, None, OneSlot(j))
  }

  /** CLUSTER MEET, and the answer of a master called b. */
  method MeetMaster(t: SlotTable, random: Name, b: Name)
    requires t.Valid() && random !in t.nodes && b !in t.nodes && random != b && t.myself != random
    modifies t
    ensures t.Valid() && t.nodes.Keys == old(t.nodes).Keys + {b} && t.nodes[b] == FreshNode(MASTER)
    ensures forall k | k in old(t.nodes) && old(t.nodes)[k].slaveof != Some(random) :: t.nodes[k] == old(t.nodes)[k]
    ensures |t.slots| == |old(t.slots)| == SLOTS && |t.importing| == |old(t.importing)| == SLOTS
    ensures forall j | 0 <= j < SLOTS && old(t.slots)[j] != Some(random) :: t.slots[j] == old(t.slots)[j]
    ensures forall j | 0 <= j < SLOTS && old(t.importing)[j] != Some(random) :: t.importing[j] == old(t.importing)[j]
  {
    hide Agree, MastersKnown, ImportsKnown;
    TableSizes(t.myself, t.nodes, t.slots, t.importing);
    var _ := t.AddNode(random, HANDSHAKING);
    t.EndHandshake(random, Hello(b));
  }

  lemma ClaimFindsNull(nodes: map<Name, Node>, slots: seq<Option<Name>>, importing: seq<Option<Name>>)
    requires 1 in nodes && 3 in nodes && MasterOf(1, nodes).None? && nodes[3] == FreshNode(MASTER)
    requires |slots| == |importing| == SLOTS && slots[0].None? && importing[0].None?
    ensures nodes[3].bitmap != OneSlot(0) && AsMaster(Raised(nodes, 3, 1), 3) == Raised(nodes, 3, 1)
    ensures ClaimsFromNull(1, Raised(nodes, 3, 1), slots, importing, OneSlot(0), 3, 1)
  {
    hide TestBit, OneSlot;
    OneSlotDiffers(0, MASTER);
    OneSlotBits(0, 0);
    assert Takes(Raised(nodes, 3, 1), slots, importing, OneSlot(0), 3, 1, 0);
  }

  /** A run of commands, a timeout and a ping to the NULL master: node 1 meets a node that never
      answers, replicates it under its random name 10, and loses it when the handshake times out;
      then it meets node 3, which claims a slot. */
  method MissingMasterRun() returns (t: SlotTable, crash: Crash)
    ensures fresh(t) && crash == NullMaster && t.Valid()
  {
    hide Agree, MastersKnown, ImportsKnown, OneSlot, ClaimsFromNull;
    t := new SlotTable(1);
    FreshFields(MASTER);
    var _ := t.AddNode(10, HANDSHAKING);
    var _, _ := t.Replicate(10, true);
    var _ := t.HandshakeTimeout(10);
    MeetMaster(t, 11, 3);
    ClaimFindsNull(t.nodes, t.slots, t.importing);
    crash := t.ReceivePing(None, false, ClaimOf(3, 1, 0), 12, _ => false);
  }

  lemma ClaimFindsSlaveSlots(nodes: map<Name, Node>, slots: seq<Option<Name>>, importing: seq<Option<Name>>)
    requires 1 in nodes && 2 in nodes && 3 in nodes && MasterOf(1, nodes) == Some(2) && nodes[3] == FreshNode(MASTER)
    requires nodes[2].configEpoch == 0 && |slots| == |importing| == SLOTS && importing[1].None?
    requires slots[0] == Some(1) && slots[1] == Some(2) && forall j | 2 <= j < SLOTS :: slots[j].None?
    ensures nodes[3].bitmap != OneSlot(1) && AsMaster(Raised(nodes, 3, 1), 3) == Raised(nodes, 3, 1)
    ensures Replaces(1, Raised(nodes, 3, 1), slots, importing, OneSlot(1), 3, 1)
    ensures !LosesAll(Raised(nodes, 3, 1), slots, importing, OneSlot(1), 3, 1, Some(1))
  {
    hide TestBit, OneSlot;
    OneSlotDiffers(1, MASTER);
    OneSlotBits(1, 0);
    OneSlotBits(1, 1);
    var nodes' := Raised(nodes, 3, 1);
    assert Takes(nodes', slots, importing, OneSlot(1), 3, 1, 1) && !Takes(nodes', slots, importing, OneSlot(1), 3, 1, 0);
  }

  /** A run of commands and a ping to the failing assertion: node 1 meets node 2, assigns it slot 1,
      replicates it, and as a slave takes slot 0 with CLUSTER ADDSLOTS; then it meets node 3, which
      claims slot 1. */
  method SlaveOwnsSlotsRun() returns (t: SlotTable, crash: Crash)
    ensures fresh(t) && crash == SlaveOwnsSlots && t.Valid()
  {
    hide Agree, MastersKnown, ImportsKnown, OneSlot, Replaces, LosesAll, ClaimsFromNull;
    t := new SlotTable(1);
    FreshFields(MASTER);
    GiveAndFollow(t);
    var _ := t.ChangeSlots([0], false);
    MeetMaster(t, 11, 3);
    ClaimFindsSlaveSlots(t.nodes, t.slots, t.importing);
    crash := t.ReceivePing(None, false, ClaimOf(3, 1, 1), 12, _ => false);
  }

  /** CLUSTER MEET, CLUSTER SETSLOT 1 NODE 2 and CLUSTER REPLICATE 2 on a new node. */
  method GiveAndFollow(t: SlotTable)
    requires t.Valid() && t.myself == 1 && t.nodes == map[1 := FreshNode(MASTER)] && t.slots == t.importing == Unbound()
    modifies t
    ensures t.Valid() && t.nodes.Keys == {1, 2} && t.nodes[1].flags == SLAVE && t.nodes[1].slaveof == Some(2)
    ensures t.nodes[2].configEpoch == 0 && t.nodes[2].slaveof.None?
    ensures t.slots == Unbound()[1 := Some(2)] && t.importing == Unbound()
  {
    hide Agree, MastersKnown, ImportsKnown;
    MeetMaster(t, 10, 2);
    assert t.slots == t.importing == Unbound();
    var _ := t.SetSlotNode(1, 2, false, 0);
    NoSlots(t.nodes, t.slots, 1);
    var _, _ := t.Replicate(2, true);
  }
}
