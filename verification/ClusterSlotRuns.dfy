/** Runs of the slot table of a node (cluster.c): whatever messages, commands and timeouts arrive,
    when a slave loses its master, when a slave comes to own slots, how the code can then end, and
    when the owners of slots only advance. */
module ClusterSlotRuns {
  import opened Basics
  import opened ClusterEpochs
  import opened ClusterSlots

  /** What can happen to the table. hasKeys says which slots hold keys; random is the name given to a
      node in handshake; bumped is the configEpoch after a bump. */
  datatype Event =
    | Ping(link: Option<Name>, meet: bool, p: Packet, random: Name, hasKeys: nat -> bool)
    | Update(sender: Name, senderEpoch: nat, about: Name, epoch: nat, claimed: Bitmap, hasKeys: nat -> bool)
    | Meet(random: Name)
    | Timeout(n: Name)
    | Forget(n: Name)
    | Replicate(n: Name, dbEmpty: bool)
    | AddSlots(args: seq<int>)
    | DelSlots(args: seq<int>)
    | Importing(j: nat, n: Name)
    | Stable(j: nat)
    | Assign(j: nat, n: Name, occupied: bool, bumped: nat)
    | NewEpoch(bumped: nat)
    | Failover

  datatype View = View(nodes: map<Name, Node>, slots: seq<Option<Name>>, importing: seq<Option<Name>>)

  ghost function Now(t: SlotTable): View
    reads t
  {
    View(t.nodes, t.slots, t.importing)
  }

  /** Whether the event is possible: bitmaps have their length, slots their range, a link belongs to a
      known node, with which it would have been freed, and random names are new. */
  predicate Possible(me: Name, nodes: map<Name, Node>, e: Event) {
    match e
    case Ping(link, _, p, random, _) =>
      |p.claimed| == SLOTS / 8 && random != p.sender && (link.Some? ==> link.value in nodes && link.value != me)
    case Update(_, _, _, _, claimed, _) => |claimed| == SLOTS / 8
    case Importing(j, _) => j < SLOTS
    case Stable(j) => j < SLOTS
    case Assign(j, _, _, _) => j < SLOTS
    case _ => true
  }

  /** The events that take a slave's master away. */
  predicate LosesMaster(me: Name, nodes: map<Name, Node>, e: Event)
    requires me in nodes
  {
    match e
    case Ping(link, _, p, _, _) => PacketLosesMaster(me, nodes, link, p)
    case Timeout(n) => n in nodes && n != me && nodes[n].flags.handshake && MasterOf(me, nodes) == Some(n)
    case _ => false
  }

  /** The events that give a slot to a slave. */
  ghost predicate FillsSlave(me: Name, v: View, e: Event) {
    me in v.nodes && v.nodes[me].flags.slave && e.AddSlots? && e.args != [] && Accepts(v.slots, e.args, false)
  }

  /** The nodes that an event can make masters. */
  function PromotedBy(e: Event): set<Name> {
    match e
    case Ping(_, _, p, _, _) => if p.slaveof.None? then {p.sender} else {}
    case Update(_, _, about, _, _, _) => {about}
    case _ => {}
  }

  /** Events that take no slot from its owner except for one with a greater configEpoch: no slot is
      released, no node deleted or renamed, and no master demoted. */
  predicate KeepsOwners(nodes: map<Name, Node>, e: Event) {
    match e
    case Ping(link, _, p, _, _) => (link.Some? ==> link.value in nodes && !nodes[link.value].flags.handshake) && !Demotes(nodes, p)
    case Timeout(_) => false
    case Forget(_) => false
    case DelSlots(_) => false
    case Assign(_, _, _, _) => false
    case Failover => false
    case _ => true
  }

  // ---- one event ------------------------------------------------------------------------------

  /** A slave loses its master exactly through the events that LosesMaster names, and comes to own a
      slot exactly through those that FillsSlave names; until then the code ends normally. */
  ghost predicate Explained(me: Name, v: View, e: Event, v': View, crash: Crash) {
    && (KnowsMaster(me, v.nodes) ==> crash != NullMaster && (KnowsMaster(me, v'.nodes) <==> !LosesMaster(me, v.nodes, e)))
    && (EmptySlave(me, v.nodes) ==> crash != SlaveOwnsSlots && (EmptySlave(me, v'.nodes) <==> !FillsSlave(me, v, e)))
  }

  ghost predicate Advances(v: View, v': View, promoted: set<Name>) {
    && EpochsGrow(v.nodes, v'.nodes) && Steady(v.nodes, v'.nodes, promoted)
    && OwnersAdvance(v.nodes, v.slots, v'.nodes, v'.slots)
  }

  ghost predicate Sizes(me: Name, v: View) {
    me in v.nodes && |v.slots| == |v.importing| == SLOTS
  }

  /** What each event does to the table. */
  ghost predicate Does(me: Name, v: View, e: Event, v': View, crash: Crash)
    requires Sizes(me, v) && Possible(me, v.nodes, e)
  {
    match e
    case Ping(link, meet, p, random, _) =>
      Received(me, v.nodes, v.slots, v.importing, link, meet, p, random, v'.nodes, v'.slots, v'.importing, crash)
    case Update(sender, senderEpoch, about, epoch, claimed, _) =>
      Reported(me, v.nodes, v.slots, v.importing, sender, senderEpoch, about, epoch, claimed, v'.nodes, v'.slots, v'.importing, crash)
    case Meet(random) => v' == v.(nodes := if random in v.nodes then v.nodes else v.nodes[random := FreshNode(HANDSHAKING)])
    case Timeout(n) =>
      if n in v.nodes && n != me && v.nodes[n].flags.handshake
      then Deleted(v.nodes, v.slots, v.importing, n, v'.nodes, v'.slots, v'.importing) else v' == v
    case Forget(n) =>
      if n in v.nodes && n != me && MasterOf(me, v.nodes) != Some(n)
      then Deleted(v.nodes, v.slots, v.importing, n, v'.nodes, v'.slots, v'.importing) else v' == v
    case Replicate(n, dbEmpty) =>
      if n !in v.nodes || n == me || v.nodes[n].flags.slave || (v.nodes[me].flags.master && (v.nodes[me].numslots != 0 || !dbEmpty))
      then v' == v && crash == NoCrash
      else if !EmptySlave(me, v.nodes) then v' == v && crash == SlaveOwnsSlots
      else && v'.nodes == v.nodes[me := v.nodes[me].(flags := SLAVE, slaveof := Some(n))] && v'.slots == v.slots && crash == NoCrash
           && v'.importing == if v.nodes[me].flags.master then Unbound() else v.importing
    case AddSlots(args) => Changes(me, v, args, false, v')
    case DelSlots(args) => Changes(me, v, args, true, v')
    case Importing(j, n) =>
      v' == if v.nodes[me].flags.master && v.slots[j] != Some(me) && n in v.nodes then v.(importing := v.importing[j := Some(n)]) else v
    case Stable(j) => v' == if v.nodes[me].flags.master then v.(importing := v.importing[j := None]) else v
    case Assign(j, n, occupied, bumped) =>
      if v.nodes[me].flags.master && n in v.nodes && (v.slots[j] == Some(me) && n != me ==> !occupied)
      then && v'.slots == v.slots[j := Some(n)] && v'.importing == (if n == me then v.importing[j := None] else v.importing)
           && SameNodes(v'.nodes, if n == me && v.importing[j].Some? then Raised(v.nodes, me, bumped) else v.nodes)
      else v' == v
    case NewEpoch(bumped) => v' == v.(nodes := Raised(v.nodes, me, bumped))
    case Failover =>
      if v.nodes[me].flags.master || v.nodes[me].slaveof.None? then v' == v
      else && SameNodes(v'.nodes, AsMaster(v.nodes, me)) && v'.importing == v.importing && |v'.slots| == SLOTS
           && forall j | 0 <= j < SLOTS :: v'.slots[j] == if v.slots[j] == v.nodes[me].slaveof then Some(me) else v.slots[j]
  }

  /** CLUSTER ADDSLOTS and CLUSTER DELSLOTS. */
  ghost predicate Changes(me: Name, v: View, args: seq<int>, del: bool, v': View)
    requires Sizes(me, v)
  {
    if Accepts(v.slots, args, del)
    then && SameNodes(v'.nodes, v.nodes) && |v'.slots| == |v'.importing| == SLOTS
         && forall j | 0 <= j < SLOTS ::
              && v'.slots[j] == (if j in args then if del then None else Some(me) else v.slots[j])
              && v'.importing[j] == (if j in args then None else v.importing[j])
    else v' == v
  }

  lemma SlotsKept(me: Name, v: View, v': View, promoted: set<Name>)
    requires Agree(v.nodes, v.slots) && v'.slots == v.slots && EpochsGrow(v.nodes, v'.nodes) && Steady(v.nodes, v'.nodes, promoted)
    ensures Advances(v, v', promoted)
  {
    hide Agree;
    OwnersKept(v.nodes, v.slots, v'.nodes, v'.slots);
  }

  method Message(t: SlotTable, e: Event) returns (crash: Crash)
    requires t.Valid() && Possible(t.myself, t.nodes, e) && (e.Ping? || e.Update? || e.Meet? || e.Timeout?)
    modifies t
    ensures Sizes(t.myself, old(Now(t))) && Does(t.myself, old(Now(t)), e, Now(t), crash)
    ensures t.Valid() && Explained(t.myself, old(Now(t)), e, Now(t), crash)
    ensures KeepsOwners(old(t.nodes), e) ==> Advances(old(Now(t)), Now(t), PromotedBy(e))
  {
    hide Agree, MastersKnown, ImportsKnown, OwnersAdvance, Outcome, FreshNode, Deleted;
    TableSizes(t.myself, t.nodes, t.slots, t.importing);
    crash := NoCrash;
    match e
    case Ping(link, meet, p, random, hasKeys) =>
      crash := t.ReceivePing(link, meet, p, random, hasKeys);
    case Update(sender, senderEpoch, about, epoch, claimed, hasKeys) =>
      crash := t.ReceiveUpdate(sender, senderEpoch, about, epoch, claimed, hasKeys);
    case Meet(random) =>
      FreshFields(HANDSHAKING);
      var _ := t.AddNode(random, HANDSHAKING);
      SlotsKept(t.myself, old(Now(t)), Now(t), {});
    case Timeout(n) =>
      var _ := t.HandshakeTimeout(n);
  }

  method SlotCommand(t: SlotTable, e: Event)
    requires t.Valid() && Possible(t.myself, t.nodes, e)
    requires e.AddSlots? || e.DelSlots? || e.Importing? || e.Stable? || e.Assign?
    modifies t
    ensures Sizes(t.myself, old(Now(t))) && Does(t.myself, old(Now(t)), e, Now(t), NoCrash)
    ensures t.Valid() && Explained(t.myself, old(Now(t)), e, Now(t), NoCrash)
    ensures KeepsOwners(old(t.nodes), e) ==> Advances(old(Now(t)), Now(t), {})
  {
    hide Agree, MastersKnown, ImportsKnown, OwnersAdvance, Accepts;
    ghost var v := Now(t);
    TableSizes(t.myself, t.nodes, t.slots, t.importing);
    match e
    case AddSlots(args) =>
      var ok := t.ChangeSlots(args, false);
      TableSizes(t.myself, t.nodes, t.slots, t.importing);
      SlotsAdded(t.myself, v, args, ok, Now(t));
    case DelSlots(args) =>
      var ok := t.ChangeSlots(args, true);
      TableSizes(t.myself, t.nodes, t.slots, t.importing);
      SlotsDeleted(t.myself, v, args, ok, Now(t));
    case Importing(j, n) =>
      var _ := t.SetSlotImporting(j, n);
      SlotsKept(t.myself, v, Now(t), {});
    case Stable(j) =>
      var _ := t.SetSlotStable(j);
      SlotsKept(t.myself, v, Now(t), {});
    case Assign(j, n, occupied, bumped) =>
      var _ := t.SetSlotNode(j, n, occupied, bumped);
  }

  lemma SlotsAdded(me: Name, v: View, args: seq<int>, ok: bool, v': View)
    requires Agree(v.nodes, v.slots) && Agree(v'.nodes, v'.slots) && SameNodes(v'.nodes, v.nodes) && me in v.nodes
    requires |v.slots| == |v'.slots| == SLOTS && (ok <==> Accepts(v.slots, args, false)) && (!ok ==> v' == v)
    requires ok ==> forall j | 0 <= j < SLOTS :: v'.slots[j] == if j in args then Some(me) else v.slots[j]
    ensures Explained(me, v, AddSlots(args), v', NoCrash) && Advances(v, v', {})
  {
    hide Agree;
    if ok {
      NoSlots(v.nodes, v.slots, me);
      NoSlots(v'.nodes, v'.slots, me);
      if args != [] { assert v'.slots[args[0]] == Some(me); }
      OwnersKept(v.nodes, v.slots, v'.nodes, v'.slots);
    } else {
      SlotsKept(me, v, v', {});
    }
  }

  lemma SlotsDeleted(me: Name, v: View, args: seq<int>, ok: bool, v': View)
    requires Agree(v.nodes, v.slots) && Agree(v'.nodes, v'.slots) && SameNodes(v'.nodes, v.nodes) && me in v.nodes
    requires |v.slots| == |v'.slots| == SLOTS && (!ok ==> v' == v)
    requires ok ==> forall j | 0 <= j < SLOTS :: v'.slots[j] == if j in args then None else v.slots[j]
    ensures Explained(me, v, DelSlots(args), v', NoCrash)
  {
    hide Agree;
    NoSlots(v.nodes, v.slots, me);
    NoSlots(v'.nodes, v'.slots, me);
  }

  method FollowCommand(t: SlotTable, e: Event) returns (crash: Crash)
    requires t.Valid() && (e.Replicate? || e.NewEpoch?)
    modifies t
    ensures Sizes(t.myself, old(Now(t))) && Does(t.myself, old(Now(t)), e, Now(t), crash)
    ensures t.Valid() && Explained(t.myself, old(Now(t)), e, Now(t), crash)
    ensures KeepsOwners(old(t.nodes), e) ==> Advances(old(Now(t)), Now(t), {})
  {
    hide Agree, MastersKnown, ImportsKnown, OwnersAdvance, Deleted, Unbound;
    ghost var v := Now(t);
    TableSizes(t.myself, t.nodes, t.slots, t.importing);
    crash := NoCrash;
    match e
    case Replicate(n, dbEmpty) =>
      var _, c := t.Replicate(n, dbEmpty);
      crash := c;
      SlotsKept(t.myself, v, Now(t), {});
    case NewEpoch(bumped) =>
      t.RaiseEpoch(t.myself, bumped);
      SlotsKept(t.myself, v, Now(t), {});
  }

  method RoleCommand(t: SlotTable, e: Event)
    requires t.Valid() && (e.Forget? || e.Failover?)
    modifies t
    ensures Sizes(t.myself, old(Now(t))) && Does(t.myself, old(Now(t)), e, Now(t), NoCrash)
    ensures t.Valid() && Explained(t.myself, old(Now(t)), e, Now(t), NoCrash)
  {
    hide Agree, MastersKnown, ImportsKnown, OwnersAdvance, Deleted;
    TableSizes(t.myself, t.nodes, t.slots, t.importing);
    match e
    case Forget(n) =>
      var _ := t.Forget(n);
    case Failover =>
      t.FailoverReplaceYourMaster();
      AgreeSize(t.nodes, t.slots);
  }

  lemma ReleasesSlots(nodes: map<Name, Node>, e: Event)
    requires e.Forget? || e.Failover?
    ensures !KeepsOwners(nodes, e)
  {
  }

  method Handle(t: SlotTable, e: Event) returns (crash: Crash)
    requires t.Valid() && Possible(t.myself, t.nodes, e)
    modifies t
    ensures Sizes(t.myself, old(Now(t))) && Does(t.myself, old(Now(t)), e, Now(t), crash)
    ensures t.Valid() && Explained(t.myself, old(Now(t)), e, Now(t), crash)
    ensures KeepsOwners(old(t.nodes), e) ==> Advances(old(Now(t)), Now(t), PromotedBy(e))
  {
    hide Agree, MastersKnown, ImportsKnown, Advances, Explained, KeepsOwners, Does;
    crash := NoCrash;
    if e.Ping? || e.Update? || e.Meet? || e.Timeout? {
      crash := Message(t, e);
    } else if e.Replicate? || e.NewEpoch? {
      crash := FollowCommand(t, e);
    } else if e.Forget? || e.Failover? {
      ReleasesSlots(t.nodes, e);
      RoleCommand(t, e);
    } else {
      SlotCommand(t, e);
    }
  }

  // ---- runs -----------------------------------------------------------------------------------

  /** All events keep the owners in this table, and no node that announces itself as a slave is ever
      made a master. */
  ghost predicate NoRelease(nodes: map<Name, Node>, es: seq<Event>) {
    && (forall i | 0 <= i < |es| :: KeepsOwners(nodes, es[i]))
    && forall i, k | 0 <= i < |es| && 0 <= k < |es| && es[i].Ping? && es[i].p.slaveof.Some? :: es[i].p.sender !in PromotedBy(es[k])
  }

  lemma StillNoRelease(a: map<Name, Node>, b: map<Name, Node>, es: seq<Event>, i: nat)
    requires NoRelease(a, es) && i < |es| && Steady(a, b, PromotedBy(es[i]))
    ensures NoRelease(b, es)
  {
    hide PromotedBy;
    forall k | 0 <= k < |es| ensures KeepsOwners(b, es[k]) {
      assert KeepsOwners(a, es[k]);
    }
  }

  lemma AdvanceFurther(u: View, v: View, v': View, promoted: set<Name>)
    requires EpochsGrow(u.nodes, v.nodes) && OwnersAdvance(u.nodes, u.slots, v.nodes, v.slots) && Advances(v, v', promoted)
    ensures EpochsGrow(u.nodes, v'.nodes) && OwnersAdvance(u.nodes, u.slots, v'.nodes, v'.slots)
    ensures Steady(v.nodes, v'.nodes, promoted)
  {
    hide OwnersAdvance;
    OwnersAdvanceTransitive(u.nodes, u.slots, v.nodes, v.slots, v'.nodes, v'.slots);
  }

  /** Event i of a run takes the slave's master away. */
  ghost predicate LostAt(me: Name, h: seq<View>, es: seq<Event>, i: nat) {
    && i < |h| - 1 <= |es| && KnowsMaster(me, h[i].nodes) && !KnowsMaster(me, h[i + 1].nodes)
    && Possible(me, h[i].nodes, es[i]) && LosesMaster(me, h[i].nodes, es[i])
  }

  /** Event i of a run gives a slot to a slave without slots. */
  ghost predicate FilledAt(me: Name, h: seq<View>, es: seq<Event>, i: nat) {
    i < |h| - 1 <= |es| && EmptySlave(me, h[i].nodes) && FillsSlave(me, h[i], es[i])
  }

  /** One step of a history; an event that is not possible does not happen. */
  ghost predicate Happens(me: Name, v: View, e: Event, v': View) {
    if Sizes(me, v) && Possible(me, v.nodes, e) then exists crash :: Does(me, v, e, v', crash) else v' == v
  }

  ghost predicate IsHistory(me: Name, h: seq<View>, es: seq<Event>) {
    0 < |h| <= |es| + 1 && forall i | 0 <= i < |h| - 1 :: Happens(me, h[i], es[i], h[i + 1])
  }

  lemma HistoryStep(me: Name, h: seq<View>, es: seq<Event>, v': View)
    requires IsHistory(me, h, es) && |h| <= |es| && Happens(me, h[|h| - 1], es[|h| - 1], v')
    ensures IsHistory(me, h + [v'], es)
  {
    hide Happens;
  }

  /** Any number of events in any order. The history h holds the table before each event and at the
      end. The code dereferences a NULL master only after an event that took it away, and the
      assertion on the slots of a slave fails only after CLUSTER ADDSLOTS on a slave. As long as
      nothing releases slots, every assigned slot stays assigned, the configEpoch under which it is
      owned never drops, and it is strictly greater if the owner is another one. */
  method Run(t: SlotTable, es: seq<Event>) returns (crash: Crash, ghost h: seq<View>)
    requires t.Valid()
    modifies t
    ensures t.Valid()
    ensures IsHistory(t.myself, h, es) && h[0] == old(Now(t)) && h[|h| - 1] == Now(t)
    ensures crash == NoCrash ==> |h| == |es| + 1
    ensures KnowsMaster(t.myself, old(t.nodes)) && (crash == NullMaster || !KnowsMaster(t.myself, t.nodes)) ==>
              exists i :: LostAt(t.myself, h, es, i)
    ensures EmptySlave(t.myself, old(t.nodes)) && (crash == SlaveOwnsSlots || !EmptySlave(t.myself, t.nodes)) ==>
              exists i :: FilledAt(t.myself, h, es, i)
    ensures NoRelease(old(t.nodes), es) ==>
              EpochsGrow(old(t.nodes), t.nodes) && OwnersAdvance(old(t.nodes), old(t.slots), t.nodes, t.slots)
  {
    hide TableOk, Agree, OwnersAdvance, KeepsOwners, Advances, NoRelease, Possible, KnowsMaster, EmptySlave, LosesMaster, FillsSlave, Steady, IsHistory, Happens,
         Does;
    ghost var v0 := Now(t);
    crash, h := NoCrash, [v0];
    StartAdvances(t.myself, v0, t.importing);
    Beginning(t.myself, v0, es);
    for i := 0 to |es|
      invariant t.Valid() && crash == NoCrash && |h| == i + 1 && h[0] == v0 && h[i] == Now(t) && IsHistory(t.myself, h, es)
      invariant KnowsMaster(t.myself, v0.nodes) && !KnowsMaster(t.myself, t.nodes) ==> exists k :: LostAt(t.myself, h, es, k)
      invariant EmptySlave(t.myself, v0.nodes) && !EmptySlave(t.myself, t.nodes) ==> exists k :: FilledAt(t.myself, h, es, k)
      invariant NoRelease(v0.nodes, es) ==>
                  && NoRelease(t.nodes, es) && EpochsGrow(v0.nodes, t.nodes)
                  && OwnersAdvance(v0.nodes, v0.slots, t.nodes, t.slots)
    {
      ghost var v, h0 := Now(t), h;
      if Possible(t.myself, t.nodes, es[i]) {
        crash := Handle(t, es[i]);
        ghost var v' := Now(t);
        ItHappens(t.myself, v, es[i], v', crash);
        HistoryStep(t.myself, h, es, v');
        h := h + [v'];
        HistoryGrows(t.myself, h0, v', es);
        Happened(t.myself, h, es, i, crash);
        if NoRelease(v.nodes, es) {
          OneOfThem(v.nodes, es, i);
          if NoRelease(v0.nodes, es) { AdvanceFurther(v0, v, v', PromotedBy(es[i])); }
          AdvanceSteady(v, v', es, i);
        }
        if crash != NoCrash { return; }
      } else {
        NothingHappens(t.myself, v, es[i]);
        HistoryStep(t.myself, h, es, v);
        h := h + [v];
        HistoryGrows(t.myself, h0, v, es);
      }
    }
  }

  lemma Beginning(me: Name, v: View, es: seq<Event>)
    ensures IsHistory(me, [v], es)
  {
  }

  lemma ItHappens(me: Name, v: View, e: Event, v': View, crash: Crash)
    requires Sizes(me, v) && Possible(me, v.nodes, e) && Does(me, v, e, v', crash)
    ensures Happens(me, v, e, v')
  {
    hide Does, Possible;
  }

  lemma NothingHappens(me: Name, v: View, e: Event)
    requires !Possible(me, v.nodes, e)
    ensures Happens(me, v, e, v)
  {
    hide Does, Possible;
  }

  lemma StartAdvances(me: Name, v: View, importing: seq<Option<Name>>)
    requires TableOk(me, v.nodes, v.slots, importing)
    ensures EpochsGrow(v.nodes, v.nodes) && OwnersAdvance(v.nodes, v.slots, v.nodes, v.slots)
  {
    hide Agree;
    OwnersKept(v.nodes, v.slots, v.nodes, v.slots);
  }

  lemma OneOfThem(nodes: map<Name, Node>, es: seq<Event>, i: nat)
    requires NoRelease(nodes, es) && i < |es|
    ensures KeepsOwners(nodes, es[i])
  {
  }

  lemma AdvanceSteady(v: View, v': View, es: seq<Event>, i: nat)
    requires NoRelease(v.nodes, es) && i < |es| && Advances(v, v', PromotedBy(es[i]))
    ensures NoRelease(v'.nodes, es)
  {
    hide NoRelease, OwnersAdvance;
    StillNoRelease(v.nodes, v'.nodes, es, i);
  }

  /** What a history shows, a longer one shows too. */
  lemma HistoryGrows(me: Name, h: seq<View>, v: View, es: seq<Event>)
    requires |h| <= |es|
    ensures (exists k :: LostAt(me, h, es, k)) ==> exists k :: LostAt(me, h + [v], es, k)
    ensures (exists k :: FilledAt(me, h, es, k)) ==> exists k :: FilledAt(me, h + [v], es, k)
  {
    hide KnowsMaster, EmptySlave, Possible, LosesMaster, FillsSlave;
    if k :| LostAt(me, h, es, k) { assert LostAt(me, h + [v], es, k); }
    if k :| FilledAt(me, h, es, k) { assert FilledAt(me, h + [v], es, k); }
  }

  lemma Happened(me: Name, h: seq<View>, es: seq<Event>, i: nat, crash: Crash)
    requires |h| == i + 2 && i < |es| && Possible(me, h[i].nodes, es[i]) && Explained(me, h[i], es[i], h[i + 1], crash)
    ensures KnowsMaster(me, h[i].nodes) ==> crash != NullMaster && (KnowsMaster(me, h[i + 1].nodes) || LostAt(me, h, es, i))
    ensures EmptySlave(me, h[i].nodes) ==> crash != SlaveOwnsSlots && (EmptySlave(me, h[i + 1].nodes) || FilledAt(me, h, es, i))
  {
    hide Possible, LosesMaster, FillsSlave;
  }
}
