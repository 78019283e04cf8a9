/** configEpoch collision resolution (cluster.c) among a fixed set of masters with distinct
    names, when nothing else changes epochs. Pings may be delivered late, in any order and
    repeatedly. */
module ClusterCollision {
  import opened Basics
  import opened ClusterEpochs

  /** net holds every ping ever sent. held[n] records all configEpochs node n has had, and
      bumps[n] how often it took a new one. */
  datatype Masters = Masters(nodes: map<Name, Server>, net: set<Message>, held: map<Name, set<nat>>, bumps: map<Name, nat>)

  datatype Action = SendPing(n: Name) | Deliver(n: Name, msg: Message)

  function PingOf(s: Server): Message
    requires Known(s)
  {
    Message(s.myself, s.currentEpoch, s.epochs[s.myself], Ping)
  }

  predicate Enabled(w: Masters, a: Action) {
    && a.n in w.nodes && a.n in w.held && a.n in w.bumps && w.nodes[a.n].myself in w.nodes[a.n].epochs
    && (a.Deliver? ==> a.msg in w.net)
  }

  function Do(w: Masters, a: Action): Masters
    requires Enabled(w, a)
  {
    var s := w.nodes[a.n];
    match a
    case SendPing(_) => w.(net := w.net + {PingOf(s)})
    case Deliver(n, msg) =>
      var s' := OnPing(s, msg, true);
      var w' := w.(nodes := w.nodes[n := s']);
      if s'.epochs[s'.myself] == s.epochs[s.myself] then w'
      else w'.(held := w.held[n := w.held[n] + {s'.epochs[s'.myself]}], bumps := w.bumps[n := w.bumps[n] + 1])
  }

  /** No node's view of another is ahead of the truth. */
  ghost predicate ViewsOk(w: Masters) {
    && (forall n | n in w.nodes :: w.nodes[n].myself == n && n in w.nodes[n].epochs)
    && (forall n, m | n in w.nodes && m in w.nodes && m in w.nodes[n].epochs ::
          w.nodes[n].epochs[m] <= w.nodes[m].epochs[m])
    && (forall n, m | n in w.nodes && m in w.nodes[n].epochs :: w.nodes[n].epochs[m] <= w.nodes[n].currentEpoch)
  }

  /** Any epochs, equal or not, with no ping on the way. */
  ghost predicate Initial(w: Masters) {
    && ViewsOk(w) && w.net == {}
    && w.held == (map n | n in w.nodes :: {w.nodes[n].epochs[n]})
    && w.bumps == (map n | n in w.nodes :: 0)
  }

  ghost predicate Run(worlds: seq<Masters>, actions: seq<Action>) {
    && |worlds| == |actions| + 1 && Initial(worlds[0])
    && forall i | 0 <= i < |actions| :: Enabled(worlds[i], actions[i]) && worlds[i + 1] == Do(worlds[i], actions[i])
  }

  function Own(w: Masters, n: Name): nat
    requires n in w.nodes && n in w.nodes[n].epochs
  {
    w.nodes[n].epochs[n]
  }

  /** An epoch a node has given up was held by a node with a larger name. */
  ghost predicate GivenUp(w: Masters, n: Name, e: nat) {
    exists m :: m in w.nodes && m in w.held && m > n && e in w.held[m]
  }

  /** Each node holds its own epoch, the largest it ever had, and has bumped once per
      epoch it gave up. */
  ghost predicate HeldOk(w: Masters) {
    && w.held.Keys == w.nodes.Keys && w.bumps.Keys == w.nodes.Keys
    && (forall n | n in w.nodes && n in w.nodes[n].epochs ::
          && Own(w, n) in w.held[n] && |w.held[n]| == w.bumps[n] + 1
          && (forall e | e in w.held[n] :: e <= Own(w, n)))
  }

  ghost predicate GivenUpOk(w: Masters) {
    forall n, e | n in w.nodes && n in w.nodes[n].epochs && n in w.held && e in w.held[n] && e != Own(w, n) ::
      GivenUp(w, n, e)
  }

  /** Pings carry an epoch that their sender has had. */
  ghost predicate NetOk(w: Masters) {
    forall m | m in w.net ::
      && m.sender in w.nodes && m.sender in w.held && m.configEpoch in w.held[m.sender]
      && m.kind.Ping? && m.currentEpoch >= m.configEpoch
  }

  ghost predicate HistoryOk(w: Masters) {
    ViewsOk(w) && HeldOk(w) && GivenUpOk(w) && NetOk(w)
  }

  /** A delivery either takes no new epoch, or gives up one that the sender, whose name is
      larger, has had, for one above everything the node knows. */
  lemma DeliverMeaning(w: Masters, n: Name, msg: Message)
    requires HistoryOk(w) && n in w.nodes && msg in w.net
    ensures var s, s' := w.nodes[n], OnPing(w.nodes[n], msg, true);
            && s'.myself == n && n in s'.epochs && s.epochs[n] <= s'.epochs[n] <= s'.currentEpoch
            && (s'.epochs[n] != s.epochs[n] ==>
                  && msg.sender > n && msg.configEpoch == s.epochs[n]
                  && s'.epochs[n] > s.currentEpoch)
            && (forall m | m in s'.epochs :: s'.epochs[m] <= s'.currentEpoch)
            && (forall m | m in s'.epochs && m != n ::
                  m in s.epochs && (s'.epochs[m] == s.epochs[m] || (m == msg.sender && s'.epochs[m] == msg.configEpoch)))
  {
    hide GivenUpOk;
  }

  lemma HistoryStep(w: Masters, a: Action)
    requires HistoryOk(w) && Enabled(w, a)
    ensures HistoryOk(Do(w, a)) && Do(w, a).nodes.Keys == w.nodes.Keys
  {
    hide OnPing;
    if a.Deliver? { DeliverKeeps(w, a.n, a.msg); } else { SendKeeps(w, a.n); }
  }

  lemma SendKeeps(w: Masters, n: Name)
    requires HistoryOk(w) && Enabled(w, SendPing(n))
    ensures HistoryOk(Do(w, SendPing(n)))
  {
    hide GivenUpOk;
    assert Own(w, n) in w.held[n];
    assert GivenUpOk(Do(w, SendPing(n))) by { SameGivenUp(w, Do(w, SendPing(n))); }
  }

  lemma SameGivenUp(w: Masters, w': Masters)
    requires GivenUpOk(w) && w'.nodes == w.nodes && w'.held == w.held
    ensures GivenUpOk(w')
  {
    forall n, e | GivenUp(w, n, e) ensures GivenUp(w', n, e) {
    }
  }

  lemma InitialOk(w: Masters)
    requires Initial(w)
    ensures HistoryOk(w)
  {
  }

  /** The effect of one delivery on the node n and the records. */
  ghost predicate Delivered(w: Masters, w': Masters, n: Name, msg: Message) {
    && n in w.nodes && n in w'.nodes && n in w.held && n in w.bumps
    && var s, s' := w.nodes[n], w'.nodes[n];
    && w'.nodes == w.nodes[n := s'] && w'.net == w.net
    && s'.myself == n && n in s.epochs && n in s'.epochs && s.epochs[n] <= s'.epochs[n]
    && (if s'.epochs[n] == s.epochs[n] then w'.held == w.held && w'.bumps == w.bumps
        else
          && msg.sender > n && msg.configEpoch == s.epochs[n]
          && w'.held == w.held[n := w.held[n] + {s'.epochs[n]}]
          && w'.bumps == w.bumps[n := w.bumps[n] + 1])
  }

  lemma DeliveredHeld(w: Masters, w': Masters, n: Name, msg: Message)
    requires HeldOk(w) && Delivered(w, w', n, msg)
    ensures HeldOk(w')
  {
    if w'.nodes[n].epochs[n] != w.nodes[n].epochs[n] {
      assert w'.nodes[n].epochs[n] !in w.held[n];
    }
  }

  lemma DeliveredGivenUp(w: Masters, w': Masters, n: Name, msg: Message)
    requires HeldOk(w) && GivenUpOk(w) && NetOk(w) && msg in w.net && Delivered(w, w', n, msg)
    ensures GivenUpOk(w')
  {
    forall x, e | x in w'.nodes && x in w'.nodes[x].epochs && x in w'.held && e in w'.held[x] && e != Own(w', x)
      ensures GivenUp(w', x, e)
    {
      if e != Own(w, x) {
        var m :| m in w.nodes && m in w.held && m > x && e in w.held[m];
        assert e in w'.held[m];
      } else {
        assert x == n && e in w.held[msg.sender];
        assert e in w'.held[msg.sender];
      }
    }
  }

  lemma DeliveredNet(w: Masters, w': Masters, n: Name, msg: Message)
    requires NetOk(w) && Delivered(w, w', n, msg)
    ensures NetOk(w')
  {
  }

  lemma DeliveredViews(w: Masters, w': Masters, n: Name, msg: Message)
    requires HistoryOk(w) && msg in w.net && Delivered(w, w', n, msg) && w'.nodes[n] == OnPing(w.nodes[n], msg, true)
    ensures ViewsOk(w')
  {
    hide OnPing, GivenUpOk;
    DeliverMeaning(w, n, msg);
    assert msg.sender in w.nodes && msg.configEpoch <= Own(w, msg.sender);
    hide HeldOk, NetOk, Delivered;
    NewView(w, w', n, msg);
  }

  /** One node learned at most the sender's published epoch, and may have raised its own. */
  lemma NewView(w: Masters, w': Masters, n: Name, msg: Message)
    requires ViewsOk(w) && n in w.nodes && n in w'.nodes && w'.nodes == w.nodes[n := w'.nodes[n]]
    requires var s, s' := w.nodes[n], w'.nodes[n];
             && s'.myself == n && n in s'.epochs && s.epochs[n] <= s'.epochs[n]
             && (forall m | m in s'.epochs :: s'.epochs[m] <= s'.currentEpoch)
             && (forall m | m in s'.epochs && m != n ::
                   m in s.epochs && (s'.epochs[m] == s.epochs[m] || (m == msg.sender && s'.epochs[m] == msg.configEpoch)))
    requires msg.sender in w.nodes && msg.sender in w.nodes[msg.sender].epochs && msg.configEpoch <= Own(w, msg.sender)
    ensures ViewsOk(w')
  {
    forall x, m | x in w'.nodes && m in w'.nodes && m in w'.nodes[x].epochs
      ensures w'.nodes[x].epochs[m] <= w'.nodes[m].epochs[m]
    {
      if x != n { assert w'.nodes[x] == w.nodes[x]; }
      if m != n { assert w'.nodes[m] == w.nodes[m]; }
    }
  }

  lemma DeliverKeeps(w: Masters, n: Name, msg: Message)
    requires HistoryOk(w) && Enabled(w, Deliver(n, msg))
    ensures HistoryOk(Do(w, Deliver(n, msg)))
  {
    hide OnPing, HeldOk, GivenUpOk, NetOk;
    DeliverMeaning(w, n, msg);
    var w' := Do(w, Deliver(n, msg));
    DeliveredHeld(w, w', n, msg);
    DeliveredGivenUp(w, w', n, msg);
    DeliveredNet(w, w', n, msg);
    DeliveredViews(w, w', n, msg);
  }

  lemma {:induction false} HistoryInvariant(worlds: seq<Masters>, actions: seq<Action>, i: nat)
    requires Run(worlds, actions) && i < |worlds|
    ensures HistoryOk(worlds[i]) && worlds[i].nodes.Keys == worlds[0].nodes.Keys
  {
    hide HistoryOk, Initial;
    if i > 0 {
      HistoryInvariant(worlds, actions, i - 1);
      HistoryStep(worlds[i - 1], actions[i - 1]);
    } else {
      InitialOk(worlds[0]);
    }
  }

  // ---- counting epochs --------------------------------------------------------------------

  ghost function Larger(w: Masters, n: int): set<Name> {
    set m | m in w.nodes && m > n
  }

  /** All epochs ever held by nodes named above n. */
  ghost function HeldAbove(w: Masters, n: int): set<nat>
    requires w.held.Keys == w.nodes.Keys
  {
    set m, e | m in w.nodes && m > n && e in w.held[m] :: e
  }

  lemma LeastName(s: set<Name>) returns (m: Name)
    requires s != {}
    ensures m in s && forall x | x in s :: m <= x
  {
    m :| m in s;
    while exists x :: x in s && x < m
      invariant m in s
      decreases m
    {
      var x :| x in s && x < m;
      m := x;
    }
  }

  /** As many epochs were ever held above n as there are nodes above n, at most: each epoch
      is still the own epoch of the largest node that held it. */
  lemma {:induction false} HeldAboveBound(w: Masters, n: int)
    requires HistoryOk(w)
    ensures |HeldAbove(w, n)| <= |Larger(w, n)|
    decreases |Larger(w, n)|
  {
    hide ViewsOk, NetOk, HeldAbove;
    var s := Larger(w, n);
    if s == {} {
      NothingAbove(w, n);
    } else {
      var m := LeastName(s);
      assert Larger(w, m) == s - {m};
      HeldAboveBound(w, m);
      HeldAboveLeast(w, n, m);
      SubsetSize(HeldAbove(w, n), HeldAbove(w, m) + {Own(w, m)});
    }
  }

  lemma NothingAbove(w: Masters, n: int)
    requires w.held.Keys == w.nodes.Keys && Larger(w, n) == {}
    ensures HeldAbove(w, n) == {}
  {
    forall x | x in w.nodes ensures x <= n {
      assert x > n ==> x in Larger(w, n);
    }
  }

  lemma HeldAboveLeast(w: Masters, n: int, m: Name)
    requires ViewsOk(w) && HeldOk(w) && GivenUpOk(w) && m in Larger(w, n) && forall x | x in Larger(w, n) :: m <= x
    ensures m in w.nodes && m in w.nodes[m].epochs
    ensures HeldAbove(w, n) <= HeldAbove(w, m) + {Own(w, m)}
  {
    forall e | e in HeldAbove(w, n) ensures e in HeldAbove(w, m) + {Own(w, m)} {
      var x :| x in w.nodes && x > n && e in w.held[x];
      assert x in Larger(w, n);
      if x == m && e != Own(w, m) { assert GivenUp(w, m, e); }
    }
  }

  /** In any run, a node bumps its configEpoch at most once per node with a larger name. */
  lemma BumpsAreBounded(worlds: seq<Masters>, actions: seq<Action>, i: nat, n: Name)
    requires Run(worlds, actions) && i < |worlds| && n in worlds[0].nodes
    ensures n in worlds[i].bumps && worlds[i].bumps[n] <= |Larger(worlds[0], n)|
  {
    hide Run, HistoryOk;
    HistoryInvariant(worlds, actions, i);
    var w := worlds[i];
    HeldAboveBound(w, n);
    assert Larger(w, n) == Larger(worlds[0], n);
    BumpsCount(w, n);
  }

  /** Each bump left an epoch behind that a larger node has held. */
  lemma BumpsCount(w: Masters, n: Name)
    requires HistoryOk(w) && n in w.nodes
    ensures n in w.bumps && w.held.Keys == w.nodes.Keys && w.bumps[n] <= |HeldAbove(w, n)|
  {
    hide NetOk;
    var before := w.held[n] - {Own(w, n)};
    forall e | e in before ensures e in HeldAbove(w, n) {
      assert GivenUp(w, n, e);
    }
    SubsetSize(before, HeldAbove(w, n));
    assert |w.held[n]| == |before| + 1;
  }

  // ---- when nothing more happens -----------------------------------------------------------

  /** No node would take a new epoch on receiving the current ping of any node it knows. */
  ghost predicate Settled(w: Masters) {
    forall n, m | n in w.nodes && m in w.nodes && Known(w.nodes[n]) && Known(w.nodes[m]) && m in w.nodes[n].epochs ::
      var s' := OnPing(w.nodes[n], PingOf(w.nodes[m]), true);
      n in s'.epochs && s'.epochs[n] == w.nodes[n].epochs[n]
  }

  ghost predicate AllDistinct(w: Masters) {
    forall n, m | n in w.nodes && m in w.nodes && n != m && n in w.nodes[n].epochs && m in w.nodes[m].epochs ::
      Own(w, n) != Own(w, m)
  }

  ghost predicate AllKnown(w: Masters) {
    forall n, m | n in w.nodes && m in w.nodes :: m in w.nodes[n].epochs
  }

  /** When all nodes know each other, collision resolution has come to rest exactly when all
      configEpochs differ. */
  lemma SettledExactlyWhenDistinct(worlds: seq<Masters>, actions: seq<Action>, i: nat)
    requires Run(worlds, actions) && i < |worlds| && AllKnown(worlds[i])
    ensures Settled(worlds[i]) <==> AllDistinct(worlds[i])
  {
    hide Run, HeldOk, GivenUpOk, NetOk, OnPing;
    HistoryInvariant(worlds, actions, i);
    var w := worlds[i];
    if Settled(w) {
      forall n, m | n in w.nodes && m in w.nodes && n < m ensures Own(w, n) != Own(w, m) {
        CurrentPing(w, n, m);
      }
    }
    if AllDistinct(w) {
      forall n, m | n in w.nodes && m in w.nodes
        ensures var s' := OnPing(w.nodes[n], PingOf(w.nodes[m]), true);
                n in s'.epochs && s'.epochs[n] == w.nodes[n].epochs[n]
      {
        CurrentPing(w, n, m);
      }
    }
  }

  /** The current ping of m makes n move exactly when they collide and n has the smaller name. */
  lemma CurrentPing(w: Masters, n: Name, m: Name)
    requires ViewsOk(w) && n in w.nodes && m in w.nodes && m in w.nodes[n].epochs
    ensures var s' := OnPing(w.nodes[n], PingOf(w.nodes[m]), true);
            n in s'.epochs && (s'.epochs[n] != w.nodes[n].epochs[n] <==> n < m && Own(w, n) == Own(w, m))
  {
  }
}
