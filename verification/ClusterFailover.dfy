/** The failover that the votes are for (cluster.c): a slave of a failed master, claiming the slots
    that the master owns under the configEpoch in its header, is granted the vote of every live
    voter and wins. The master m has configEpoch e and fails after telling the others. */
module ClusterFailover {
  import opened Basics
  import opened ClusterEpochs
  import opened ClusterProtocol
  import opened ClusterReach

  /** A live voter that knows master m at epoch e and candidate c at epoch ec. */
  function Live(v: Name, cur: nat, voted: nat, m: Name, e: nat, c: Name, ec: nat): Server {
    Server(v, cur, voted, 0, false, 0, map[v := 0, m := e, c := ec])
  }

  /** The slave c of m, which knows the live voters; own is its configEpoch. */
  function Slave(c: Name, cur: nat, count: nat, auth: nat, own: nat, m: Name, e: nat, live: set<Name>): Server {
    Server(c, cur, 0, count, auth != 0, auth, Epochs(c, own, live)[m := e])
  }

  /** The request carries the master's configEpoch, the ACK the voter's own. */
  function Request(c: Name, e: nat): Message {
    Message(c, e + 1, e, AuthRequest)
  }

  function Granting(v: Name, c: Name, e: nat): Ack {
    Ack(Message(v, e + 1, 0, AuthAck), c)
  }

  /** The claimed slots are unassigned or the master's. */
  ghost predicate MastersSlots(owners: seq<Option<Name>>, m: Name) {
    forall i | 0 <= i < |owners| :: owners[i] in {None, Some(m)}
  }

  // ---- single handlers -------------------------------------------------------------------------

  lemma VoterHears(v: Name, m: Name, e: nat, c: Name)
    requires v != m && v != c && m != c && e >= 1
    ensures OnPing(Voter(v, 0, {m, c}), Message(m, e, e, Ping), true) == Live(v, e, 0, m, e, c, 0)
  {
    assert Epochs(v, 0, {m, c})[m := e] == map[v := 0, m := e, c := 0];
  }

  lemma SlaveHears(c: Name, m: Name, e: nat, live: set<Name>)
    requires c != m && c !in live && m !in live
    ensures OnPing(Voter(c, 0, live + {m}), Message(m, e, e, Ping), false) == Slave(c, e, 0, 0, 0, m, e, live)
  {
    assert Epochs(c, 0, live + {m})[m := e] == Epochs(c, 0, live)[m := e];
  }

  lemma LiveGrants(v: Name, m: Name, e: nat, c: Name, owners: seq<Option<Name>>)
    requires v != m && v != c && m != c && MastersSlots(owners, m)
    ensures OnAuthRequest(Live(v, e, 0, m, e, c, 0), Request(c, e), true, true, owners) == Live(v, e + 1, e + 1, m, e, c, e)
    ensures Grants(Learn(Live(v, e, 0, m, e, c, 0), Request(c, e)), Request(c, e), true, true, owners)
  {
    var s := Learn(Live(v, e, 0, m, e, c, 0), Request(c, e));
    assert s.epochs == map[v := 0, m := e, c := e];
    assert OwnersNotNewer(s, owners, e);
  }

  lemma SlaveCounts(v: Name, c: Name, count: nat, m: Name, e: nat, live: set<Name>)
    requires v in live && c !in live && m !in live && c != m
    ensures OnAuthAck(Slave(c, e + 1, count, e + 1, 0, m, e, live), Granting(v, c, e).msg, true)
            == Slave(c, e + 1, count + 1, e + 1, 0, m, e, live)
    ensures v in Slave(c, e + 1, count, e + 1, 0, m, e, live).epochs
  {
    var t := Slave(c, e + 1, count, e + 1, 0, m, e, live).epochs;
    assert t[v := 0] == t;
  }

  // ---- the run ---------------------------------------------------------------------------------

  /** Everybody has met, and the master has its epoch and has sent a ping. */
  lemma Prepared(voters: set<Name>, live: set<Name>, m: Name, c: Name, e: nat) returns (w: World)
    requires live <= voters && m in voters && m !in live && c !in voters
    ensures Reachable(voters, w, true) && Tidy(w, live) && w.nodes.Keys == voters + {c} && Message(m, e, e, Ping) in w.net
    ensures (forall v | v in live :: w.nodes[v] == Voter(v, 0, {m, c})) && w.nodes[c] == Voter(c, 0, live + {m})
    ensures forall n | n in w.counted :: w.counted[n] == {}
  {
    w := Initial(voters + {c});
    StartReachable(voters, voters + {c}, true);
    AtFirst(voters + {c}, live);
    hide Reachable, Run, Tidy;
    w := AllMeet(voters, true, live, w, live, {m, c});
    w := MeetAll(voters, true, live, w, c, live + {m});
    w := Announces(voters, live, w, m, e);
  }

  lemma Announces(voters: set<Name>, live: set<Name>, w: World, m: Name, e: nat) returns (w': World)
    requires Reachable(voters, w, true) && Tidy(w, live) && m in w.nodes && w.nodes[m] == Voter(m, 0, {})
    ensures Reachable(voters, w', true) && Tidy(w', live) && Message(m, e, e, Ping) in w'.net
    ensures m in w'.nodes && w' == w.(nodes := w.nodes[m := w'.nodes[m]], net := w'.net)
  {
    hide Reachable;
    assert Epochs(m, 0, {}) == map[m := 0];
    Step(voters, true, w, SetEpoch(m, e));
    w' := Do(voters, w, SetEpoch(m, e));
    Step(voters, true, w', Send(m, m));
    w' := Do(voters, w', Send(m, m));
  }

  /** The live voters hear of the master's epoch. */
  lemma {:induction false} AllHear(voters: set<Name>, live: set<Name>, w: World, s: set<Name>, m: Name, c: Name, e: nat) returns (w': World)
    requires Reachable(voters, w, true) && Tidy(w, live) && s <= w.nodes.Keys && m !in s && c !in s && m != c && e >= 1
    requires Message(m, e, e, Ping) in w.net && forall v | v in s :: w.nodes[v] == Voter(v, 0, {m, c})
    ensures Reachable(voters, w', true) && Tidy(w', live)
    ensures w' == w.(nodes := map n | n in w.nodes :: if n in s then Live(n, e, 0, m, e, c, 0) else w.nodes[n])
    decreases |s|
  {
    hide Reachable, Voter, Live;
    if s == {} {
      w' := w;
      assert w.nodes == map n | n in w.nodes :: w.nodes[n];
    } else {
      var v :| v in s;
      var u := AllHear(voters, live, w, s - {v}, m, c, e);
      w' := Hear(voters, live, u, v, m, c, e);
    }
  }

  lemma Hear(voters: set<Name>, live: set<Name>, w: World, v: Name, m: Name, c: Name, e: nat) returns (w': World)
    requires Reachable(voters, w, true) && Tidy(w, live) && v in w.nodes && v != m && v != c && m != c && e >= 1
    requires Message(m, e, e, Ping) in w.net && w.nodes[v] == Voter(v, 0, {m, c})
    ensures Reachable(voters, w', true) && Tidy(w', live) && w' == w.(nodes := w.nodes[v := Live(v, e, 0, m, e, c, 0)])
  {
    hide Reachable, OnPing;
    VoterHears(v, m, e, c);
    Step(voters, true, w, DeliverPing(v, Message(m, e, e, Ping), true));
    w' := Do(voters, w, DeliverPing(v, Message(m, e, e, Ping), true));
  }

  /** The slave hears of it too, and when the master has failed it asks for votes. */
  lemma Asks(voters: set<Name>, live: set<Name>, w: World, m: Name, c: Name, e: nat) returns (w': World)
    requires Reachable(voters, w, true) && Tidy(w, live) && c in w.nodes && c !in live && m !in live && c != m
    requires Message(m, e, e, Ping) in w.net && w.nodes[c] == Voter(c, 0, live + {m})
    ensures Reachable(voters, w', true) && Tidy(w', live) && Request(c, e) in w'.net
    ensures w' == w.(nodes := w.nodes[c := Slave(c, e + 1, 0, e + 1, 0, m, e, live)], net := w'.net)
  {
    hide Reachable, OnPing;
    SlaveHears(c, m, e, live);
    var a := DeliverPing(c, Message(m, e, e, Ping), false);
    Step(voters, true, w, a);
    w' := Do(voters, w, a);
    Step(voters, true, w', Start(c, m));
    w' := Do(voters, w', Start(c, m));
  }

  /** Every live voter grants the request. */
  lemma {:induction false} AllGrant(voters: set<Name>, live: set<Name>, w: World, s: set<Name>, m: Name, c: Name, e: nat,
                                    owners: seq<Option<Name>>) returns (w': World)
    requires Reachable(voters, w, true) && Tidy(w, live) && s <= w.nodes.Keys && s <= live <= voters
    requires m !in s && c !in s && m != c && MastersSlots(owners, m)
    requires Request(c, e) in w.net && forall v | v in s :: w.nodes[v] == Live(v, e, 0, m, e, c, 0)
    ensures Reachable(voters, w', true) && Tidy(w', live) && w'.counted == w.counted
    ensures w'.nodes.Keys == w.nodes.Keys && forall n | n in w.nodes && n !in s :: w'.nodes[n] == w.nodes[n]
    ensures w.votes <= w'.votes && forall v | v in s :: Granting(v, c, e) in w'.acks && Vote(v, c, e + 1) in w'.votes
    ensures w'.net == w.net
    decreases |s|
  {
    hide Reachable, Live, Granting, Request, MastersSlots;
    if s == {} {
      w' := w;
    } else {
      var v :| v in s;
      var u := AllGrant(voters, live, w, s - {v}, m, c, e, owners);
      w' := Grant(voters, live, u, v, m, c, e, owners);
    }
  }

  lemma Grant(voters: set<Name>, live: set<Name>, w: World, v: Name, m: Name, c: Name, e: nat, owners: seq<Option<Name>>)
    returns (w': World)
    requires Reachable(voters, w, true) && Tidy(w, live) && v in w.nodes && v in live && live <= voters
    requires v != m && v != c && m != c && MastersSlots(owners, m)
    requires Request(c, e) in w.net && w.nodes[v] == Live(v, e, 0, m, e, c, 0)
    ensures Reachable(voters, w', true) && Tidy(w', live) && w'.counted == w.counted && w'.net == w.net
    ensures w'.nodes == w.nodes[v := Live(v, e + 1, e + 1, m, e, c, e)]
    ensures w'.acks == w.acks + {Granting(v, c, e)} && w'.votes == w.votes + {Vote(v, c, e + 1)}
  {
    hide Reachable, OnAuthRequest, Grants, Learn;
    var a := DeliverRequest(v, Request(c, e), true, true, owners, true, v);
    LiveGrants(v, m, e, c, owners);
    Step(voters, true, w, a);
    w' := Do(voters, w, a);
  }

  /** The slave counts all votes. */
  lemma {:induction false} CountAll(voters: set<Name>, live: set<Name>, w: World, s: set<Name>, m: Name, c: Name, e: nat) returns (w': World)
    requires Reachable(voters, w, true) && Tidy(w, live) && c in w.nodes && s <= live && c !in live && m !in live && c != m
    requires w.nodes[c] == Slave(c, e + 1, 0, e + 1, 0, m, e, live) && w.counted[c] == {}
    requires forall v | v in s :: Granting(v, c, e) in w.acks
    ensures Reachable(voters, w', true) && Tidy(w', live) && c in w'.nodes && w'.votes == w.votes
    ensures w'.nodes[c] == Slave(c, e + 1, |s|, e + 1, 0, m, e, live) && w'.counted[c] == s
    ensures forall k | k in w.acks && k.msg.sender !in s :: k in w'.acks
    decreases |s|
  {
    hide Reachable, Slave, Granting;
    if s == {} {
      w' := w;
    } else {
      var v :| v in s;
      var r := s - {v};
      GrantingIs(v, c, e);
      var u := CountAll(voters, live, w, r, m, c, e);
      w' := Count(voters, live, u, v, |r|, m, c, e);
      assert s == r + {v};
    }
  }

  lemma GrantingIs(v: Name, c: Name, e: nat)
    ensures Granting(v, c, e).msg.sender == v && Granting(v, c, e).to == c
  {
  }

  lemma Count(voters: set<Name>, live: set<Name>, w: World, v: Name, count: nat, m: Name, c: Name, e: nat) returns (w': World)
    requires Reachable(voters, w, true) && Tidy(w, live) && c in w.nodes && v in live && c !in live && m !in live && c != m
    requires w.nodes[c] == Slave(c, e + 1, count, e + 1, 0, m, e, live) && Granting(v, c, e) in w.acks
    ensures Reachable(voters, w', true) && Tidy(w', live) && c in w'.nodes && w'.votes == w.votes
    ensures w'.nodes[c] == Slave(c, e + 1, count + 1, e + 1, 0, m, e, live) && w'.counted[c] == w.counted[c] + {v}
    ensures w'.acks == w.acks - {Granting(v, c, e)}
  {
    hide Reachable, OnAuthAck, Learn;
    var a := DeliverAck(c, Granting(v, c, e), true);
    SlaveCounts(v, c, count, m, e, live);
    Step(voters, true, w, a);
    w' := Do(voters, w, a);
  }

  lemma TakesOver(voters: set<Name>, live: set<Name>, w: World, m: Name, c: Name, e: nat) returns (w': World)
    requires Reachable(voters, w, true) && Tidy(w, live) && c in w.nodes && |live| >= |voters| / 2 + 1 && c !in live && c != m
    requires w.nodes[c] == Slave(c, e + 1, |live|, e + 1, 0, m, e, live) && w.counted[c] == live
    ensures Reachable(voters, w', true) && Win(c, e + 1, |live|) in w'.wins && w'.votes == w.votes
    ensures c in w'.nodes && c in w'.nodes[c].epochs && w'.nodes[c].epochs[c] == e + 1
  {
    hide Reachable;
    Step(voters, true, w, TakeOverStep(c, |voters|));
    w' := Do(voters, w, TakeOverStep(c, |voters|));
  }

  lemma Elected(voters: set<Name>, live: set<Name>, m: Name, c: Name, e: nat, owners: seq<Option<Name>>) returns (w: World)
    requires live <= voters && |live| >= |voters| / 2 + 1 && m in voters && m !in live && c !in voters && e >= 1
    requires MastersSlots(owners, m)
    ensures Reachable(voters, w, true) && Win(c, e + 1, |live|) in w.wins && c in w.nodes
    ensures c in w.nodes[c].epochs && w.nodes[c].epochs[c] == e + 1
    ensures forall v | v in live :: Vote(v, c, e + 1) in w.votes
  {
    hide Reachable, Voter, Live, Slave, Granting, Request, MastersSlots;
    w := Prepared(voters, live, m, c, e);
    w := AllHear(voters, live, w, live, m, c, e);
    w := Asks(voters, live, w, m, c, e);
    w := AllGrant(voters, live, w, live, m, c, e, owners);
    w := CountAll(voters, live, w, live, m, c, e);
    w := TakesOver(voters, live, w, m, c, e);
  }

  /** For every set of voters with a majority alive, every configEpoch of the failed master and all
      its slots: there is a run without early ACKs in which all live voters vote for the slave, and
      it wins and takes the epoch that it won. */
  lemma FailoverSucceeds(voters: set<Name>, live: set<Name>, m: Name, c: Name, e: nat, owners: seq<Option<Name>>)
    returns (worlds: seq<World>, actions: seq<Action>)
    requires live <= voters && |live| >= |voters| / 2 + 1 && m in voters && m !in live && c !in voters && e >= 1
    requires MastersSlots(owners, m)
    ensures Run(voters, worlds, actions) && NoEarlyAck(worlds, actions)
    ensures var w := worlds[|actions|];
            && Win(c, e + 1, |live|) in w.wins && (forall v | v in live :: Vote(v, c, e + 1) in w.votes)
            && c in w.nodes && c in w.nodes[c].epochs && w.nodes[c].epochs[c] == e + 1
  {
    var w := Elected(voters, live, m, c, e, owners);
    worlds, actions :| Run(voters, worlds, actions) && w == worlds[|actions|] && NoEarlyAck(worlds, actions);
  }
}
