/** Tools for building runs of the cluster (cluster.c): reachable worlds, and nodes that get to know
    each other. */
module ClusterReach {
  import opened ClusterEpochs
  import opened ClusterProtocol

  /** The epochs of a node that knows these others, all at epoch 0. */
  function Epochs(n: Name, own: nat, known: set<Name>): map<Name, nat> {
    map x | x in known + {n} :: if x == n then own else 0
  }

  function Voter(v: Name, epoch: nat, known: set<Name>): Server {
    Server(v, epoch, epoch, 0, false, 0, Epochs(v, 0, known))
  }

  // ---- reachable worlds ------------------------------------------------------------------------

  /** Some run leads to the world; if clean, one in which no ACK is counted early. */
  ghost predicate Reachable(voters: set<Name>, w: World, clean: bool) {
    exists worlds: seq<World>, actions: seq<Action> ::
      Run(voters, worlds, actions) && w == worlds[|actions|] && (clean ==> NoEarlyAck(worlds, actions))
  }

  lemma Step(voters: set<Name>, clean: bool, w: World, a: Action)
    requires Reachable(voters, w, clean) && Enabled(voters, w, a) && (clean ==> !CountsEarly(w, a))
    ensures Reachable(voters, Do(voters, w, a), clean)
  {
    hide Do, Enabled, Initial, CountsEarly;
    var worlds: seq<World>, actions: seq<Action> :|
      Run(voters, worlds, actions) && w == worlds[|actions|] && (clean ==> NoEarlyAck(worlds, actions));
    var worlds', actions' := worlds + [Do(voters, w, a)], actions + [a];
    forall i | 0 <= i < |actions'|
      ensures Enabled(voters, worlds'[i], actions'[i]) && worlds'[i + 1] == Do(voters, worlds'[i], actions'[i])
      ensures clean ==> !CountsEarly(worlds'[i], actions'[i])
    {
      if i < |actions| {
        assert worlds'[i] == worlds[i] && worlds'[i + 1] == worlds[i + 1] && actions'[i] == actions[i];
      }
    }
    assert Run(voters, worlds', actions') && worlds'[|actions'|] == Do(voters, w, a);
  }

  /** The records are about the nodes, and only live nodes have voted. */
  ghost predicate Tidy(w: World, live: set<Name>) {
    w.counted.Keys == w.nodes.Keys && w.stale.Keys == w.nodes.Keys && forall x | x in w.votes :: x.voter in live
  }

  /** A node without acquaintances meets these nodes. */
  lemma {:induction false} MeetAll(voters: set<Name>, clean: bool, live: set<Name>, w: World, n: Name, others: set<Name>) returns (w': World)
    requires Reachable(voters, w, clean) && Tidy(w, live) && n in w.nodes && w.nodes[n] == Voter(n, 0, {}) && n !in others
    ensures Reachable(voters, w', clean) && Tidy(w', live)
    ensures w' == w.(nodes := w.nodes[n := Voter(n, 0, others)])
    decreases |others|
  {
    hide Reachable, Initial;
    if others == {} {
      w' := w;
      assert w.nodes[n := w.nodes[n]] == w.nodes;
    } else {
      var x :| x in others;
      var u := MeetAll(voters, clean, live, w, n, others - {x});
      Step(voters, clean, u, Meet(n, x));
      w' := Do(voters, u, Meet(n, x));
      assert Epochs(n, 0, others - {x})[x := 0] == Epochs(n, 0, others);
    }
  }

  /** Each of these nodes meets those others. */
  lemma {:induction false} AllMeet(voters: set<Name>, clean: bool, live: set<Name>, w: World, s: set<Name>, known: set<Name>) returns (w': World)
    requires Reachable(voters, w, clean) && Tidy(w, live) && s <= w.nodes.Keys && s !! known
    requires forall v | v in s :: w.nodes[v] == Voter(v, 0, {})
    ensures Reachable(voters, w', clean) && Tidy(w', live)
    ensures w' == w.(nodes := map n | n in w.nodes :: if n in s then Voter(n, 0, known) else w.nodes[n])
    decreases |s|
  {
    hide Reachable, Initial, Voter;
    if s == {} {
      w' := w;
      assert w.nodes == map n | n in w.nodes :: w.nodes[n];
    } else {
      var v :| v in s;
      var u := AllMeet(voters, clean, live, w, s - {v}, known);
      w' := MeetAll(voters, clean, live, u, v, known);
    }
  }

  lemma StartReachable(voters: set<Name>, names: set<Name>, clean: bool)
    ensures Reachable(voters, Initial(names), clean)
  {
    var w := Initial(names);
    assert Run(voters, [w], []) && w == [w][0] && NoEarlyAck([w], []);
  }

  lemma AtFirst(names: set<Name>, live: set<Name>)
    ensures var w := Initial(names); Tidy(w, live) && w.wins == {} && w.nodes.Keys == names
    ensures forall n | n in names :: Initial(names).nodes[n] == Voter(n, 0, {})
  {
    forall n | n in names ensures Initial(names).nodes[n] == Voter(n, 0, {}) {
      assert map[n := 0] == Epochs(n, 0, {});
    }
  }
}
