/** Why election safety needs its hypothesis (cluster.c): the tally is not reset when an election
    epoch is assigned, and ACKs counted just before can give two winners of one epoch. Any two
    candidates and any set of voters will do, of which only the nodes in live take part. */
module ClusterEarlyAck {
  import opened Basics
  import opened ClusterEpochs
  import opened ClusterProtocol
  import opened ClusterReach

  function Candidate(c: Name, cur: nat, count: nat, sent: bool, auth: nat, known: set<Name>): Server {
    Server(c, cur, 0, count, sent, auth, Epochs(c, 0, known))
  }

  function Request(c: Name, e: nat): Message {
    Message(c, e, 0, AuthRequest)
  }

  /** The ACK of voter v for candidate c. */
  function Granting(v: Name, c: Name, e: nat): Ack {
    Ack(Message(v, e, 0, AuthAck), c)
  }

  // ---- single handlers -------------------------------------------------------------------------

  /** A message without news changes no epoch. */
  lemma NothingLearnt(s: Server, msg: Message)
    requires msg.sender in s.epochs && msg.configEpoch <= s.epochs[msg.sender] && msg.currentEpoch <= s.currentEpoch
    ensures Learn(s, msg) == s
  {
    assert s.epochs[msg.sender := s.epochs[msg.sender]] == s.epochs;
  }

  lemma VoterGrants(v: Name, epoch: nat, known: set<Name>, c: Name, e: nat)
    requires c in known && c != v && epoch < e
    ensures OnAuthRequest(Voter(v, epoch, known), Request(c, e), true, true, []) == Voter(v, e, known)
    ensures Grants(Learn(Voter(v, epoch, known), Request(c, e)), Request(c, e), true, true, [])
  {
    assert Epochs(v, 0, known)[c := 0] == Epochs(v, 0, known);
  }

  lemma CandidateCounts(v: Name, c: Name, cur: nat, count: nat, sent: bool, e: nat, known: set<Name>)
    requires v in known && v != c && e <= cur
    ensures OnAuthAck(Candidate(c, cur, count, sent, e, known), Granting(v, c, e).msg, true)
            == Candidate(c, cur, count + 1, sent, e, known)
    ensures v in Candidate(c, cur, count, sent, e, known).epochs
  {
    NothingLearnt(Candidate(c, cur, count, sent, e, known), Granting(v, c, e).msg);
  }

  lemma CandidateLearns(v: Name, c: Name, cur: nat, count: nat, auth: nat, known: set<Name>, e: nat)
    requires v in known && v != c && cur <= e
    ensures OnPing(Candidate(c, cur, count, false, auth, known), Message(v, e, 0, Ping), false)
            == Candidate(c, e, count, false, auth, known)
  {
    assert Epochs(c, 0, known)[v := 0] == Epochs(c, 0, known);
  }

  lemma StartsElection(voters: set<Name>, live: set<Name>, w: World, c: Name, cur: nat, count: nat, auth: nat, known: set<Name>)
    returns (w': World)
    requires Reachable(voters, w, false) && Tidy(w, live) && c in w.nodes && w.nodes[c] == Candidate(c, cur, count, false, auth, known)
    ensures Reachable(voters, w', false) && Tidy(w', live)
    ensures w' == w.(nodes := w.nodes[c := Candidate(c, cur + 1, count, true, cur + 1, known)], net := w.net + {Request(c, cur + 1)})
  {
    hide Reachable;
    Step(voters, false, w, Start(c, c));
    w' := Do(voters, w, Start(c, c));
  }

  lemma Resets(voters: set<Name>, live: set<Name>, w: World, c: Name, cur: nat, count: nat, sent: bool, auth: nat, known: set<Name>)
    returns (w': World)
    requires Reachable(voters, w, false) && Tidy(w, live) && c in w.nodes && w.nodes[c] == Candidate(c, cur, count, sent, auth, known)
    ensures Reachable(voters, w', false) && Tidy(w', live)
    ensures w' == w.(nodes := w.nodes[c := Candidate(c, cur, 0, false, auth, known)], counted := w.counted[c := {}], stale := w.stale[c := 0])
  {
    hide Reachable;
    Step(voters, false, w, Schedule(c));
    w' := Do(voters, w, Schedule(c));
  }

  /** These voters grant the request of a candidate; the ACKs stay under way. */
  lemma {:induction false} AllGrant(voters: set<Name>, live: set<Name>, w: World, s: set<Name>, epoch: nat, known: set<Name>, c: Name, e: nat)
    returns (w': World)
    requires Reachable(voters, w, false) && Tidy(w, live) && s <= w.nodes.Keys && s <= live <= voters && c in known && s !! known
    requires epoch < e && Request(c, e) in w.net && forall v | v in s :: w.nodes[v] == Voter(v, epoch, known)
    ensures Reachable(voters, w', false) && Tidy(w', live) && w'.net == w.net && w'.wins == w.wins
    ensures w'.counted == w.counted && w'.stale == w.stale
    ensures w'.nodes == map n | n in w.nodes :: if n in s then Voter(n, e, known) else w.nodes[n]
    ensures w.acks <= w'.acks && forall v | v in s :: Granting(v, c, e) in w'.acks
    decreases |s|
  {
    hide Reachable, Voter, Request, Granting;
    if s == {} {
      w' := w;
      assert w.nodes == map n | n in w.nodes :: w.nodes[n];
    } else {
      var v :| v in s;
      var u := AllGrant(voters, live, w, s - {v}, epoch, known, c, e);
      w' := Grant(voters, live, u, v, epoch, known, c, e);
    }
  }

  lemma Grant(voters: set<Name>, live: set<Name>, w: World, v: Name, epoch: nat, known: set<Name>, c: Name, e: nat) returns (w': World)
    requires Reachable(voters, w, false) && Tidy(w, live) && v in w.nodes && v in live && live <= voters && c in known && v !in known
    requires epoch < e && Request(c, e) in w.net && w.nodes[v] == Voter(v, epoch, known)
    ensures Reachable(voters, w', false) && Tidy(w', live) && w'.net == w.net && w'.wins == w.wins
    ensures w'.counted == w.counted && w'.stale == w.stale && w'.nodes == w.nodes[v := Voter(v, e, known)]
    ensures w'.acks == w.acks + {Granting(v, c, e)}
  {
    hide Reachable, OnAuthRequest, Grants, Learn;
    var a := DeliverRequest(v, Request(c, e), true, true, [], true, v);
    VoterGrants(v, epoch, known, c, e);
    Step(voters, false, w, a);
    w' := Do(voters, w, a);
  }

  /** ACKs of these voters to candidate c have been counted, in an election or before it. */
  ghost predicate CountedFrom(w: World, w': World, c: Name, s: set<Name>, sent: bool) {
    && c in w.counted && c in w.stale && w'.net == w.net && w'.wins == w.wins
    && (forall k | k in w.acks :: k in w'.acks || (k.to == c && k.msg.sender in s))
    && if sent then w'.counted == w.counted[c := w.counted[c] + s] && w'.stale == w.stale
       else w'.counted == w.counted && w'.stale == w.stale[c := w.stale[c] + |s|]
  }

  lemma NoneCounted(w: World, c: Name, sent: bool)
    requires c in w.counted && c in w.stale && c in w.nodes
    ensures CountedFrom(w, w, c, {}, sent) && w.nodes[c := w.nodes[c]] == w.nodes
  {
    assert w.counted[c] + {} == w.counted[c];
    assert w.counted[c := w.counted[c]] == w.counted;
    var none: set<Name> := {};
    assert |none| == 0 && w.stale[c := w.stale[c]] == w.stale;
    assert w.nodes[c := w.nodes[c]] == w.nodes;
  }

  lemma OneMoreCounted(w: World, u: World, w': World, c: Name, s: set<Name>, v: Name, sent: bool)
    requires CountedFrom(w, u, c, s - {v}, sent) && CountedFrom(u, w', c, {v}, sent) && v in s
    ensures CountedFrom(w, w', c, s, sent)
  {
    assert s == s - {v} + {v} && |s| == |s - {v}| + 1;
    if sent { assert w.counted[c] + s == w.counted[c] + (s - {v}) + {v}; }
  }

  lemma StillUnderWay(w: World, u: World, c: Name, s: set<Name>, v: Name, e: nat, sent: bool)
    requires CountedFrom(w, u, c, s, sent) && v !in s && Granting(v, c, e) in w.acks
    ensures Granting(v, c, e) in u.acks
  {
  }

  /** A candidate counts the ACKs of these voters. */
  lemma {:induction false} CountAll(voters: set<Name>, live: set<Name>, w: World, c: Name, s: set<Name>,
                                    cur: nat, count: nat, sent: bool, e: nat, known: set<Name>)
    returns (w': World)
    requires Reachable(voters, w, false) && Tidy(w, live) && c in w.nodes && s <= known && c !in known && e <= cur
    requires w.nodes[c] == Candidate(c, cur, count, sent, e, known) && forall v | v in s :: Granting(v, c, e) in w.acks
    ensures Reachable(voters, w', false) && Tidy(w', live) && CountedFrom(w, w', c, s, sent)
    ensures w'.nodes == w.nodes[c := Candidate(c, cur, count + |s|, sent, e, known)]
    decreases |s|
  {
    hide Reachable, Candidate, Granting, CountedFrom;
    if s == {} {
      w' := w;
      NoneCounted(w, c, sent);
    } else {
      var v :| v in s;
      var r := s - {v};
      var u := CountAll(voters, live, w, c, r, cur, count, sent, e, known);
      StillUnderWay(w, u, c, r, v, e, sent);
      w' := Count(voters, live, u, v, c, cur, count + |r|, sent, e, known);
      OneMoreCounted(w, u, w', c, s, v, sent);
    }
  }

  lemma Count(voters: set<Name>, live: set<Name>, w: World, v: Name, c: Name, cur: nat, count: nat, sent: bool, e: nat, known: set<Name>)
    returns (w': World)
    requires Reachable(voters, w, false) && Tidy(w, live) && c in w.nodes && v in known && c !in known && e <= cur
    requires w.nodes[c] == Candidate(c, cur, count, sent, e, known) && Granting(v, c, e) in w.acks
    ensures Reachable(voters, w', false) && Tidy(w', live) && CountedFrom(w, w', c, {v}, sent)
    ensures w'.nodes == w.nodes[c := Candidate(c, cur, count + 1, sent, e, known)]
  {
    hide Reachable, OnAuthAck, Learn;
    var a := DeliverAck(c, Granting(v, c, e), true);
    CandidateCounts(v, c, cur, count, sent, e, known);
    Step(voters, false, w, a);
    w' := Do(voters, w, a);
  }

  lemma Wins(voters: set<Name>, live: set<Name>, w: World, c: Name, cur: nat, count: nat, e: nat, known: set<Name>) returns (w': World)
    requires Reachable(voters, w, false) && Tidy(w, live) && c in w.nodes && w.nodes[c] == Candidate(c, cur, count, true, e, known)
    requires count >= |voters| / 2 + 1
    ensures Reachable(voters, w', false) && Tidy(w', live) && w'.wins == w.wins + {Win(c, e, |w.counted[c]|)}
    ensures w'.nodes.Keys == w.nodes.Keys && (forall n | n in w.nodes && n != c :: w'.nodes[n] == w.nodes[n])
    ensures w'.counted == w.counted
  {
    hide Reachable, TakeOver;
    var a := TakeOverStep(c, |voters|);
    Step(voters, false, w, a);
    w' := Do(voters, w, a);
  }

  // ---- the run ---------------------------------------------------------------------------------

  /** The live voters are at one epoch; the candidates a and b are as given. */
  ghost predicate Stage(w: World, live: set<Name>, a: Name, b: Name, epoch: nat, sa: Server, sb: Server) {
    && Tidy(w, live) && live <= w.nodes.Keys && (forall v | v in live :: w.nodes[v] == Voter(v, epoch, {a, b}))
    && a in w.nodes && w.nodes[a] == sa && b in w.nodes && w.nodes[b] == sb
  }

  lemma Introductions(voters: set<Name>, live: set<Name>, a: Name, b: Name) returns (w: World)
    requires live <= voters && a != b && a !in voters && b !in voters
    ensures Reachable(voters, w, false) && w.wins == {}
    ensures Stage(w, live, a, b, 0, Candidate(a, 0, 0, false, 0, live), Candidate(b, 0, 0, false, 0, live))
  {
    w := Initial(voters + {a, b});
    StartReachable(voters, voters + {a, b}, false);
    AtFirst(voters + {a, b}, live);
    VoterIsCandidate(a, live);
    VoterIsCandidate(b, live);
    hide Reachable, Initial, Run, Tidy, Voter, Candidate;
    w := AllMeet(voters, false, live, w, live, {a, b});
    w := MeetAll(voters, false, live, w, a, live);
    w := MeetAll(voters, false, live, w, b, live);
  }

  lemma VoterIsCandidate(c: Name, known: set<Name>)
    ensures Voter(c, 0, known) == Candidate(c, 0, 0, false, 0, known)
  {
  }

  /** A candidate is granted all votes of the next epoch, but resets its tally before the ACKs
      arrive. */
  lemma ResetsTooEarly(voters: set<Name>, live: set<Name>, w: World, c: Name, other: Name, epoch: nat, cur: nat, auth: nat, so: Server)
    returns (w': World)
    requires Reachable(voters, w, false) && live <= voters && c != other && c !in live && other !in live && epoch <= cur
    requires Stage(w, live, c, other, epoch, Candidate(c, cur, 0, false, auth, live), so) && c in w.counted && other in w.counted
    ensures Reachable(voters, w', false) && w'.wins == w.wins && w'.counted == w.counted[c := {}]
    ensures Stage(w', live, c, other, cur + 1, Candidate(c, cur + 1, 0, false, cur + 1, live), so)
    ensures forall v | v in live :: Granting(v, c, cur + 1) in w'.acks
  {
    hide Reachable, Voter, Candidate, Request, Granting, Tidy;
    w' := StartsElection(voters, live, w, c, cur, 0, auth, live);
    w' := AllGrant(voters, live, w', live, epoch, {c, other}, c, cur + 1);
    w' := Resets(voters, live, w', c, cur + 1, 0, true, cur + 1, live);
  }

  /** The late ACKs are counted although no election is running. */
  lemma GetsEarlyAcks(voters: set<Name>, live: set<Name>, w: World, c: Name, other: Name, epoch: nat, cur: nat, auth: nat, so: Server)
    returns (w': World)
    requires Reachable(voters, w, false) && live <= voters && c != other && c !in live && other !in live && epoch <= cur
    requires Stage(w, live, c, other, epoch, Candidate(c, cur, 0, false, auth, live), so) && c in w.counted && other in w.counted
    ensures Reachable(voters, w', false) && w'.wins == w.wins && w'.counted == w.counted[c := {}]
    ensures Stage(w', live, c, other, cur + 1, Candidate(c, cur + 1, |live|, false, cur + 1, live), so)
  {
    hide Reachable, Voter, Candidate, Granting, Tidy;
    w' := ResetsTooEarly(voters, live, w, c, other, epoch, cur, auth, so);
    w' := CountAll(voters, live, w', c, live, cur + 1, 0, false, cur + 1, live);
  }

  lemma StageSwaps(w: World, live: set<Name>, a: Name, b: Name, epoch: nat, sa: Server, sb: Server)
    requires Stage(w, live, a, b, epoch, sa, sb)
    ensures Stage(w, live, b, a, epoch, sb, sa)
  {
    assert {a, b} == {b, a};
  }

  /** Candidate a counts the votes of epoch 1 early, candidate b those of epoch 2. */
  lemma BothCountEarly(voters: set<Name>, live: set<Name>, a: Name, b: Name) returns (w: World)
    requires live <= voters && a != b && a !in voters && b !in voters
    ensures Reachable(voters, w, false) && w.wins == {} && a in w.counted && b in w.counted && w.counted[a] == w.counted[b] == {}
    ensures Stage(w, live, a, b, 2, Candidate(a, 1, |live|, false, 1, live), Candidate(b, 2, |live|, false, 2, live))
  {
    hide Reachable, Voter, Candidate, Request;
    w := Introductions(voters, live, a, b);
    assert a in w.counted && b in w.counted;
    w := GetsEarlyAcks(voters, live, w, a, b, 0, 0, 0, Candidate(b, 0, 0, false, 0, live));
    w := StartsElection(voters, live, w, b, 0, 0, 0, live);
    w := Resets(voters, live, w, b, 1, 0, true, 1, live);
    StageSwaps(w, live, a, b, 1, Candidate(a, 1, |live|, false, 1, live), Candidate(b, 1, 0, false, 1, live));
    w := GetsEarlyAcks(voters, live, w, b, a, 1, 1, 1, Candidate(a, 1, |live|, false, 1, live));
    StageSwaps(w, live, b, a, 2, Candidate(b, 2, |live|, false, 2, live), Candidate(a, 1, |live|, false, 1, live));
  }

  /** A ping brings candidate a to epoch 2, and both start the election of epoch 3. */
  lemma BothStart(voters: set<Name>, live: set<Name>, a: Name, b: Name) returns (w: World)
    requires live <= voters && a != b && a !in voters && b !in voters && live != {}
    ensures Reachable(voters, w, false) && w.wins == {} && a in w.counted && b in w.counted && w.counted[a] == w.counted[b] == {}
    ensures Request(a, 3) in w.net && Request(b, 3) in w.net
    ensures Stage(w, live, a, b, 2, Candidate(a, 3, |live|, true, 3, live), Candidate(b, 3, |live|, true, 3, live))
  {
    hide Reachable, Voter, Candidate, Request, Tidy;
    w := BothCountEarly(voters, live, a, b);
    var v :| v in live;
    w := HearsPing(voters, live, w, v, {a, b}, a, 1, |live|, 1, 2);
    w := StartsElection(voters, live, w, a, 2, |live|, 1, live);
    w := StartsElection(voters, live, w, b, 2, |live|, 2, live);
  }

  lemma HearsPing(voters: set<Name>, live: set<Name>, w: World, v: Name, known: set<Name>, c: Name, cur: nat, count: nat, auth: nat, e: nat)
    returns (w': World)
    requires Reachable(voters, w, false) && Tidy(w, live) && v in live && v in w.nodes && w.nodes[v] == Voter(v, e, known)
    requires c in w.nodes && c != v && w.nodes[c] == Candidate(c, cur, count, false, auth, live) && cur <= e
    ensures Reachable(voters, w', false) && Tidy(w', live)
    ensures w' == w.(nodes := w.nodes[c := Candidate(c, e, count, false, auth, live)], net := w'.net)
  {
    hide Reachable, OnPing, Learn;
    var msg := Message(v, e, 0, Ping);
    CandidateLearns(v, c, cur, count, auth, live, e);
    Step(voters, false, w, Send(v, v));
    w' := Do(voters, w, Send(v, v));
    Step(voters, false, w', DeliverPing(c, msg, false));
    w' := Do(voters, w', DeliverPing(c, msg, false));
  }

  /** The voters split between the candidates. */
  lemma BothVoted(voters: set<Name>, live: set<Name>, a: Name, b: Name, va: set<Name>, vb: set<Name>) returns (w: World)
    requires live <= voters && a != b && a !in voters && b !in voters && live != {}
    requires va <= live && vb <= live && va !! vb
    ensures Reachable(voters, w, false) && Tidy(w, live) && a in w.counted && b in w.counted && w.counted[a] == w.counted[b] == {}
    ensures a in w.nodes && w.nodes[a] == Candidate(a, 3, |live|, true, 3, live)
    ensures b in w.nodes && w.nodes[b] == Candidate(b, 3, |live|, true, 3, live)
    ensures (forall v | v in va :: Granting(v, a, 3) in w.acks) && forall v | v in vb :: Granting(v, b, 3) in w.acks
  {
    hide Reachable, Voter, Candidate, Request, Granting, Tidy;
    w := BothStart(voters, live, a, b);
    w := AllGrant(voters, live, w, va, 2, {a, b}, a, 3);
    w := AllGrant(voters, live, w, vb, 2, {a, b}, b, 3);
  }

  /** The early ACKs make up for the missing votes. */
  lemma BothWin(voters: set<Name>, live: set<Name>, a: Name, b: Name, va: set<Name>, vb: set<Name>) returns (w: World)
    requires live <= voters && a != b && a !in voters && b !in voters && |live| >= |voters| / 2 + 1
    requires va <= live && vb <= live && va !! vb
    ensures Reachable(voters, w, false) && Tidy(w, live) && Win(a, 3, |va|) in w.wins && Win(b, 3, |vb|) in w.wins
  {
    hide Reachable, Voter, Candidate, Request, Granting, Tidy;
    w := BothVoted(voters, live, a, b, va, vb);
    ToWhom(a, b, 3);
    w := CountAll(voters, live, w, a, va, 3, |live|, true, 3, live);
    w := CountAll(voters, live, w, b, vb, 3, |live|, true, 3, live);
    w := Wins(voters, live, w, a, 3, |live| + |va|, 3, live);
    w := Wins(voters, live, w, b, 3, |live| + |vb|, 3, live);
  }

  lemma ToWhom(a: Name, b: Name, e: nat)
    requires a != b
    ensures forall v :: Granting(v, b, e).to != a
  {
  }

  lemma {:induction false} PartOfSize(s: set<Name>, n: nat) returns (p: set<Name>)
    requires n <= |s|
    ensures p <= s && |p| == n
  {
    if n == 0 {
      p := {};
    } else {
      var x :| x in s;
      p := PartOfSize(s - {x}, n - 1);
      p := p + {x};
    }
  }

  /** Whatever the voters, two nodes can reach the quorum branch for one epoch with any numbers of
      real votes that two candidates can share, as long as a majority of the voters, live, answers:
      the missing votes are ACKs of earlier epochs that arrived after the tally was reset. */
  lemma EarlyAckBreaksSafety(voters: set<Name>, live: set<Name>, a: Name, b: Name, na: nat, nb: nat)
    returns (worlds: seq<World>, actions: seq<Action>)
    requires live <= voters && |live| >= |voters| / 2 + 1 && a != b && a !in voters && b !in voters && na + nb <= |live|
    ensures Run(voters, worlds, actions) && !NoEarlyAck(worlds, actions)
    ensures Win(a, 3, na) in worlds[|actions|].wins && Win(b, 3, nb) in worlds[|actions|].wins
    ensures forall x | x in worlds[|actions|].votes :: x.voter in live
  {
    var va := PartOfSize(live, na);
    var vb := PartOfSize(live - va, nb);
    var w := BothWin(voters, live, a, b, va, vb);
    hide Run;
    worlds, actions :| Run(voters, worlds, actions) && w == worlds[|actions|];
    RunLength(voters, worlds, actions);
    if NoEarlyAck(worlds, actions) {
      ElectionSafety(voters, worlds, actions, Win(a, 3, na), Win(b, 3, nb));
    }
  }

  lemma RunLength(voters: set<Name>, worlds: seq<World>, actions: seq<Action>)
    requires Run(voters, worlds, actions)
    ensures |worlds| == |actions| + 1
  {
  }

  /** A run that ends with these two wins of one epoch. */
  ghost predicate TwoWins(voters: set<Name>, worlds: seq<World>, actions: seq<Action>, x: Win, y: Win) {
    && Run(voters, worlds, actions) && x in worlds[|actions|].wins && y in worlds[|actions|].wins
    && x.epoch == y.epoch
  }

  /** Wins of one epoch with these numbers of votes are always wins of the same node. */
  ghost predicate AlwaysOneWinner(voters: set<Name>, na: nat, nb: nat) {
    forall worlds: seq<World>, actions: seq<Action>, x: Win, y: Win |
      TwoWins(voters, worlds, actions, x, y) && x.votes == na && y.votes == nb :: x.node == y.node
  }

  /** A name above all of these. */
  lemma {:induction false} FreshName(s: set<Name>) returns (n: Name)
    ensures forall x | x in s :: x < n
  {
    if s == {} {
      n := 0;
    } else {
      var x :| x in s;
      var m := FreshName(s - {x});
      n := Max(m, x + 1);
      assert forall y | y in s :: y == x || y in s - {x};
    }
  }

  /** Exactly when the votes decide an election: together they must exceed the number of voters. */
  lemma VotesDecideExactly(voters: set<Name>, na: nat, nb: nat)
    requires voters != {}
    ensures AlwaysOneWinner(voters, na, nb) <==> na + nb > |voters|
  {
    hide NoEarlyAck, Do, Enabled, Initial;
    if na + nb > |voters| {
      forall worlds: seq<World>, actions: seq<Action>, x: Win, y: Win |
        TwoWins(voters, worlds, actions, x, y) && x.votes == na && y.votes == nb
        ensures x.node == y.node
      {
        WinsAreUnique(voters, worlds, actions, |actions|, x, y);
      }
    } else {
      var a := FreshName(voters);
      var worlds, actions := EarlyAckBreaksSafety(voters, voters, a, a + 1, na, nb);
      assert TwoWins(voters, worlds, actions, Win(a, 3, na), Win(a + 1, 3, nb));
    }
  }
}
