/** Any number of cluster nodes exchanging messages (cluster.c), as a transition system.
    Messages may be delivered late, in any order, repeatedly or never; an ACK is delivered
    at most once, because the bus runs over TCP. The set of voting masters is fixed, and
    nodes are not restarted. */
module ClusterProtocol {
  import opened Basics
  import opened ClusterEpochs

  /** A granted vote, and its ACK on the way to the candidate. */
  datatype Vote = Vote(voter: Name, candidate: Name, epoch: nat)
  datatype Ack = Ack(msg: Message, to: Name)

  /** A node that reached the quorum branch for an epoch, and how many of the ACKs that it had counted
      were votes of that election; the others were counted between the reset of its tally and the
      start of the election. */
  datatype Win = Win(node: Name, epoch: nat, votes: nat)

  /** nodes, net and acks are the system; votes, counted, stale and wins only record what
      happened: all votes granted, and for every candidate the voters counted since its
      election started and the number of ACKs counted before. */
  datatype World = World(
    nodes: map<Name, Server>, net: set<Message>, acks: set<Ack>,
    votes: set<Vote>, counted: map<Name, set<Name>>, stale: map<Name, nat>, wins: set<Win>)

  datatype Action =
    | Send(n: Name, about: Name)
    | SendUpdate(n: Name, about: Name, regarding: Name)
    | DeliverPing(n: Name, msg: Message, bothMasters: bool)
    | DeliverUpdate(n: Name, msg: Message)
    | DeliverRequest(n: Name, msg: Message, mayVote: bool, deserved: bool, owners: seq<Option<Name>>, linked: bool, about: Name)
    | DeliverAck(n: Name, ack: Ack, fromVoter: bool)
    | Schedule(n: Name)
    | Start(n: Name, about: Name)
    | TakeOverStep(n: Name, size: nat)
    | BumpEpoch(n: Name, max: nat)
    | SetEpoch(n: Name, epoch: nat)
    | Meet(n: Name, other: Name)
    | Forget(n: Name, other: Name)

  /** clusterBuildMessageHdr: the configEpoch sent is the node's own or its master's. */
  function Header(s: Server, about: Name, kind: Kind): Message
    requires about in s.epochs
  {
    Message(s.myself, s.currentEpoch, s.epochs[about], kind)
  }

  predicate Enabled(voters: set<Name>, w: World, a: Action) {
    && a.n in w.nodes && a.n in w.counted && a.n in w.stale
    && var s := w.nodes[a.n];
    && s.myself in s.epochs
    && match a
       case Send(_, about) => about in s.epochs
       case SendUpdate(_, about, x) => about in s.epochs && x in s.epochs
       case DeliverPing(_, msg, _) => msg in w.net && msg.kind.Ping?
       case DeliverUpdate(_, msg) => msg in w.net && msg.kind.Update?
       case DeliverRequest(n, msg, mayVote, _, _, _, about) =>
         msg in w.net && msg.kind.AuthRequest? && (mayVote ==> n in voters) && about in s.epochs
       case DeliverAck(n, ack, _) => ack in w.acks && ack.to == n
       case Schedule(_) => true
       case Start(_, about) => !s.authSent && about in s.epochs
       case TakeOverStep(_, size) => size == |voters| && HasQuorum(s, size)
       case BumpEpoch(_, max) => true
       case SetEpoch(_, _) => true
       case Meet(_, other) => other !in s.epochs
       case Forget(n, other) => other != n
  }

  function Do(voters: set<Name>, w: World, a: Action): World
    requires Enabled(voters, w, a)
  {
    var n := a.n;
    var s := w.nodes[n];
    match a
    case Send(_, about) => w.(net := w.net + {Header(s, about, Ping)})
    case SendUpdate(_, about, x) => w.(net := w.net + {Header(s, about, Update(x, s.epochs[x]))})
    case DeliverPing(_, msg, both) => w.(nodes := w.nodes[n := OnPing(s, msg, both)])
    case DeliverUpdate(_, msg) => w.(nodes := w.nodes[n := OnUpdate(s, msg)])
    case DeliverRequest(_, msg, mayVote, deserved, owners, linked, about) =>
      var s' := OnAuthRequest(s, msg, mayVote, deserved, owners);
      var w' := w.(nodes := w.nodes[n := s']);
      if msg.sender in s.epochs && Grants(Learn(s, msg), msg, mayVote, deserved, owners) then
        w'.(votes := w.votes + {Vote(n, msg.sender, s'.currentEpoch)},
            acks := if linked then w.acks + {Ack(Header(s', about, AuthAck), msg.sender)} else w.acks)
      else w'
    case DeliverAck(_, ack, fromVoter) =>
      var w' := w.(nodes := w.nodes[n := OnAuthAck(s, ack.msg, fromVoter)], acks := w.acks - {ack});
      if ack.msg.sender in s.epochs && Counts(s, ack.msg, fromVoter) then
        if s.authSent then w'.(counted := w.counted[n := w.counted[n] + {ack.msg.sender}])
        else w'.(stale := w.stale[n := w.stale[n] + 1])
      else w'
    case Schedule(_) =>
      w.(nodes := w.nodes[n := ScheduleElection(s)], counted := w.counted[n := {}], stale := w.stale[n := 0])
    case Start(_, about) =>
      var s' := StartElection(s);
      w.(nodes := w.nodes[n := s'], net := w.net + {Header(s', about, AuthRequest)})
    case TakeOverStep(_, size) =>
      w.(nodes := w.nodes[n := TakeOver(s)], wins := w.wins + {Win(n, s.authEpoch, |w.counted[n]|)})
    case BumpEpoch(_, max) => w.(nodes := w.nodes[n := Bump(s, max)])
    case SetEpoch(_, e) => w.(nodes := w.nodes[n := SetConfigEpoch(s, e)])
    case Meet(_, other) => w.(nodes := w.nodes[n := s.(epochs := s.epochs[other := 0])])
    case Forget(_, other) => w.(nodes := w.nodes[n := s.(epochs := s.epochs - {other})])
  }

  /** The world before anything happened: every node knows itself, at epoch 0. */
  function Initial(names: set<Name>): World {
    World(map n | n in names :: Server(n, 0, 0, 0, false, 0, map[n := 0]), {}, {}, {},
          map n | n in names :: {}, map n | n in names :: 0, {})
  }

  ghost predicate Run(voters: set<Name>, worlds: seq<World>, actions: seq<Action>) {
    && |worlds| == |actions| + 1
    && (exists names :: worlds[0] == Initial(names))
    && forall i | 0 <= i < |actions| ::
         Enabled(voters, worlds[i], actions[i]) && worlds[i + 1] == Do(voters, worlds[i], actions[i])
  }

  // ---- epoch domination -------------------------------------------------------------------

  /** A node's currentEpoch is at least every epoch it knows, voted in or asked votes for. */
  ghost predicate ServerDominates(n: Name, s: Server) {
    s.myself == n && Dominates(s)
  }

  ghost predicate Domination(w: World) {
    && w.counted.Keys == w.nodes.Keys && w.stale.Keys == w.nodes.Keys
    && (forall n | n in w.nodes :: ServerDominates(n, w.nodes[n]))
    && (forall m | m in w.net :: MessageDominates(m))
    && (forall a | a in w.acks :: MessageDominates(a.msg))
  }

  /** Epochs of a node never decrease, and its election fields change only by elections. */
  ghost predicate Monotone(s: Server, s': Server) {
    && s'.currentEpoch >= s.currentEpoch && s'.lastVoteEpoch >= s.lastVoteEpoch && s'.authEpoch >= s.authEpoch
  }

  lemma HandlerDominates(n: Name, s: Server, msg: Message, both: bool, mayVote: bool, deserved: bool, owners: seq<Option<Name>>)
    requires ServerDominates(n, s) && MessageDominates(msg)
    ensures ServerDominates(n, OnPing(s, msg, both)) && Monotone(s, OnPing(s, msg, both))
    ensures var s' := OnAuthRequest(s, msg, mayVote, deserved, owners); ServerDominates(n, s') && Monotone(s, s')
    ensures var s' := OnAuthAck(s, msg, mayVote); ServerDominates(n, s') && Monotone(s, s')
    ensures msg.kind.Update? ==> ServerDominates(n, OnUpdate(s, msg)) && Monotone(s, OnUpdate(s, msg))
  {
    assert ServerDominates(n, Learn(s, msg));
  }

  lemma LocalDominates(n: Name, s: Server, max: nat, e: nat)
    requires ServerDominates(n, s)
    ensures ServerDominates(n, ScheduleElection(s)) && Monotone(s, ScheduleElection(s))
    ensures ServerDominates(n, StartElection(s)) && Monotone(s, StartElection(s))
    ensures ServerDominates(n, TakeOver(s)) && Monotone(s, TakeOver(s))
    ensures ServerDominates(n, Bump(s, max)) && Monotone(s, Bump(s, max))
    ensures ServerDominates(n, SetConfigEpoch(s, e)) && Monotone(s, SetConfigEpoch(s, e))
  {
  }

  lemma HeaderDominates(n: Name, s: Server, about: Name, kind: Kind)
    requires ServerDominates(n, s) && about in s.epochs
    requires kind.Update? ==> kind.about in s.epochs && kind.epoch == s.epochs[kind.about]
    ensures MessageDominates(Header(s, about, kind))
  {
  }

  lemma ReplaceServer(w: World, w': World, n: Name, s': Server)
    requires Domination(w) && n in w.nodes && ServerDominates(n, s') && Monotone(w.nodes[n], s')
    requires w'.nodes == w.nodes[n := s']
    requires w'.counted.Keys == w.nodes.Keys && w'.stale.Keys == w.nodes.Keys
    requires forall m | m in w'.net :: m in w.net || MessageDominates(m)
    requires forall a | a in w'.acks :: a in w.acks || MessageDominates(a.msg)
    ensures Domination(w')
    ensures w'.nodes.Keys == w.nodes.Keys && Monotone(w.nodes[n], w'.nodes[n])
  {
  }

  /** The server of the acting node after an action. */
  function Acted(voters: set<Name>, w: World, a: Action): Server
    requires Enabled(voters, w, a)
  {
    Do(voters, w, a).nodes[a.n]
  }

  lemma ActedDominates(voters: set<Name>, w: World, a: Action)
    requires Domination(w) && Enabled(voters, w, a)
    ensures ServerDominates(a.n, Acted(voters, w, a)) && Monotone(w.nodes[a.n], Acted(voters, w, a))
  {
    hide OnPing, OnUpdate, OnAuthRequest, OnAuthAck, ScheduleElection, StartElection, TakeOver, Bump, SetConfigEpoch;
    var s := w.nodes[a.n];
    match a
    case Send(_, about) =>
    case SendUpdate(_, about, x) =>
    case DeliverPing(n, msg, both) => HandlerDominates(n, s, msg, both, false, false, []);
    case DeliverUpdate(n, msg) => HandlerDominates(n, s, msg, false, false, false, []);
    case DeliverRequest(n, msg, mayVote, deserved, owners, _, _) => HandlerDominates(n, s, msg, false, mayVote, deserved, owners);
    case DeliverAck(n, ack, fromVoter) => HandlerDominates(n, s, ack.msg, false, fromVoter, false, []);
    case Schedule(n) => LocalDominates(n, s, 0, 0);
    case Start(n, _) => LocalDominates(n, s, 0, 0);
    case TakeOverStep(n, _) => LocalDominates(n, s, 0, 0);
    case BumpEpoch(n, max) => LocalDominates(n, s, max, 0);
    case SetEpoch(n, e) => LocalDominates(n, s, 0, e);
    case Meet(n, other) =>
    case Forget(n, other) =>
  }

  /** One action keeps domination, advances only the acting node, and never decreases its
      epochs. */
  lemma DominationStep(voters: set<Name>, w: World, a: Action)
    requires Domination(w) && Enabled(voters, w, a)
    ensures Domination(Do(voters, w, a))
    ensures Do(voters, w, a).nodes == w.nodes[a.n := Acted(voters, w, a)]
    ensures ServerDominates(a.n, Acted(voters, w, a)) && Monotone(w.nodes[a.n], Acted(voters, w, a))
  {
    hide OnPing, OnUpdate, OnAuthAck, OnAuthRequest, ScheduleElection, StartElection, TakeOver, Bump, SetConfigEpoch, Monotone,
         Dominates, MessageDominates, Grants, Counts, Learn;
    var w', s' := Do(voters, w, a), Acted(voters, w, a);
    ActedDominates(voters, w, a);
    MessagesDominate(voters, w, a);
    ReplaceServer(w, w', a.n, s');
  }

  lemma MessagesDominate(voters: set<Name>, w: World, a: Action)
    requires Domination(w) && Enabled(voters, w, a)
    ensures forall m | m in Do(voters, w, a).net :: m in w.net || MessageDominates(m)
    ensures forall k | k in Do(voters, w, a).acks :: k in w.acks || MessageDominates(k.msg)
  {
    hide OnPing, OnUpdate, OnAuthAck, ScheduleElection, TakeOver, Bump, SetConfigEpoch, Monotone;
    var s' := Acted(voters, w, a);
    ActedDominates(voters, w, a);
    match a {
      case Send(n, about) => HeaderDominates(n, w.nodes[n], about, Ping);
      case SendUpdate(n, about, x) => HeaderDominates(n, w.nodes[n], about, Update(x, w.nodes[n].epochs[x]));
      case Start(n, about) => HeaderDominates(n, s', about, AuthRequest);
      case DeliverRequest(n, _, _, _, _, _, about) => HeaderDominates(n, s', about, AuthAck);
      case _ =>
    }
  }

  lemma {:induction false} EpochDomination(voters: set<Name>, worlds: seq<World>, actions: seq<Action>, i: nat)
    requires Run(voters, worlds, actions) && i < |worlds|
    ensures Domination(worlds[i])
  {
    if i > 0 {
      EpochDomination(voters, worlds, actions, i - 1);
      DominationStep(voters, worlds[i - 1], actions[i - 1]);
    }
  }

  /** A new election epoch exceeds every configEpoch its candidate knows. */
  lemma NewElectionEpochIsNewest(voters: set<Name>, worlds: seq<World>, actions: seq<Action>, i: nat)
    requires Run(voters, worlds, actions) && i < |actions| && actions[i].Start?
    ensures var s, s' := worlds[i].nodes[actions[i].n], worlds[i + 1].nodes[actions[i].n];
            forall m | m in s.epochs :: s.epochs[m] < s'.authEpoch
  {
    EpochDomination(voters, worlds, actions, i);
    DominationStep(voters, worlds[i], actions[i]);
    assert ServerDominates(actions[i].n, worlds[i].nodes[actions[i].n]);
  }

  // ---- votes ----------------------------------------------------------------------------------

  /** Votes are granted by voting masters, at most one per voter and epoch, and only for
      epochs in which the candidate asked. */
  ghost predicate VotesOk(voters: set<Name>, w: World) {
    && (forall v | v in w.votes ::
          && v.voter in voters && v.voter in w.nodes && v.epoch <= w.nodes[v.voter].lastVoteEpoch
          && v.candidate in w.nodes && v.epoch <= w.nodes[v.candidate].authEpoch)
    && (forall u, v | u in w.votes && v in w.votes && u.voter == v.voter && u.epoch == v.epoch :: u == v)
  }

  ghost predicate RequestsOk(w: World) {
    forall m | m in w.net && m.kind.AuthRequest? ::
      m.sender in w.nodes && m.currentEpoch <= w.nodes[m.sender].authEpoch
  }

  /** Every ACK in flight stands for one granted vote. */
  ghost predicate AcksOk(w: World) {
    && (forall a | a in w.acks :: Vote(a.msg.sender, a.to, a.msg.currentEpoch) in w.votes)
    && (forall a, b | a in w.acks && b in w.acks && a.msg.sender == b.msg.sender
                      && a.msg.currentEpoch == b.msg.currentEpoch :: a == b)
  }

  /** The tally is the number of distinct voters of the current election whose ACK arrived,
      plus the ACKs counted before it started. */
  ghost predicate TallyOk(voters: set<Name>, w: World) {
    forall c | c in w.nodes && c in w.counted && c in w.stale ::
      && w.nodes[c].authCount == |w.counted[c]| + w.stale[c]
      && (!w.nodes[c].authSent ==> w.counted[c] == {})
      && (forall v | v in w.counted[c] ::
            && Vote(v, c, w.nodes[c].authEpoch) in w.votes
            && forall a | a in w.acks && a.msg.sender == v :: a.msg.currentEpoch != w.nodes[c].authEpoch)
  }

  ghost predicate WinsOk(voters: set<Name>, w: World) {
    forall x | x in w.wins :: HasVotes(voters, w.votes, x.node, x.epoch, x.votes)
  }

  /** This many of the voting masters voted for c in this epoch. */
  ghost predicate HasVotes(voters: set<Name>, votes: set<Vote>, c: Name, epoch: nat, n: nat) {
    exists s: set<Name> :: s <= voters && |s| == n && AllVoted(s, votes, c, epoch)
  }

  ghost predicate AllVoted(s: set<Name>, votes: set<Vote>, c: Name, epoch: nat) {
    forall v | v in s :: Vote(v, c, epoch) in votes
  }

  ghost predicate Elections(voters: set<Name>, w: World) {
    VotesOk(voters, w) && RequestsOk(w) && AcksOk(w) && TallyOk(voters, w) && WinsOk(voters, w)
  }

  /** Actions that leave the election fields of the acting node and all records alone. */
  ghost predicate Quiet(w: World, w': World, n: Name) {
    && n in w.nodes && n in w'.nodes
    && var s, s' := w.nodes[n], w'.nodes[n];
    && w'.nodes == w.nodes[n := s']
    && s'.authCount == s.authCount && s'.authSent == s.authSent
    && s'.authEpoch == s.authEpoch && s'.lastVoteEpoch == s.lastVoteEpoch
    && w'.votes == w.votes && w'.counted == w.counted && w'.stale == w.stale && w'.wins == w.wins
    && w'.acks <= w.acks
    && forall m | m in w'.net && m !in w.net :: !m.kind.AuthRequest?
  }

  lemma QuietKeeps(voters: set<Name>, w: World, w': World, n: Name)
    requires Elections(voters, w) && Quiet(w, w', n)
    ensures Elections(voters, w')
  {
  }

  /** The effect on the election records of granting a vote. */
  ghost predicate Granted(w: World, w': World, n: Name, c: Name, e: nat) {
    && n in w.nodes && n in w'.nodes
    && var s, s' := w.nodes[n], w'.nodes[n];
    && w'.nodes == w.nodes[n := s']
    && s'.authCount == s.authCount && s'.authSent == s.authSent && s'.authEpoch == s.authEpoch
    && s.lastVoteEpoch < s'.lastVoteEpoch == e
    && w'.votes == w.votes + {Vote(n, c, e)}
    && (w'.acks == w.acks
        || exists k: Ack :: k.msg.sender == n && k.msg.currentEpoch == e && k.to == c && w'.acks == w.acks + {k})
    && w'.net == w.net && w'.counted == w.counted && w'.stale == w.stale && w'.wins == w.wins
  }

  lemma GrantedVotes(voters: set<Name>, w: World, w': World, n: Name, c: Name, e: nat)
    requires VotesOk(voters, w) && Granted(w, w', n, c, e)
    requires n in voters && c in w.nodes && e <= w.nodes[c].authEpoch
    ensures VotesOk(voters, w')
  {
  }

  lemma GrantedAcks(voters: set<Name>, w: World, w': World, n: Name, c: Name, e: nat)
    requires VotesOk(voters, w) && AcksOk(w) && Granted(w, w', n, c, e)
    ensures AcksOk(w')
  {
    forall a | a in w.acks ensures !(a.msg.sender == n && a.msg.currentEpoch == e) {
      assert Vote(a.msg.sender, a.to, a.msg.currentEpoch) in w.votes;
    }
  }

  lemma GrantedTally(voters: set<Name>, w: World, w': World, n: Name, c: Name, e: nat)
    requires VotesOk(voters, w) && TallyOk(voters, w) && Granted(w, w', n, c, e)
    ensures TallyOk(voters, w')
  {
    forall x | x in w'.nodes && x in w'.counted && x in w'.stale
      ensures forall v | v in w'.counted[x] ::
                && Vote(v, x, w'.nodes[x].authEpoch) in w'.votes
                && forall a | a in w'.acks && a.msg.sender == v :: a.msg.currentEpoch != w'.nodes[x].authEpoch
    {
      if n in w.counted[x] { assert Vote(n, x, w.nodes[x].authEpoch) in w.votes; }
    }
  }

  lemma GrantedWins(voters: set<Name>, w: World, w': World)
    requires WinsOk(voters, w) && w'.wins == w.wins && w.votes <= w'.votes
    ensures WinsOk(voters, w')
  {
    forall x | x in w'.wins ensures HasVotes(voters, w'.votes, x.node, x.epoch, x.votes) {
      var a: set<Name> :| a <= voters && |a| == x.votes && AllVoted(a, w.votes, x.node, x.epoch);
      assert AllVoted(a, w'.votes, x.node, x.epoch);
    }
  }

  lemma VoteKeeps(voters: set<Name>, w: World, a: Action)
    requires Domination(w) && Elections(voters, w) && Enabled(voters, w, a) && a.DeliverRequest?
    requires a.msg.sender in w.nodes[a.n].epochs
    requires Grants(Learn(w.nodes[a.n], a.msg), a.msg, a.mayVote, a.deserved, a.owners)
    ensures Elections(voters, Do(voters, w, a))
  {
    hide VotesOk, AcksOk, TallyOk, WinsOk, Domination;
    var w' := Do(voters, w, a);
    var c, e := a.msg.sender, w'.nodes[a.n].currentEpoch;
    VoteIsNewer(w, a.n, a.msg);
    if a.linked {
      var k := Ack(Header(w'.nodes[a.n], a.about, AuthAck), c);
      assert k.msg.sender == a.n && k.msg.currentEpoch == e && k.to == c && w'.acks == w.acks + {k};
    }
    assert Granted(w, w', a.n, c, e);
    GrantedVotes(voters, w, w', a.n, c, e);
    GrantedAcks(voters, w, w', a.n, c, e);
    GrantedTally(voters, w, w', a.n, c, e);
    GrantedWins(voters, w, w');
  }

  /** The epoch of a vote about to be granted is the requested one, and is newer than any
      the voter voted in. */
  lemma VoteIsNewer(w: World, n: Name, msg: Message)
    requires Domination(w) && n in w.nodes && msg.sender in w.nodes[n].epochs
    requires var s := Learn(w.nodes[n], msg); msg.currentEpoch >= s.currentEpoch && s.lastVoteEpoch != s.currentEpoch
    ensures var s := Learn(w.nodes[n], msg);
            s.myself == n && w.nodes[n].lastVoteEpoch < s.currentEpoch == msg.currentEpoch
  {
    assert ServerDominates(n, w.nodes[n]);
  }

  /** The effect on the election records of counting an ACK. */
  ghost predicate Counted(w: World, w': World, n: Name, k: Ack) {
    && n in w.nodes && n in w'.nodes && n in w.counted && n in w.stale
    && var s, s' := w.nodes[n], w'.nodes[n];
    && w'.nodes == w.nodes[n := s']
    && s'.authCount == s.authCount + 1 && s'.authSent == s.authSent && s'.authEpoch == s.authEpoch
    && s'.lastVoteEpoch == s.lastVoteEpoch
    && w'.votes == w.votes && w'.acks == w.acks - {k} && w'.net == w.net && w'.wins == w.wins
    && (if s.authSent then w'.counted == w.counted[n := w.counted[n] + {k.msg.sender}] && w'.stale == w.stale
        else w'.counted == w.counted && w'.stale == w.stale[n := w.stale[n] + 1])
  }

  lemma CountedTally(voters: set<Name>, w: World, w': World, n: Name, k: Ack)
    requires TallyOk(voters, w) && AcksOk(w) && VotesOk(voters, w) && Counted(w, w', n, k)
    requires k in w.acks && k.to == n && k.msg.currentEpoch >= w.nodes[n].authEpoch
    ensures TallyOk(voters, w')
  {
    var v := k.msg.sender;
    assert Vote(v, n, k.msg.currentEpoch) in w.votes;
    assert k.msg.currentEpoch == w.nodes[n].authEpoch;
    assert v !in w.counted[n];
    forall x | x in w'.nodes && x in w'.counted && x in w'.stale
      ensures forall u | u in w'.counted[x] ::
                && Vote(u, x, w'.nodes[x].authEpoch) in w'.votes
                && forall a | a in w'.acks && a.msg.sender == u :: a.msg.currentEpoch != w'.nodes[x].authEpoch
    {
    }
  }

  lemma CountKeeps(voters: set<Name>, w: World, a: Action)
    requires Domination(w) && Elections(voters, w) && Enabled(voters, w, a) && a.DeliverAck?
    requires a.ack.msg.sender in w.nodes[a.n].epochs && Counts(w.nodes[a.n], a.ack.msg, a.fromVoter)
    ensures Elections(voters, Do(voters, w, a))
  {
    hide TallyOk, Domination;
    var w' := Do(voters, w, a);
    assert Counted(w, w', a.n, a.ack);
    CountedTally(voters, w, w', a.n, a.ack);
  }

  lemma WinKeeps(voters: set<Name>, w: World, a: Action)
    requires Domination(w) && Elections(voters, w) && Enabled(voters, w, a) && a.TakeOverStep?
    ensures Elections(voters, Do(voters, w, a))
  {
    hide Domination, VotesOk, RequestsOk, AcksOk, TallyOk, HasVotes;
    var w' := Do(voters, w, a);
    assert Quiet(w, w'.(wins := w.wins), a.n);
    QuietKeeps(voters, w, w'.(wins := w.wins), a.n);
    WinHasVotes(voters, w, a);
    OnlyWinsDiffer(voters, w'.(wins := w.wins), w');
  }

  /** The records of wins matter to their own invariant only. */
  lemma OnlyWinsDiffer(voters: set<Name>, w: World, w': World)
    requires w' == w.(wins := w'.wins) && Elections(voters, w) && WinsOk(voters, w')
    ensures Elections(voters, w')
  {
    hide WinsOk;
  }

  lemma WinHasVotes(voters: set<Name>, w: World, a: Action)
    requires TallyOk(voters, w) && VotesOk(voters, w) && Enabled(voters, w, a) && a.TakeOverStep?
    ensures HasVotes(voters, w.votes, a.n, w.nodes[a.n].authEpoch, |w.counted[a.n]|)
  {
    var c := w.counted[a.n];
    assert AllVoted(c, w.votes, a.n, w.nodes[a.n].authEpoch);
    assert c <= voters;
  }

  lemma ElectionStep(voters: set<Name>, w: World, a: Action)
    requires Domination(w) && Elections(voters, w) && Enabled(voters, w, a)
    ensures Elections(voters, Do(voters, w, a))
  {
    hide VotesOk, RequestsOk, AcksOk, TallyOk, WinsOk, Domination;
    var w' := Do(voters, w, a);
    if a.DeliverRequest? && a.msg.sender in w.nodes[a.n].epochs
       && Grants(Learn(w.nodes[a.n], a.msg), a.msg, a.mayVote, a.deserved, a.owners) {
      VoteKeeps(voters, w, a);
    } else if a.DeliverAck? && a.ack.msg.sender in w.nodes[a.n].epochs
              && Counts(w.nodes[a.n], a.ack.msg, a.fromVoter) {
      CountKeeps(voters, w, a);
    } else if a.TakeOverStep? {
      WinKeeps(voters, w, a);
    } else if a.Schedule? || a.Start? {
      RestartKeeps(voters, w, a);
    } else {
      assert Quiet(w, w', a.n);
      QuietKeeps(voters, w, w', a.n);
    }
  }

  lemma RestartAcks(w: World, w': World)
    requires AcksOk(w) && w'.acks == w.acks && w'.votes == w.votes
    ensures AcksOk(w')
  {
  }

  /** The effect on the election records of resetting a tally or starting an election. */
  ghost predicate Restarted(w: World, w': World, n: Name) {
    && n in w.nodes && n in w'.nodes && n in w.counted && n in w.stale && n in w'.counted && n in w'.stale
    && var s, s' := w.nodes[n], w'.nodes[n];
    && w'.nodes == w.nodes[n := s'] && w'.votes == w.votes && w'.acks == w.acks && w'.wins == w.wins
    && s'.lastVoteEpoch == s.lastVoteEpoch && s'.authEpoch >= s.authEpoch
    && w'.counted == w.counted[n := w'.counted[n]] && w'.stale == w.stale[n := w'.stale[n]]
    && w'.counted[n] == {} && s'.authCount == w'.stale[n]
    && forall m | m in w'.net && m.kind.AuthRequest? :: m in w.net || (m.sender == n && m.currentEpoch == s'.authEpoch)
  }

  lemma RestartVotes(voters: set<Name>, w: World, w': World, n: Name)
    requires VotesOk(voters, w) && RequestsOk(w) && Restarted(w, w', n)
    ensures VotesOk(voters, w') && RequestsOk(w')
  {
  }

  lemma RestartTally(voters: set<Name>, w: World, w': World, n: Name)
    requires TallyOk(voters, w) && Restarted(w, w', n)
    ensures TallyOk(voters, w')
  {
    forall c | c in w'.nodes && c in w'.counted && c in w'.stale
      ensures forall v | v in w'.counted[c] ::
                && Vote(v, c, w'.nodes[c].authEpoch) in w'.votes
                && forall a | a in w'.acks && a.msg.sender == v :: a.msg.currentEpoch != w'.nodes[c].authEpoch
    {
      assert c != n ==> w'.counted[c] == w.counted[c] && w'.nodes[c] == w.nodes[c];
    }
  }

  lemma RestartKeeps(voters: set<Name>, w: World, a: Action)
    requires Domination(w) && Elections(voters, w) && Enabled(voters, w, a) && (a.Schedule? || a.Start?)
    ensures Elections(voters, Do(voters, w, a))
  {
    var w' := Do(voters, w, a);
    RestartMeaning(voters, w, a);
    hide VotesOk, RequestsOk, AcksOk, TallyOk, WinsOk, Domination;
    RestartVotes(voters, w, w', a.n);
    RestartTally(voters, w, w', a.n);
    RestartAcks(w, w');
    GrantedWins(voters, w, w');
  }

  lemma RestartMeaning(voters: set<Name>, w: World, a: Action)
    requires Domination(w) && TallyOk(voters, w) && Enabled(voters, w, a) && (a.Schedule? || a.Start?)
    ensures Restarted(w, Do(voters, w, a), a.n)
  {
    assert ServerDominates(a.n, w.nodes[a.n]);
    assert w.nodes[a.n].authCount == |w.counted[a.n]| + w.stale[a.n];
  }

  lemma {:induction false} ElectionInvariant(voters: set<Name>, worlds: seq<World>, actions: seq<Action>, i: nat)
    requires Run(voters, worlds, actions) && i < |worlds|
    ensures Elections(voters, worlds[i])
  {
    hide Domination, Elections, Do, Enabled, Initial;
    if i > 0 {
      EpochDomination(voters, worlds, actions, i - 1);
      ElectionInvariant(voters, worlds, actions, i - 1);
      ElectionStep(voters, worlds[i - 1], actions[i - 1]);
    } else {
      var names :| worlds[0] == Initial(names);
      NoElectionsYet(voters, names);
    }
  }

  lemma NoElectionsYet(voters: set<Name>, names: set<Name>)
    ensures Elections(voters, Initial(names))
  {
  }

  // ---- election safety ----------------------------------------------------------------------

  lemma VoterOfBoth(voters: set<Name>, a: set<Name>, b: set<Name>) returns (v: Name)
    requires a <= voters && b <= voters && |a| + |b| > |voters|
    ensures v in a && v in b
  {
    SubsetSize(a + b, voters);
    assert |a + b| + |a * b| == |a| + |b|;
    v :| v in a * b;
  }

  /** Two wins of one epoch whose votes together exceed the number of voters, two majorities for
      instance, are wins of the same node, however many ACKs were counted early. */
  lemma WinsAreUnique(voters: set<Name>, worlds: seq<World>, actions: seq<Action>, i: nat, x: Win, y: Win)
    requires Run(voters, worlds, actions) && i < |worlds|
    requires x in worlds[i].wins && y in worlds[i].wins && x.epoch == y.epoch && x.votes + y.votes > |voters|
    ensures x.node == y.node
  {
    ElectionInvariant(voters, worlds, actions, i);
    var w := worlds[i];
    var a: set<Name> :| a <= voters && |a| == x.votes && AllVoted(a, w.votes, x.node, x.epoch);
    var b: set<Name> :| b <= voters && |b| == y.votes && AllVoted(b, w.votes, y.node, y.epoch);
    var v := VoterOfBoth(voters, a, b);
    assert Vote(v, x.node, x.epoch) in w.votes && Vote(v, y.node, y.epoch) in w.votes;
  }

  /** The action counts an ACK between the reset of a tally and the start of the next election. */
  ghost predicate CountsEarly(w: World, a: Action) {
    && a.DeliverAck? && a.n in w.nodes
    && var s := w.nodes[a.n];
    && a.ack.msg.sender in s.epochs && Counts(s, a.ack.msg, a.fromVoter) && !s.authSent
  }

  ghost predicate NoEarlyAck(worlds: seq<World>, actions: seq<Action>) {
    forall i | 0 <= i < |actions| && i < |worlds| :: !CountsEarly(worlds[i], actions[i])
  }

  ghost predicate AllClean(voters: set<Name>, w: World) {
    (forall n | n in w.stale :: w.stale[n] == 0) && (forall x | x in w.wins :: x.votes >= |voters| / 2 + 1)
  }

  lemma {:induction false} WinsAreClean(voters: set<Name>, worlds: seq<World>, actions: seq<Action>, i: nat)
    requires Run(voters, worlds, actions) && NoEarlyAck(worlds, actions) && i < |worlds|
    ensures AllClean(voters, worlds[i])
  {
    hide Elections, Do;
    if i > 0 {
      WinsAreClean(voters, worlds, actions, i - 1);
      ElectionInvariant(voters, worlds, actions, i - 1);
      TallyOfWinner(voters, worlds[i - 1], actions[i - 1]);
      CleanStep(voters, worlds[i - 1], actions[i - 1]);
    }
  }

  lemma TallyOfWinner(voters: set<Name>, w: World, a: Action)
    requires Elections(voters, w) && Enabled(voters, w, a) && AllClean(voters, w)
    ensures a.TakeOverStep? ==> |w.counted[a.n]| >= |voters| / 2 + 1
  {
  }

  lemma CleanStep(voters: set<Name>, w: World, a: Action)
    requires Enabled(voters, w, a) && AllClean(voters, w) && (a.TakeOverStep? ==> |w.counted[a.n]| >= |voters| / 2 + 1)
    requires !CountsEarly(w, a)
    ensures AllClean(voters, Do(voters, w, a))
  {
    hide OnPing, OnUpdate, OnAuthRequest, OnAuthAck, ScheduleElection, StartElection, TakeOver, Bump, SetConfigEpoch;
  }

  /** Election safety: at most one node reaches the quorum branch for any epoch. */
  lemma ElectionSafety(voters: set<Name>, worlds: seq<World>, actions: seq<Action>, x: Win, y: Win)
    requires Run(voters, worlds, actions) && NoEarlyAck(worlds, actions)
    requires x in worlds[|actions|].wins && y in worlds[|actions|].wins && x.epoch == y.epoch
    ensures x.node == y.node
  {
    WinsAreClean(voters, worlds, actions, |actions|);
    WinsAreUnique(voters, worlds, actions, |actions|, x, y);
  }

  // ---- configEpochs of winners ----------------------------------------------------------------

  /** The action does not give the acting node a configEpoch other than by an election: no bump, no
      epoch set by hand, no collision, and no message from or about the node itself. */
  predicate LeavesOwnEpoch(a: Action) {
    match a
    case DeliverPing(n, msg, both) => !both && msg.sender != n
    case DeliverUpdate(n, msg) => msg.sender != n && msg.kind.Update? && msg.kind.about != n
    case DeliverRequest(n, msg, _, _, _, _, _) => msg.sender != n
    case DeliverAck(n, ack, _) => ack.msg.sender != n
    case BumpEpoch(_, _) => false
    case SetEpoch(_, _) => false
    case _ => true
  }

  ghost predicate HasWon(wins: set<Win>, n: Name, epoch: nat) {
    exists x :: x in wins && x.node == n && x.epoch == epoch
  }

  /** A node's own configEpoch is zero or one that it won. */
  ghost predicate OwnEpochsWon(w: World) {
    forall n | n in w.nodes && n in w.nodes[n].epochs && w.nodes[n].epochs[n] != 0 :: HasWon(w.wins, n, w.nodes[n].epochs[n])
  }

  lemma OwnEpochStep(voters: set<Name>, w: World, a: Action)
    requires Domination(w) && Enabled(voters, w, a) && OwnEpochsWon(w) && LeavesOwnEpoch(a)
    ensures OwnEpochsWon(Do(voters, w, a))
  {
    var w', n := Do(voters, w, a), a.n;
    OwnEpochOfActor(voters, w, a);
    DominationStep(voters, w, a);
    hide Do, Domination, Enabled, Acted;
    forall k | k in w'.nodes && k in w'.nodes[k].epochs && w'.nodes[k].epochs[k] != 0
      ensures HasWon(w'.wins, k, w'.nodes[k].epochs[k])
    {
      if k != n || w'.nodes[n].epochs[n] == w.nodes[n].epochs[n] {
        var x :| x in w.wins && x.node == k && x.epoch == w.nodes[k].epochs[k];
        assert x in w'.wins;
      }
    }
  }

  lemma OwnEpochOfActor(voters: set<Name>, w: World, a: Action)
    requires Domination(w) && Enabled(voters, w, a) && LeavesOwnEpoch(a)
    ensures var w' := Do(voters, w, a);
            && w.wins <= w'.wins && a.n in w.nodes[a.n].epochs && a.n in w'.nodes && a.n in w'.nodes[a.n].epochs
            && (|| w'.nodes[a.n].epochs[a.n] == w.nodes[a.n].epochs[a.n]
                || HasWon(w'.wins, a.n, w'.nodes[a.n].epochs[a.n]))
  {
    assert ServerDominates(a.n, w.nodes[a.n]);
    if a.TakeOverStep? {
      var s := w.nodes[a.n];
      assert Win(a.n, s.authEpoch, |w.counted[a.n]|) in Do(voters, w, a).wins;
    }
  }

  lemma {:induction false} OwnEpochInvariant(voters: set<Name>, worlds: seq<World>, actions: seq<Action>, i: nat)
    requires Run(voters, worlds, actions) && i < |worlds|
    requires forall k | 0 <= k < |actions| :: LeavesOwnEpoch(actions[k])
    ensures OwnEpochsWon(worlds[i])
  {
    hide Domination, Enabled, Do, LeavesOwnEpoch, OwnEpochsWon;
    if i > 0 {
      OwnEpochInvariant(voters, worlds, actions, i - 1);
      EpochDomination(voters, worlds, actions, i - 1);
      OwnEpochStep(voters, worlds[i - 1], actions[i - 1]);
    } else {
      NoEpochsYet(worlds[0]);
    }
  }

  lemma NoEpochsYet(w: World)
    requires exists names :: w == Initial(names)
    ensures OwnEpochsWon(w)
  {
  }

  /** As long as configEpochs come from elections only, no two nodes hold the same one, and so no two
      winners do. */
  lemma WinnersDiffer(voters: set<Name>, worlds: seq<World>, actions: seq<Action>, a: Name, b: Name)
    requires Run(voters, worlds, actions) && NoEarlyAck(worlds, actions)
    requires forall k | 0 <= k < |actions| :: LeavesOwnEpoch(actions[k])
    requires var w := worlds[|actions|];
             && a in w.nodes && b in w.nodes && a in w.nodes[a].epochs && b in w.nodes[b].epochs
             && w.nodes[a].epochs[a] == w.nodes[b].epochs[b] != 0
    ensures a == b
  {
    hide Do, Enabled, Initial, NoEarlyAck, LeavesOwnEpoch;
    OwnEpochInvariant(voters, worlds, actions, |actions|);
    var w := worlds[|actions|];
    var x :| x in w.wins && x.node == a && x.epoch == w.nodes[a].epochs[a];
    var y :| y in w.wins && y.node == b && y.epoch == w.nodes[b].epochs[b];
    ElectionSafety(voters, worlds, actions, x, y);
  }
}
