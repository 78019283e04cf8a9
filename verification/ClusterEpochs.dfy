/** The epoch fields of a cluster node (cluster.c) and what each handler does to them.
    Conditions that involve neither epochs nor votes (roles, failure flags, timers, slot
    tables) are boolean inputs, so everything proved later holds whatever they are. */
module ClusterEpochs {
  import opened Basics

  /** Node names in memcmp order. */
  type Name = nat

  /** server.cluster of one node; epochs holds the configEpoch of every known node,
      the node itself included. */
  datatype Server = Server(
    myself: Name,
    currentEpoch: nat,
    lastVoteEpoch: nat,
    authCount: nat,
    authSent: bool,
    authEpoch: nat,
    epochs: map<Name, nat>)

  datatype Kind =
    | Ping
    | AuthRequest
    | AuthAck
    | Update(about: Name, epoch: nat)

  /** The header fields that carry epochs, and the payload of an UPDATE. */
  datatype Message = Message(sender: Name, currentEpoch: nat, configEpoch: nat, kind: Kind)

  ghost predicate Known(s: Server) {
    s.myself in s.epochs
  }

  // ---- handlers as functions --------------------------------------------------------

  /** clusterProcessPacket, common part: learn newer epochs from a known sender. */
  function Learn(s: Server, msg: Message): Server {
    if msg.sender !in s.epochs then s
    else
      s.(currentEpoch := if msg.currentEpoch > s.currentEpoch then msg.currentEpoch else s.currentEpoch,
         epochs := s.epochs[msg.sender :=
           if msg.configEpoch > s.epochs[msg.sender] then msg.configEpoch else s.epochs[msg.sender]])
  }

  /** clusterHandleConfigEpochCollision: the node with the smaller name moves on. */
  function ResolveCollision(s: Server, sender: Name, bothMasters: bool): Server
    requires Known(s) && sender in s.epochs
  {
    if s.epochs[sender] != s.epochs[s.myself] || !bothMasters then s
    else if sender <= s.myself then s
    else s.(currentEpoch := s.currentEpoch + 1, epochs := s.epochs[s.myself := s.currentEpoch + 1])
  }

  /** A PING, PONG or MEET. */
  function OnPing(s: Server, msg: Message, bothMasters: bool): Server
    requires Known(s)
  {
    var s1 := Learn(s, msg);
    if msg.sender in s1.epochs && bothMasters && msg.configEpoch == s1.epochs[s1.myself]
    then ResolveCollision(s1, msg.sender, bothMasters)
    else s1
  }

  /** No owner of a claimed slot is known with a configEpoch above the claimed one. */
  predicate OwnersNotNewer(s: Server, owners: seq<Option<Name>>, epoch: nat) {
    forall i | 0 <= i < |owners| && owners[i].Some? && owners[i].value in s.epochs :: s.epochs[owners[i].value] <= epoch
  }

  /** Whether a vote is granted, after the header was processed; owners are the nodes that own the
      slots claimed by the request. */
  predicate Grants(s: Server, msg: Message, mayVote: bool, deserved: bool, owners: seq<Option<Name>>) {
    && mayVote
    && msg.currentEpoch >= s.currentEpoch
    && s.lastVoteEpoch != s.currentEpoch
    && deserved
    && OwnersNotNewer(s, owners, msg.configEpoch)
  }

  /** A FAILOVER_AUTH_REQUEST: clusterSendFailoverAuthIfNeeded. */
  function OnAuthRequest(s: Server, msg: Message, mayVote: bool, deserved: bool, owners: seq<Option<Name>>): Server {
    var s1 := Learn(s, msg);
    if msg.sender in s1.epochs && Grants(s1, msg, mayVote, deserved, owners)
    then s1.(lastVoteEpoch := s1.currentEpoch)
    else s1
  }

  /** Whether an ACK raises the tally, after the header was processed. */
  predicate Counts(s: Server, msg: Message, fromVoter: bool) {
    fromVoter && msg.currentEpoch >= s.authEpoch
  }

  /** A FAILOVER_AUTH_ACK. */
  function OnAuthAck(s: Server, msg: Message, fromVoter: bool): Server {
    var s1 := Learn(s, msg);
    if msg.sender in s1.epochs && Counts(s1, msg, fromVoter)
    then s1.(authCount := s1.authCount + 1)
    else s1
  }

  /** An UPDATE about a known node is taken when it is newer. */
  function OnUpdate(s: Server, msg: Message): Server
    requires msg.kind.Update?
  {
    var s1 := Learn(s, msg);
    var n := msg.kind.about;
    if msg.sender in s1.epochs && n in s1.epochs && s1.epochs[n] < msg.kind.epoch
    then s1.(epochs := s1.epochs[n := msg.kind.epoch])
    else s1
  }

  /** clusterHandleSlaveFailover: schedule a new attempt. */
  function ScheduleElection(s: Server): Server {
    s.(authCount := 0, authSent := false)
  }

  /** clusterHandleSlaveFailover: ask for votes in a new epoch. */
  function StartElection(s: Server): Server {
    s.(currentEpoch := s.currentEpoch + 1, authEpoch := s.currentEpoch + 1, authSent := true)
  }

  /** clusterHandleSlaveFailover: the quorum was reached. */
  predicate HasQuorum(s: Server, size: nat) {
    s.authSent && s.authCount >= size / 2 + 1
  }

  function TakeOver(s: Server): Server
    requires Known(s)
  {
    if s.epochs[s.myself] < s.authEpoch then s.(epochs := s.epochs[s.myself := s.authEpoch]) else s
  }

  /** clusterGetMaxEpoch */
  ghost predicate IsMaxEpoch(s: Server, max: nat) {
    && max >= s.currentEpoch && (forall n | n in s.epochs :: s.epochs[n] <= max)
    && (max == s.currentEpoch || exists n :: n in s.epochs && s.epochs[n] == max)
  }

  /** clusterBumpConfigEpochWithoutConsensus */
  function Bump(s: Server, maxEpoch: nat): Server
    requires Known(s)
  {
    if s.epochs[s.myself] == 0 || s.epochs[s.myself] != maxEpoch
    then s.(currentEpoch := s.currentEpoch + 1, epochs := s.epochs[s.myself := s.currentEpoch + 1])
    else s
  }

  /** CLUSTER SET-CONFIG-EPOCH on a node that knows no other node. */
  function SetConfigEpoch(s: Server, epoch: nat): Server
    requires Known(s)
  {
    if |s.epochs| > 1 || s.epochs[s.myself] != 0 then s
    else s.(epochs := s.epochs[s.myself := epoch],
            currentEpoch := if s.currentEpoch < epoch then epoch else s.currentEpoch)
  }

  // ---- domination and growth ------------------------------------------------------------

  /** currentEpoch is at least every epoch that the node knows, voted in or asked votes for. */
  ghost predicate Dominates(s: Server) {
    && Known(s) && (forall m | m in s.epochs :: s.epochs[m] <= s.currentEpoch)
    && s.lastVoteEpoch <= s.currentEpoch && s.authEpoch <= s.currentEpoch
  }

  /** A message's currentEpoch is at least the configEpochs it carries. */
  ghost predicate MessageDominates(m: Message) {
    m.configEpoch <= m.currentEpoch && (m.kind.Update? ==> m.kind.epoch <= m.currentEpoch)
  }

  /** The same nodes are known, and no epoch has dropped. */
  ghost predicate Grows(s: Server, s': Server) {
    && s'.myself == s.myself && s'.epochs.Keys == s.epochs.Keys
    && (forall n | n in s.epochs :: s.epochs[n] <= s'.epochs[n])
    && s.currentEpoch <= s'.currentEpoch && s.lastVoteEpoch <= s'.lastVoteEpoch && s.authEpoch <= s'.authEpoch
  }

  /** Nothing about votes and elections has changed. */
  ghost predicate SameElection(s: Server, s': Server) {
    s'.lastVoteEpoch == s.lastVoteEpoch && s'.authCount == s.authCount && s'.authSent == s.authSent && s'.authEpoch == s.authEpoch
  }

  /** No configEpoch but those of these nodes has changed. */
  ghost predicate OthersSame(s: Server, s': Server, changed: set<Name>) {
    s'.epochs.Keys == s.epochs.Keys && forall n | n in s.epochs && n !in changed :: s'.epochs[n] == s.epochs[n]
  }

  // ---- the handlers as they update server.cluster in place -----------------------------

  /** Valid() is domination; every handler keeps it, for messages that dominate, as all messages of
      a run do. */
  class Cluster {
    const myself: Name
    var currentEpoch: nat
    var lastVoteEpoch: nat
    var failoverAuthCount: nat
    var failoverAuthSent: bool
    var failoverAuthEpoch: nat
    var configEpoch: map<Name, nat>

    ghost function State(): Server
      reads this
    {
      Server(myself, currentEpoch, lastVoteEpoch, failoverAuthCount, failoverAuthSent, failoverAuthEpoch, configEpoch)
    }

    ghost predicate Valid()
      reads this
    {
      Dominates(State())
    }

    constructor (name: Name)
      ensures Valid() && State() == Server(name, 0, 0, 0, false, 0, map[name := 0])
    {
      myself := name;
      currentEpoch, lastVoteEpoch := 0, 0;
      failoverAuthCount, failoverAuthSent, failoverAuthEpoch := 0, false, 0;
      configEpoch := map[name := 0];
    }

    /** Afterwards this node is not behind the header of a known sender. */
    method ProcessHeader(msg: Message) returns (known: bool)
      requires Valid() && MessageDominates(msg)
      modifies this
      ensures Valid() && Grows(old(State()), State()) && SameElection(old(State()), State())
      ensures OthersSame(old(State()), State(), {msg.sender})
      ensures known <==> msg.sender in configEpoch
      ensures known ==> currentEpoch >= msg.currentEpoch && configEpoch[msg.sender] >= msg.configEpoch
      ensures !known ==> State() == old(State())
      ensures known ==> currentEpoch == Max(old(currentEpoch), msg.currentEpoch)
      ensures known ==> configEpoch[msg.sender] == Max(old(configEpoch)[msg.sender], msg.configEpoch)
      ensures State() == Learn(old(State()), msg)
    {
      known := msg.sender in configEpoch;
      if known {
        if msg.currentEpoch > currentEpoch { currentEpoch := msg.currentEpoch; }
        if msg.configEpoch > configEpoch[msg.sender] {
          configEpoch := configEpoch[msg.sender := msg.configEpoch];
        }
      }
    }

    /** A collision between masters is resolved if it is for this node, the one with the smaller
        name, to do so; the new epoch is above all that the node knew. */
    method HandleConfigEpochCollision(sender: Name, bothMasters: bool)
      requires Valid() && sender in configEpoch
      modifies this
      ensures Valid() && Grows(old(State()), State()) && SameElection(old(State()), State())
      ensures OthersSame(old(State()), State(), {myself})
      ensures bothMasters && sender > myself ==> configEpoch[sender] != configEpoch[myself]
      ensures if bothMasters && sender > myself && old(configEpoch)[sender] == old(configEpoch)[myself]
              then configEpoch[myself] == currentEpoch == old(currentEpoch) + 1 && forall n | n in configEpoch :: old(configEpoch)[n] < currentEpoch
              else State() == old(State())
      ensures State() == ResolveCollision(old(State()), sender, bothMasters)
    {
      if configEpoch[sender] != configEpoch[myself] || !bothMasters { return; }
      if sender <= myself { return; }
      currentEpoch := currentEpoch + 1;
      configEpoch := configEpoch[myself := currentEpoch];
    }

    /** A ping with the newest epoch of a master with a larger name leaves no collision with it. */
    method ProcessPing(msg: Message, bothMasters: bool)
      requires Valid() && MessageDominates(msg)
      modifies this
      ensures Valid() && Grows(old(State()), State()) && SameElection(old(State()), State())
      ensures OthersSame(old(State()), State(), {msg.sender, myself})
      ensures msg.sender !in configEpoch ==> State() == old(State())
      ensures msg.sender in configEpoch ==> currentEpoch >= msg.currentEpoch && configEpoch[msg.sender] >= msg.configEpoch
      ensures bothMasters && msg.sender > myself && msg.sender in configEpoch && configEpoch[msg.sender] == msg.configEpoch ==>
                configEpoch[myself] != configEpoch[msg.sender]
      ensures msg.sender in configEpoch ==> configEpoch[msg.sender] == Max(old(configEpoch)[msg.sender], msg.configEpoch)
                                            || (msg.sender == myself && configEpoch[myself] >= msg.configEpoch)
      ensures msg.sender in configEpoch && msg.sender != myself ==>
                var cur := Max(old(currentEpoch), msg.currentEpoch);
                if bothMasters && msg.sender > myself && old(configEpoch)[msg.sender] <= msg.configEpoch == old(configEpoch)[myself]
                then configEpoch[myself] == currentEpoch == cur + 1
                else configEpoch[myself] == old(configEpoch)[myself] && currentEpoch == cur
      ensures State() == OnPing(old(State()), msg, bothMasters)
    {
      var known := ProcessHeader(msg);
      if known && bothMasters && msg.configEpoch == configEpoch[myself] {
        HandleConfigEpochCollision(msg.sender, bothMasters);
      }
    }

    /** The ACK carries the voter's currentEpoch, which is then its lastVoteEpoch. A vote is always
        for a later epoch than any before. */
    method SendFailoverAuthIfNeeded(msg: Message, mayVote: bool, deserved: bool, owners: seq<Option<Name>>) returns (granted: bool)
      requires Valid() && MessageDominates(msg)
      modifies this
      ensures Valid() && Grows(old(State()), State())
      ensures granted <==>
                && msg.sender in old(configEpoch) && mayVote && deserved
                && old(currentEpoch) <= msg.currentEpoch && old(lastVoteEpoch) < msg.currentEpoch
                && forall i | 0 <= i < |owners| && owners[i].Some? && owners[i].value in old(configEpoch) ::
                     old(configEpoch)[owners[i].value] <= msg.configEpoch
      ensures granted ==> old(lastVoteEpoch) < lastVoteEpoch == currentEpoch == msg.currentEpoch
      ensures failoverAuthCount == old(failoverAuthCount) && failoverAuthSent == old(failoverAuthSent)
      ensures failoverAuthEpoch == old(failoverAuthEpoch) && OthersSame(old(State()), State(), {msg.sender})
      ensures !granted ==> SameElection(old(State()), State())
      ensures State() == OnAuthRequest(old(State()), msg, mayVote, deserved, owners)
    {
      var known := ProcessHeader(msg);
      if !known { return false; }
      if !mayVote { return false; }
      if msg.currentEpoch < currentEpoch { return false; }
      if lastVoteEpoch == currentEpoch { return false; }
      if !deserved { return false; }
      for j := 0 to |owners|
        invariant State() == Learn(old(State()), msg) && Valid()
        invariant forall i | 0 <= i < j && owners[i].Some? && owners[i].value in configEpoch ::
                    configEpoch[owners[i].value] <= msg.configEpoch
      {
        if owners[j].None? || owners[j].value !in configEpoch || configEpoch[owners[j].value] <= msg.configEpoch { continue; }
        return false;
      }
      lastVoteEpoch := currentEpoch;
      return true;
    }

    /** An ACK raises the tally by one exactly when it comes from a voter and is not of an epoch
        before the election. */
    method ProcessAuthAck(msg: Message, fromVoter: bool)
      requires Valid() && MessageDominates(msg)
      modifies this
      ensures Valid() && Grows(old(State()), State()) && OthersSame(old(State()), State(), {msg.sender})
      ensures failoverAuthSent == old(failoverAuthSent) && lastVoteEpoch == old(lastVoteEpoch)
      ensures failoverAuthEpoch == old(failoverAuthEpoch)
      ensures old(failoverAuthCount) <= failoverAuthCount <= old(failoverAuthCount) + 1
      ensures failoverAuthCount > old(failoverAuthCount) <==>
                msg.sender in configEpoch && fromVoter && msg.currentEpoch >= failoverAuthEpoch
      ensures State() == OnAuthAck(old(State()), msg, fromVoter)
    {
      var known := ProcessHeader(msg);
      if !known { return; }
      if fromVoter && msg.currentEpoch >= failoverAuthEpoch {
        failoverAuthCount := failoverAuthCount + 1;
      }
    }

    /** Afterwards this node is not behind the reported configEpoch. */
    method ProcessUpdate(msg: Message)
      requires Valid() && MessageDominates(msg) && msg.kind.Update?
      modifies this
      ensures Valid() && Grows(old(State()), State()) && SameElection(old(State()), State())
      ensures OthersSame(old(State()), State(), {msg.sender, msg.kind.about})
      ensures msg.sender !in configEpoch ==> State() == old(State())
      ensures msg.sender in configEpoch && msg.kind.about in configEpoch ==> configEpoch[msg.kind.about] >= msg.kind.epoch
      ensures msg.sender in configEpoch && msg.kind.about in configEpoch && msg.kind.about != msg.sender ==>
                configEpoch[msg.kind.about] == Max(old(configEpoch)[msg.kind.about], msg.kind.epoch)
      ensures msg.sender in configEpoch ==> currentEpoch == Max(old(currentEpoch), msg.currentEpoch)
      ensures State() == OnUpdate(old(State()), msg)
    {
      var known := ProcessHeader(msg);
      if !known { return; }
      var n := msg.kind.about;
      if n !in configEpoch { return; }
      if configEpoch[n] >= msg.kind.epoch { return; }
      configEpoch := configEpoch[n := msg.kind.epoch];
    }

    /** The epoch part of clusterHandleSlaveFailover: one call schedules, asks for votes,
        takes over, or waits. An election is held in an epoch above all that the candidate knows,
        voted in or asked for; a winner has counted a majority, and its configEpoch is then at least
        that of the election. */
    method HandleSlaveFailover(retry: bool, tooEarly: bool, tooOld: bool, size: nat)
      returns (asked: bool, won: bool)
      requires Valid()
      modifies this
      ensures Valid() && Grows(old(State()), State()) && OthersSame(old(State()), State(), {myself})
      ensures asked <==> !retry && !tooEarly && !tooOld && !old(failoverAuthSent)
      ensures won <==> !retry && !tooEarly && !tooOld && old(failoverAuthSent) && 2 * old(failoverAuthCount) > size
      ensures retry ==> failoverAuthCount == 0 && !failoverAuthSent && failoverAuthEpoch == old(failoverAuthEpoch)
                        && lastVoteEpoch == old(lastVoteEpoch)
      ensures asked ==> failoverAuthEpoch == currentEpoch == old(currentEpoch) + 1 && failoverAuthCount == old(failoverAuthCount)
                        && lastVoteEpoch == old(lastVoteEpoch)
      ensures asked ==> failoverAuthSent && failoverAuthEpoch > old(failoverAuthEpoch) && failoverAuthEpoch > lastVoteEpoch
                        && configEpoch == old(configEpoch) && forall n | n in configEpoch :: configEpoch[n] < failoverAuthEpoch
      ensures won ==> configEpoch[myself] == Max(old(configEpoch)[myself], failoverAuthEpoch)
                      && SameElection(old(State()), State()) && currentEpoch == old(currentEpoch)
      ensures !asked && !won ==> configEpoch == old(configEpoch) && currentEpoch == old(currentEpoch)
                                 && (retry || SameElection(old(State()), State()))
      ensures State() == if retry then ScheduleElection(old(State()))
                         else if asked then StartElection(old(State()))
                         else if won then TakeOver(old(State()))
                         else old(State())
    {
      asked, won := false, false;
      if retry {
        failoverAuthCount := 0;
        failoverAuthSent := false;
        return;
      }
      if tooEarly { return; }
      if tooOld { return; }
      if !failoverAuthSent {
        currentEpoch := currentEpoch + 1;
        failoverAuthEpoch := currentEpoch;
        failoverAuthSent := true;
        return true, false;
      }
      if failoverAuthCount >= size / 2 + 1 {
        if configEpoch[myself] < failoverAuthEpoch {
          configEpoch := configEpoch[myself := failoverAuthEpoch];
        }
        return false, true;
      }
    }

    method GetMaxEpoch() returns (max: nat)
      requires Known(State())
      ensures IsMaxEpoch(State(), max)
    {
      max := 0;
      var left := configEpoch.Keys;
      ghost var at := myself;
      while left != {}
        invariant left <= configEpoch.Keys && at in configEpoch
        invariant forall n | n in configEpoch && n !in left :: configEpoch[n] <= max
        invariant max == 0 || configEpoch[at] == max
        decreases left
      {
        var n: Name :| n in left;
        if configEpoch[n] > max {
          max := configEpoch[n];
          at := n;
        }
        left := left - {n};
      }
      if max < currentEpoch { max := currentEpoch; }
    }

    /** Afterwards no other node is known with a greater configEpoch than this one's. */
    method BumpConfigEpochWithoutConsensus() returns (ok: bool, ghost max: nat)
      requires Valid()
      modifies this
      ensures Valid() && Grows(old(State()), State()) && SameElection(old(State()), State())
      ensures OthersSame(old(State()), State(), {myself})
      ensures forall n | n in configEpoch :: configEpoch[n] <= configEpoch[myself] == currentEpoch
      ensures ok ==> forall n | n in configEpoch :: old(configEpoch)[n] < configEpoch[myself]
      ensures ok <==> State() != old(State())
      ensures ok <==> old(configEpoch)[myself] == 0 || old(configEpoch)[myself] < old(currentEpoch)
      ensures ok ==> currentEpoch == old(currentEpoch) + 1
      ensures IsMaxEpoch(old(State()), max) && State() == Bump(old(State()), max)
    {
      var maxEpoch := GetMaxEpoch();
      max := maxEpoch;
      if configEpoch[myself] == 0 || configEpoch[myself] != maxEpoch {
        currentEpoch := currentEpoch + 1;
        configEpoch := configEpoch[myself := currentEpoch];
        return true, max;
      }
      return false, max;
    }

    /** Only a node that knows no other and has no epoch yet takes one from the user. */
    method SetEpoch(epoch: nat)
      requires Valid()
      modifies this
      ensures Valid() && Grows(old(State()), State()) && SameElection(old(State()), State())
      ensures if old(configEpoch) == map[myself := 0] then configEpoch == map[myself := epoch] && currentEpoch == Max(old(currentEpoch), epoch)
              else State() == old(State())
      ensures State() == SetConfigEpoch(old(State()), epoch)
    {
      if |configEpoch| > 1 || configEpoch[myself] != 0 { return; }
      OnlyMyself(configEpoch, myself);
      configEpoch := configEpoch[myself := epoch];
      if currentEpoch < epoch { currentEpoch := epoch; }
    }
  }

  lemma OnlyMyself(epochs: map<Name, nat>, n: Name)
    requires n in epochs && |epochs| <= 1
    ensures epochs == map[n := epochs[n]]
  {
    forall m | m in epochs ensures m == n {
      SubsetSize({m, n}, epochs.Keys);
    }
  }
}
