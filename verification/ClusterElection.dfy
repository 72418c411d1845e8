/**
 The failover election of `cluster.c`: slaves of a failed master ask the masters for
 their votes in an epoch, masters vote at most once per epoch, and a slave that counts
 a majority of votes becomes the new master under that epoch.

 The network may lose, delay and reorder messages, but does not duplicate them. The
 set of masters that serve slots is fixed and known to everybody, and nodes do not restart.
 */
module ClusterElection {
  import opened Common
  import opened Words
  import opened ClusterSlots

  /** The election state of one node, as kept in `server.cluster`. */
  datatype NodeState = NodeState(
    currentEpoch: nat, lastVoteEpoch: nat, authEpoch: nat, authCount: nat, authSent: bool)

  // --- The handlers of one node, as functions ---

  /** Every packet from a known node raises `currentEpoch` to that of its sender. */
  function SawEpoch(s: NodeState, epoch: nat): NodeState {
    if epoch > s.currentEpoch then s.(currentEpoch := epoch) else s
  }

  /** Whether a vote is granted; `willing` stands for the conditions that are not about epochs. */
  predicate Grants(s: NodeState, requestEpoch: nat, willing: bool) {
    willing && requestEpoch >= s.currentEpoch && s.lastVoteEpoch != s.currentEpoch
  }

  function Voted(s: NodeState): NodeState {
    s.(lastVoteEpoch := s.currentEpoch)
  }

  /** A FAILOVER_AUTH_ACK from a master that serves slots counts unless it is from before the election. */
  function CountAck(s: NodeState, epoch: nat): NodeState {
    if epoch >= s.authEpoch then s.(authCount := s.authCount + 1) else s
  }

  function Scheduled(s: NodeState): NodeState {
    s.(authCount := 0, authSent := false)
  }

  function Requested(s: NodeState): NodeState {
    s.(currentEpoch := s.currentEpoch + 1, authEpoch := s.currentEpoch + 1, authSent := true)
  }

  // --- The handlers, as they update the node ---

  datatype Outcome = Idle | ElectionScheduled | VotesRequested | Won

  /** No slot of the request's bitmap is served under a greater configEpoch. */
  ghost predicate NoNewerOwner(claimed: Bitmap, owners: seq<Option<nat>>, requestConfigEpoch: nat)
    requires |owners| == SLOTS
  {
    forall j: nat | j < SLOTS && TestBit(claimed, j) && owners[j].Some? :: owners[j].value <= requestConfigEpoch
  }

  /** The conditions of a vote that are not about epochs, and not about the voter. */
  ghost predicate Willing(
    requestConfigEpoch: nat, claimed: Bitmap, owners: seq<Option<nat>>, isSlave: bool, masterKnown: bool,
    masterFailed: bool, votedTime: int, now: int, nodeTimeout: nat)
    requires |owners| == SLOTS
  {
    && isSlave && masterKnown && masterFailed && now - votedTime >= nodeTimeout * 2
    && NoNewerOwner(claimed, owners, requestConfigEpoch)
  }

  class Elector {
    var currentEpoch: nat
    var lastVoteEpoch: nat
    var failoverAuthEpoch: nat
    var failoverAuthCount: nat
    var failoverAuthSent: bool

    function Value(): NodeState
      reads this
    {
      NodeState(currentEpoch, lastVoteEpoch, failoverAuthEpoch, failoverAuthCount, failoverAuthSent)
    }

    /** The epoch update at the start of `clusterProcessPacket`. */
    method ReceiveHeader(senderCurrentEpoch: nat)
      modifies this
      ensures Value() == SawEpoch(old(Value()), senderCurrentEpoch)
      ensures currentEpoch >= old(currentEpoch) && currentEpoch >= senderCurrentEpoch
      ensures currentEpoch == old(currentEpoch) || currentEpoch == senderCurrentEpoch
    {
      if senderCurrentEpoch > currentEpoch {
        currentEpoch := senderCurrentEpoch;
      }
    }

    /**
     `clusterSendFailoverAuthIfNeeded`. `owners[j]` is the configEpoch of the node serving
     slot `j`, if there is one, and `votedTime` when a slave of the same master got the last
     vote. A vote needs all the conditions, and nothing else.
     */
    method SendFailoverAuthIfNeeded(
      amMaster: bool, numslots: nat, requestCurrentEpoch: nat, requestConfigEpoch: nat, claimed: Bitmap,
      owners: seq<Option<nat>>, isSlave: bool, masterKnown: bool, masterFailed: bool, votedTime: int, now: int,
      nodeTimeout: nat)
      returns (vote: bool, votedTime': int)
      requires |owners| == SLOTS
      modifies this
      ensures vote == Grants(old(Value()), requestCurrentEpoch,
                        amMaster && numslots > 0 && Willing(requestConfigEpoch, claimed, owners, isSlave, masterKnown,
                                                            masterFailed, votedTime, now, nodeTimeout))
      ensures Value() == if vote then Voted(old(Value())) else old(Value())
      ensures votedTime' == if vote then now else votedTime
      ensures vote <==>
                && amMaster && numslots > 0 && isSlave && masterKnown && masterFailed
                && requestCurrentEpoch >= old(currentEpoch) && old(lastVoteEpoch) != old(currentEpoch)
                && now - votedTime >= 2 * nodeTimeout
                && NoNewerOwner(claimed, owners, requestConfigEpoch)
      ensures currentEpoch == old(currentEpoch) && lastVoteEpoch == if vote then currentEpoch else old(lastVoteEpoch)
    {
      hide TestBit;
      if !amMaster || numslots == 0 {
        return false, votedTime;
      }
      if requestCurrentEpoch < currentEpoch {
        return false, votedTime;
      }
      if lastVoteEpoch == currentEpoch {
        return false, votedTime;
      }
      if !isSlave || !masterKnown || !masterFailed {
        return false, votedTime;
      }
      if now - votedTime < nodeTimeout * 2 {
        return false, votedTime;
      }
      var j := 0;
      while j < SLOTS
        invariant 0 <= j <= SLOTS && Value() == old(Value())
        invariant forall q: nat | q < j && TestBit(claimed, q) && owners[q].Some? :: owners[q].value <= requestConfigEpoch
      {
        if TestBit(claimed, j) && owners[j].Some? && owners[j].value > requestConfigEpoch {
          return false, votedTime;
        }
        j := j + 1;
      }
      lastVoteEpoch := currentEpoch;
      return true, now;
    }

    /** The FAILOVER_AUTH_ACK case of `clusterProcessPacket`. */
    method ReceiveAck(senderIsMaster: bool, senderNumslots: nat, senderCurrentEpoch: nat)
      modifies this
      ensures Value() == if senderIsMaster && senderNumslots > 0 then CountAck(old(Value()), senderCurrentEpoch)
                         else old(Value())
      ensures failoverAuthCount == old(failoverAuthCount) +
                if senderIsMaster && senderNumslots > 0 && senderCurrentEpoch >= failoverAuthEpoch then 1 else 0
    {
      if senderIsMaster && senderNumslots > 0 && senderCurrentEpoch >= failoverAuthEpoch {
        failoverAuthCount := failoverAuthCount + 1;
      }
    }

    /**
     `clusterHandleSlaveFailover`, given which of its conditions on roles and clocks hold:
     `eligible` (a slave of a failed master with slots, with recent data), `retryDue`,
     `tooEarly` and `tooLate`.
     */
    method HandleSlaveFailover(size: nat, eligible: bool, retryDue: bool, tooEarly: bool, tooLate: bool)
      returns (outcome: Outcome)
      modifies this
      ensures outcome == if !eligible then Idle
                         else if retryDue then ElectionScheduled
                         else if tooEarly || tooLate then Idle
                         else if !old(failoverAuthSent) then VotesRequested
                         else if old(failoverAuthCount) >= size / 2 + 1 then Won
                         else Idle
      ensures Value() == match outcome
                         case ElectionScheduled => Scheduled(old(Value()))
                         case VotesRequested => Requested(old(Value()))
                         case _ => old(Value())
      ensures outcome == ElectionScheduled ==> failoverAuthCount == 0 && !failoverAuthSent
      ensures outcome == VotesRequested ==>
                currentEpoch == old(currentEpoch) + 1 == failoverAuthEpoch && failoverAuthSent
    {
      var neededQuorum := size / 2 + 1;
      if !eligible {
        return Idle;
      }
      if retryDue {
        failoverAuthCount := 0;
        failoverAuthSent := false;
        return ElectionScheduled;
      }
      if tooEarly || tooLate {
        return Idle;
      }
      if !failoverAuthSent {
        currentEpoch := currentEpoch + 1;
        failoverAuthEpoch := currentEpoch;
        failoverAuthSent := true;
        return VotesRequested;
      }
      if failoverAuthCount >= neededQuorum {
        return Won;
      }
      return Idle;
    }
  }

  // --- The cluster ---

  datatype Msg =
    | Request(from: NodeId, to: NodeId, epoch: nat)
    | Ack(from: NodeId, to: NodeId, epoch: nat)
    | Other(from: NodeId, to: NodeId, epoch: nat)

  datatype Vote = Vote(voter: NodeId, epoch: nat, slave: NodeId)

  /**
   All nodes, the messages in flight, and three histories: the votes granted, which
   masters' ACKs each slave has counted in its current election, and the elections won.
   */
  datatype World = World(
    nodes: map<NodeId, NodeState>, net: multiset<Msg>, votes: set<Vote>,
    counted: map<NodeId, set<NodeId>>, wins: set<(nat, NodeId)>)

  datatype Action =
    | Schedule(slave: NodeId)
    | Start(slave: NodeId)
    | Win(slave: NodeId)
    | Send(from: NodeId, to: NodeId)
    | Lose(msg: Msg)
    | Deliver(msg: Msg, willing: bool)

  /** The vote requests a slave sends, one to each master. */
  function Requests(s: NodeId, voters: set<NodeId>, epoch: nat): (r: set<Msg>)
    ensures forall m :: m in r <==> m.Request? && m.from == s && m.epoch == epoch && m.to in voters
  {
    set v | v in voters :: Request(s, v, epoch)
  }

  function SetNode(w: World, n: NodeId, s: NodeState): World {
    w.(nodes := w.nodes[n := s])
  }

  predicate Enabled(voters: set<NodeId>, w: World, a: Action) {
    match a
    case Schedule(s) => s in w.nodes && s in w.counted && s !in voters
    case Start(s) => s in w.nodes && s in w.counted && s !in voters && !w.nodes[s].authSent
    case Win(s) => s in w.nodes && s !in voters && w.nodes[s].authSent && w.nodes[s].authCount >= |voters| / 2 + 1
    case Send(from, to) => from in w.nodes && to in w.nodes
    case Lose(m) => m in w.net
    case Deliver(m, _) => m in w.net && m.to in w.nodes && (m.Ack? ==> m.to in w.counted)
  }

  function DeliverRequest(voters: set<NodeId>, w: World, m: Msg, willing: bool): World
    requires m.Request? && m.to in w.nodes
  {
    var s := SawEpoch(w.nodes[m.to], m.epoch);
    var w1 := SetNode(w, m.to, s).(net := w.net - multiset{m});
    if m.to in voters && Grants(s, m.epoch, willing) then
      SetNode(w1, m.to, Voted(s)).(
        net := w1.net + multiset{Ack(m.to, m.from, s.currentEpoch)},
        votes := w1.votes + {Vote(m.to, s.currentEpoch, m.from)})
    else w1
  }

  function DeliverAck(voters: set<NodeId>, w: World, m: Msg): World
    requires m.Ack? && m.to in w.nodes && m.to in w.counted
  {
    var s := SawEpoch(w.nodes[m.to], m.epoch);
    var w1 := SetNode(w, m.to, s).(net := w.net - multiset{m});
    if m.from in voters then
      var w2 := SetNode(w1, m.to, CountAck(s, m.epoch));
      if m.epoch >= s.authEpoch then w2.(counted := w2.counted[m.to := w2.counted[m.to] + {m.from}]) else w2
    else w1
  }

  function Next(voters: set<NodeId>, w: World, a: Action): World
    requires Enabled(voters, w, a)
  {
    match a
    case Schedule(s) => SetNode(w, s, Scheduled(w.nodes[s])).(counted := w.counted[s := {}])
    case Start(s) =>
      var n := Requested(w.nodes[s]);
      SetNode(w, s, n).(net := w.net + multiset(Requests(s, voters, n.currentEpoch)))
    case Win(s) => w.(wins := w.wins + {(w.nodes[s].authEpoch, s)})
    case Send(from, to) => w.(net := w.net + multiset{Other(from, to, w.nodes[from].currentEpoch)})
    case Lose(m) => w.(net := w.net - multiset{m})
    case Deliver(m, willing) =>
      match m
      case Request(_, _, _) => DeliverRequest(voters, w, m, willing)
      case Ack(_, _, _) => DeliverAck(voters, w, m)
      case Other(_, to, epoch) => SetNode(w, to, SawEpoch(w.nodes[to], epoch)).(net := w.net - multiset{m})
  }

  /** No step lets an epoch fall, and a delivered message leaves its receiver at least in the epoch of its sender. */
  lemma EpochsRise(voters: set<NodeId>, w: World, a: Action, n: NodeId)
    requires Enabled(voters, w, a) && n in w.nodes
    ensures n in Next(voters, w, a).nodes && Next(voters, w, a).nodes[n].currentEpoch >= w.nodes[n].currentEpoch
    ensures a.Deliver? && a.msg.to == n ==> Next(voters, w, a).nodes[n].currentEpoch >= a.msg.epoch
  {
    if a.Deliver? {
      DeliveryRaises(voters, w, a.msg, a.willing, n);
    }
    hide DeliverRequest, DeliverAck, Requests;
  }

  lemma DeliveryRaises(voters: set<NodeId>, w: World, m: Msg, willing: bool, n: NodeId)
    requires m.to in w.nodes && n in w.nodes && (m.Ack? ==> m.to in w.counted)
    ensures m.Request? ==> var w' := DeliverRequest(voters, w, m, willing);
                           n in w'.nodes && w'.nodes[n].currentEpoch >= w.nodes[n].currentEpoch &&
                           (m.to == n ==> w'.nodes[n].currentEpoch >= m.epoch)
    ensures m.Ack? ==> var w' := DeliverAck(voters, w, m);
                       n in w'.nodes && w'.nodes[n].currentEpoch >= w.nodes[n].currentEpoch &&
                       (m.to == n ==> w'.nodes[n].currentEpoch >= m.epoch)
  {
  }

  // --- The handlers are the actions ---

  /**
   `clusterHandleSlaveFailover` at slave `n` of a cluster whose size is the number of masters
   with slots: whatever it does is an action of the cluster, with its effect on the node.
   */
  method RunFailoverHandler(
    node: Elector, ghost voters: set<NodeId>, ghost w: World, ghost n: NodeId, size: nat, eligible: bool,
    retryDue: bool, tooEarly: bool, tooLate: bool)
    returns (outcome: Outcome)
    requires n in w.nodes && n in w.counted && n !in voters && node.Value() == w.nodes[n] && size == |voters|
    modifies node
    ensures match outcome
            case Idle => node.Value() == w.nodes[n]
            case ElectionScheduled =>
              Enabled(voters, w, Schedule(n)) && Next(voters, w, Schedule(n)).nodes == w.nodes[n := node.Value()]
            case VotesRequested =>
              && Enabled(voters, w, Start(n)) && Next(voters, w, Start(n)).nodes == w.nodes[n := node.Value()]
              && Next(voters, w, Start(n)).net == w.net + multiset(Requests(n, voters, node.currentEpoch))
            case Won =>
              && Enabled(voters, w, Win(n)) && node.Value() == w.nodes[n]
              && Next(voters, w, Win(n)).wins == w.wins + {(node.failoverAuthEpoch, n)}
  {
    outcome := node.HandleSlaveFailover(size, eligible, retryDue, tooEarly, tooLate);
    assert outcome == Idle || outcome == Won ==> w.nodes[n := node.Value()] == w.nodes;
  }

  /** A FAILOVER_AUTH_REQUEST at node `m.to`, which votes only if it is a master with slots. */
  method ProcessRequest(
    node: Elector, ghost voters: set<NodeId>, ghost w: World, m: Msg, amMaster: bool, numslots: nat,
    requestConfigEpoch: nat, claimed: Bitmap, owners: seq<Option<nat>>, isSlave: bool, masterKnown: bool,
    masterFailed: bool, votedTime: int, now: int, nodeTimeout: nat)
    returns (vote: bool, votedTime': int)
    requires m.Request? && m in w.net && m.to in w.nodes && node.Value() == w.nodes[m.to] && |owners| == SLOTS
    requires m.to in voters <==> amMaster && numslots > 0
    modifies node
    ensures var willing := Willing(
              requestConfigEpoch, claimed, owners, isSlave, masterKnown, masterFailed, votedTime, now, nodeTimeout);
            && Enabled(voters, w, Deliver(m, willing))
            && var w' := Next(voters, w, Deliver(m, willing));
               && w'.nodes == w.nodes[m.to := node.Value()]
               && w'.net == w.net - multiset{m}
                            + (if vote then multiset{Ack(m.to, m.from, node.currentEpoch)} else multiset{})
               && w'.votes == w.votes + (if vote then {Vote(m.to, node.currentEpoch, m.from)} else {})
  {
    node.ReceiveHeader(m.epoch);
    vote, votedTime' := node.SendFailoverAuthIfNeeded(
      amMaster, numslots, m.epoch, requestConfigEpoch, claimed, owners, isSlave, masterKnown, masterFailed,
      votedTime, now, nodeTimeout);
  }

  /** A FAILOVER_AUTH_ACK at slave `m.to`. */
  method ProcessAck(
    node: Elector, ghost voters: set<NodeId>, ghost w: World, m: Msg, senderIsMaster: bool, senderNumslots: nat)
    requires m.Ack? && m in w.net && m.to in w.nodes && m.to in w.counted && node.Value() == w.nodes[m.to]
    requires m.from in voters <==> senderIsMaster && senderNumslots > 0
    modifies node
    ensures Enabled(voters, w, Deliver(m, true))
    ensures Next(voters, w, Deliver(m, true)).nodes == w.nodes[m.to := node.Value()]
  {
    node.ReceiveHeader(m.epoch);
    node.ReceiveAck(senderIsMaster, senderNumslots, m.epoch);
  }

  /** The configEpochs under which the slots are served, as a node knows them. */
  ghost function Owners(v: View): (r: seq<Option<nat>>)
    requires ViewOk(v)
    ensures |r| == SLOTS
  {
    seq(SLOTS, j requires 0 <= j < SLOTS => if v.slots[j].None? then None else Some(v.epochs[v.slots[j].value]))
  }

  /**
   What a vote leads to. The winner takes the slots of its master over and announces them; a
   voter that knew no newer owner of them when the request carried their bitmap accepts all
   of them, provided that the election's epoch is newer than the configuration it replaces.
   */
  method AnnounceWin(
    winner: Cluster, voter: Cluster, me: NodeId, oldmaster: NodeId, epoch: nat, ghost requestConfigEpoch: nat,
    ghost claimed: Bitmap)
    requires winner != voter && winner.Valid() && voter.Valid() && ViewOk(voter.Known())
    requires me in winner.nodes && oldmaster in winner.nodes && me != oldmaster && me in voter.nodes
    requires claimed == winner.nodes[oldmaster].bitmap
    requires NoNewerOwner(claimed, Owners(voter.Known()), requestConfigEpoch)
    modifies winner, voter
    ensures winner.Valid() && voter.Valid()
    ensures forall j: nat | j < SLOTS && TestBit(claimed, j) :: winner.slots[j] == Some(me)
    ensures requestConfigEpoch < epoch ==>
              forall j: nat | j < SLOTS && TestBit(claimed, j) :: voter.slots[j] == Some(me)
    ensures forall j: nat | j < SLOTS && winner.slots[j] != Some(me) :: voter.slots[j] == old(voter.slots)[j]
  {
    hide TestBit, CountOk;
    assert forall j: nat | j < SLOTS && TestBit(claimed, j) :: winner.slots[j] == Some(oldmaster);
    winner.TakeOver(me, oldmaster, epoch);
    KeysKept(winner, winner.Known().epochs);
    forall j: nat | j < SLOTS
      ensures winner.slots[j] == Some(me) <==> TestBit(winner.nodes[me].bitmap, j)
    {
    }
    KeysKept(voter, voter.Known().epochs);
    var _ := voter.ReceiveClaim(me, epoch, winner.nodes[me].bitmap, None);
  }

  /**
   An ACK that counts is not delivered between the reset of the counter and the
   request for votes of the next election: it would belong to the previous one.
   */
  predicate NotStale(w: World, a: Action) {
    a.Deliver? && a.msg.Ack? && a.msg.to in w.nodes && !w.nodes[a.msg.to].authSent ==>
      a.msg.epoch < w.nodes[a.msg.to].authEpoch
  }

  ghost predicate Init(voters: set<NodeId>, w: World) {
    && voters <= w.nodes.Keys
    && w.counted.Keys == w.nodes.Keys
    && w.net == multiset{} && w.votes == {} && w.wins == {}
    && (forall n | n in w.nodes :: w.nodes[n].authCount == 0 && w.nodes[n].authEpoch <= w.nodes[n].currentEpoch)
    && (forall n | n in w.counted :: w.counted[n] == {})
  }

  // --- The invariant ---

  ghost predicate VotesOk(voters: set<NodeId>, w: World) {
    && (forall x | x in w.votes ::
          && x.voter in voters && x.voter in w.nodes && x.slave in w.nodes
          && x.epoch <= w.nodes[x.voter].lastVoteEpoch <= w.nodes[x.voter].currentEpoch
          && x.epoch <= w.nodes[x.slave].authEpoch)
    && (forall x, y | x in w.votes && y in w.votes && x.voter == y.voter && x.epoch == y.epoch :: x == y)
  }

  ghost predicate NetOk(w: World) {
    && (forall m | m in w.net && m.Request? :: m.from in w.nodes && m.epoch <= w.nodes[m.from].authEpoch)
    && (forall m | m in w.net && m.Ack? :: w.net[m] == 1 && Vote(m.from, m.epoch, m.to) in w.votes)
  }

  /** Master `v` voted for `s` in the current election of `s`, and its ACK is no longer in flight. */
  ghost predicate CountedVote(voters: set<NodeId>, w: World, s: NodeId, v: NodeId)
    requires s in w.nodes
  {
    && v in voters
    && Vote(v, w.nodes[s].authEpoch, s) in w.votes
    && Ack(v, s, w.nodes[s].authEpoch) !in w.net
  }

  /** The counter of `s` is the number of distinct masters whose votes it has counted. */
  ghost predicate CounterOk(voters: set<NodeId>, w: World, s: NodeId)
    requires s in w.nodes && s in w.counted
  {
    && w.nodes[s].authEpoch <= w.nodes[s].currentEpoch
    && w.nodes[s].authCount == |w.counted[s]|
    && (!w.nodes[s].authSent ==> w.counted[s] == {})
    && forall v | v in w.counted[s] :: CountedVote(voters, w, s, v)
  }

  ghost predicate CountedOk(voters: set<NodeId>, w: World) {
    && w.counted.Keys == w.nodes.Keys
    && forall s | s in w.nodes :: CounterOk(voters, w, s)
  }

  ghost predicate AllVotedFor(votes: set<Vote>, q: set<NodeId>, epoch: nat, slave: NodeId) {
    forall v | v in q :: Vote(v, epoch, slave) in votes
  }

  /** A majority of the masters voted for the slave in that epoch. */
  ghost predicate Backed(voters: set<NodeId>, w: World, epoch: nat, slave: NodeId) {
    exists q: set<NodeId> :: q <= voters && |q| >= |voters| / 2 + 1 && AllVotedFor(w.votes, q, epoch, slave)
  }

  ghost predicate Inv(voters: set<NodeId>, w: World) {
    && voters <= w.nodes.Keys
    && VotesOk(voters, w)
    && NetOk(w)
    && CountedOk(voters, w)
    && forall x | x in w.wins :: Backed(voters, w, x.0, x.1)
  }

  lemma InitInv(voters: set<NodeId>, w: World)
    requires Init(voters, w)
    ensures Inv(voters, w)
  {
  }

  /** The same nodes, with no vote forgotten and no epoch lowered. */
  ghost predicate Later(w: World, w': World) {
    && w'.nodes.Keys == w.nodes.Keys
    && forall n | n in w.nodes ::
         && w.nodes[n].currentEpoch <= w'.nodes[n].currentEpoch
         && w.nodes[n].authEpoch <= w'.nodes[n].authEpoch
         && w.nodes[n].lastVoteEpoch == w'.nodes[n].lastVoteEpoch
  }

  lemma VotesOkLater(voters: set<NodeId>, w: World, w': World)
    requires VotesOk(voters, w) && Later(w, w') && w'.votes == w.votes
    ensures VotesOk(voters, w')
  {
  }

  lemma NetOkLater(w: World, w': World)
    requires NetOk(w) && Later(w, w') && w'.votes == w.votes && w'.net <= w.net
    ensures NetOk(w')
  {
    forall m | m in w'.net
      ensures m in w.net && (w.net[m] == 1 ==> w'.net[m] == 1)
    {
    }
  }

  /** A node whose election state has not changed keeps a right counter. */
  lemma CounterOkLater(voters: set<NodeId>, w: World, w': World, s: NodeId)
    requires s in w.nodes && s in w.counted && CounterOk(voters, w, s)
    requires s in w'.nodes && s in w'.counted && w'.counted[s] == w.counted[s]
    requires w'.nodes[s].authEpoch == w.nodes[s].authEpoch && w'.nodes[s].currentEpoch >= w.nodes[s].currentEpoch
    requires w'.nodes[s].authCount == w.nodes[s].authCount && w'.nodes[s].authSent == w.nodes[s].authSent
    requires w.votes <= w'.votes && forall m | m in w'.net && m.Ack? :: m in w.net
    ensures CounterOk(voters, w', s)
  {
    forall v | v in w'.counted[s]
      ensures CountedVote(voters, w', s, v)
    {
      assert CountedVote(voters, w, s, v);
    }
  }

  /** No node has started, reset or counted anything. */
  ghost predicate SameElections(w: World, w': World) {
    && w'.nodes.Keys == w.nodes.Keys && w'.counted == w.counted
    && forall n | n in w.nodes ::
         && w'.nodes[n].authEpoch == w.nodes[n].authEpoch
         && w'.nodes[n].authCount == w.nodes[n].authCount
         && w'.nodes[n].authSent == w.nodes[n].authSent
  }

  lemma CountedOkLater(voters: set<NodeId>, w: World, w': World)
    requires CountedOk(voters, w) && Later(w, w') && SameElections(w, w')
    requires w.votes <= w'.votes && forall m | m in w'.net && m.Ack? :: m in w.net
    ensures CountedOk(voters, w')
  {
    hide CounterOk;
    forall t | t in w'.nodes
      ensures CounterOk(voters, w', t)
    {
      CounterOkLater(voters, w, w', t);
    }
  }

  lemma ScheduleKeepsCounted(voters: set<NodeId>, w: World, s: NodeId)
    requires CountedOk(voters, w) && s in w.nodes
    ensures CountedOk(voters, SetNode(w, s, Scheduled(w.nodes[s])).(counted := w.counted[s := {}]))
  {
    var w' := SetNode(w, s, Scheduled(w.nodes[s])).(counted := w.counted[s := {}]);
    forall t | t in w'.nodes
      ensures CounterOk(voters, w', t)
    {
      assert CounterOk(voters, w, t);
      hide CounterOk;
      if t == s {
        FreshCounter(voters, w, w', s);
      } else {
        CounterOkLater(voters, w, w', t);
      }
    }
  }

  lemma ScheduleKeeps(voters: set<NodeId>, w: World, s: NodeId)
    requires Inv(voters, w) && Enabled(voters, w, Schedule(s))
    ensures Inv(voters, Next(voters, w, Schedule(s)))
  {
    hide VotesOk, NetOk, CountedOk, Backed;
    ScheduleKeepsCounted(voters, w, s);
    var w' := Next(voters, w, Schedule(s));
    assert Later(w, w');
    VotesOkLater(voters, w, w');
    NetOkLater(w, w');
    BackedKept(voters, w, w');
  }

  lemma FreshCounter(voters: set<NodeId>, w: World, w': World, s: NodeId)
    requires s in w.nodes && s in w.counted && CounterOk(voters, w, s)
    requires s in w'.nodes && s in w'.counted && w'.counted[s] == {} && w'.nodes[s].authCount == 0
    requires w'.nodes[s] == Scheduled(w.nodes[s]) || w'.nodes[s] == Requested(w.nodes[s])
    ensures CounterOk(voters, w', s)
  {
  }

  lemma BackedKept(voters: set<NodeId>, w: World, w': World)
    requires w.votes <= w'.votes && forall x | x in w.wins :: Backed(voters, w, x.0, x.1)
    ensures forall x | x in w.wins :: Backed(voters, w', x.0, x.1)
  {
    forall x | x in w.wins
      ensures Backed(voters, w', x.0, x.1)
    {
      var q: set<NodeId> :| q <= voters && |q| >= |voters| / 2 + 1 && AllVotedFor(w.votes, q, x.0, x.1);
      assert AllVotedFor(w'.votes, q, x.0, x.1);
    }
  }

  lemma StartKeepsNet(voters: set<NodeId>, w: World, s: NodeId)
    requires NetOk(w) && Enabled(voters, w, Start(s)) && w.nodes[s].authEpoch <= w.nodes[s].currentEpoch
    ensures NetOk(Next(voters, w, Start(s)))
  {
    var w' := Next(voters, w, Start(s));
    var r := Requests(s, voters, w'.nodes[s].currentEpoch);
    assert forall m :: w'.net[m] == w.net[m] + Digit(m in r);
  }

  lemma StartKeepsCounted(voters: set<NodeId>, w: World, s: NodeId)
    requires CountedOk(voters, w) && Enabled(voters, w, Start(s))
    ensures CountedOk(voters, Next(voters, w, Start(s)))
  {
    var w' := Next(voters, w, Start(s));
    var r := Requests(s, voters, w'.nodes[s].currentEpoch);
    assert forall m :: m in w'.net ==> m in w.net || m in r;
    forall t | t in w'.nodes
      ensures CounterOk(voters, w', t)
    {
      assert CounterOk(voters, w, t);
      if t == s {
        FreshCounter(voters, w, w', s);
      } else {
        hide CounterOk;
        CounterOkLater(voters, w, w', t);
      }
    }
  }

  lemma StartKeeps(voters: set<NodeId>, w: World, s: NodeId)
    requires Inv(voters, w) && Enabled(voters, w, Start(s))
    ensures Inv(voters, Next(voters, w, Start(s)))
  {
    hide VotesOk, NetOk, CountedOk, Backed;
    StartBound(voters, w, s);
    StartKeepsCounted(voters, w, s);
    StartKeepsNet(voters, w, s);
    var w' := Next(voters, w, Start(s));
    assert Later(w, w');
    VotesOkLater(voters, w, w');
    BackedKept(voters, w, w');
  }

  lemma StartBound(voters: set<NodeId>, w: World, s: NodeId)
    requires CountedOk(voters, w) && s in w.nodes
    ensures w.nodes[s].authEpoch <= w.nodes[s].currentEpoch
  {
    assert CounterOk(voters, w, s);
  }

  lemma CountedVotedFor(voters: set<NodeId>, w: World, s: NodeId)
    requires CountedOk(voters, w) && s in w.nodes
    ensures w.counted[s] <= voters && w.nodes[s].authCount == |w.counted[s]|
    ensures AllVotedFor(w.votes, w.counted[s], w.nodes[s].authEpoch, s)
  {
  }

  lemma WinKeeps(voters: set<NodeId>, w: World, s: NodeId)
    requires Inv(voters, w) && Enabled(voters, w, Win(s))
    ensures Inv(voters, Next(voters, w, Win(s)))
  {
    hide VotesOk, NetOk, CountedOk, AllVotedFor;
    var w' := Next(voters, w, Win(s));
    assert Later(w, w') && SameElections(w, w');
    VotesOkLater(voters, w, w');
    NetOkLater(w, w');
    CountedOkLater(voters, w, w');
    BackedKept(voters, w, w');
    CountedVotedFor(voters, w, s);
    assert Backed(voters, w', w.nodes[s].authEpoch, s);
  }

  lemma DropKeeps(voters: set<NodeId>, w: World, m: Msg)
    requires Inv(voters, w) && m in w.net
    ensures Inv(voters, w.(net := w.net - multiset{m}))
  {
    var w' := w.(net := w.net - multiset{m});
    hide VotesOk, NetOk, CountedOk, Backed;
    assert Later(w, w') && SameElections(w, w');
    VotesOkLater(voters, w, w');
    NetOkLater(w, w');
    BackedKept(voters, w, w');
    CountedOkLater(voters, w, w');
  }

  lemma SawEpochLater(w: World, n: NodeId, epoch: nat)
    requires n in w.nodes
    ensures var w' := SetNode(w, n, SawEpoch(w.nodes[n], epoch)); Later(w, w') && SameElections(w, w')
  {
  }

  lemma SawEpochKeeps(voters: set<NodeId>, w: World, n: NodeId, epoch: nat)
    requires Inv(voters, w) && n in w.nodes
    ensures Inv(voters, SetNode(w, n, SawEpoch(w.nodes[n], epoch)))
  {
    hide VotesOk, NetOk, CountedOk, Backed;
    var w' := SetNode(w, n, SawEpoch(w.nodes[n], epoch));
    SawEpochLater(w, n, epoch);
    hide Later, SameElections;
    VotesOkLater(voters, w, w');
    NetOkLater(w, w');
    BackedKept(voters, w, w');
    CountedOkLater(voters, w, w');
  }

  lemma SendKeeps(voters: set<NodeId>, w: World, from: NodeId, to: NodeId)
    requires Inv(voters, w) && Enabled(voters, w, Send(from, to))
    ensures Inv(voters, Next(voters, w, Send(from, to)))
  {
    hide VotesOk, NetOk, CountedOk, Backed;
    var w' := Next(voters, w, Send(from, to));
    assert Later(w, w') && SameElections(w, w');
    VotesOkLater(voters, w, w');
    SendKeepsNet(voters, w, from, to);
    CountedOkLater(voters, w, w');
    BackedKept(voters, w, w');
  }

  lemma SendKeepsNet(voters: set<NodeId>, w: World, from: NodeId, to: NodeId)
    requires NetOk(w) && Enabled(voters, w, Send(from, to))
    ensures NetOk(Next(voters, w, Send(from, to)))
  {
  }

  /** The world after `v` has voted for `s`. */
  function AfterVote(w: World, v: NodeId, s: NodeId): World
    requires v in w.nodes
  {
    var e := w.nodes[v].currentEpoch;
    SetNode(w, v, Voted(w.nodes[v])).(
      net := w.net + multiset{Ack(v, s, e)}, votes := w.votes + {Vote(v, e, s)})
  }

  /** A vote is the first of its voter in that epoch, because `lastVoteEpoch` is the greatest so far. */
  lemma VoteIsFirst(voters: set<NodeId>, w: World, v: NodeId, s: NodeId)
    requires VotesOk(voters, w) && NetOk(w) && v in w.nodes && w.nodes[v].lastVoteEpoch != w.nodes[v].currentEpoch
    ensures forall x | x in w.votes && x.voter == v :: x.epoch < w.nodes[v].currentEpoch
    ensures Ack(v, s, w.nodes[v].currentEpoch) !in w.net
  {
    var e := w.nodes[v].currentEpoch;
    assert Ack(v, s, e) in w.net ==> Vote(v, e, s) in w.votes;
  }

  lemma VoteKeepsVotes(voters: set<NodeId>, w: World, v: NodeId, s: NodeId)
    requires VotesOk(voters, w) && v in voters && v in w.nodes && s in w.nodes
    requires w.nodes[v].currentEpoch <= w.nodes[s].authEpoch
    requires forall x | x in w.votes && x.voter == v :: x.epoch < w.nodes[v].currentEpoch
    ensures VotesOk(voters, AfterVote(w, v, s))
  {
  }

  lemma VoteKeepsNet(w: World, v: NodeId, s: NodeId)
    requires NetOk(w) && v in w.nodes && Ack(v, s, w.nodes[v].currentEpoch) !in w.net
    ensures NetOk(AfterVote(w, v, s))
  {
  }

  lemma VoteKeepsCounted(voters: set<NodeId>, w: World, v: NodeId, s: NodeId)
    requires CountedOk(voters, w) && v in w.nodes
    requires forall x | x in w.votes && x.voter == v :: x.epoch < w.nodes[v].currentEpoch
    ensures CountedOk(voters, AfterVote(w, v, s))
  {
    var w' := AfterVote(w, v, s);
    forall t | t in w'.nodes
      ensures CounterOk(voters, w', t)
    {
      assert CounterOk(voters, w, t);
      forall u | u in w'.counted[t]
        ensures CountedVote(voters, w', t, u)
      {
        assert CountedVote(voters, w, t, u);
        assert Vote(u, w.nodes[t].authEpoch, t) in w.votes;
      }
    }
  }

  lemma VoteKeeps(voters: set<NodeId>, w: World, v: NodeId, s: NodeId)
    requires Inv(voters, w) && v in voters && v in w.nodes && s in w.nodes
    requires w.nodes[v].lastVoteEpoch != w.nodes[v].currentEpoch
    requires w.nodes[v].currentEpoch <= w.nodes[s].authEpoch
    ensures Inv(voters, AfterVote(w, v, s))
  {
    hide VotesOk, NetOk, CountedOk, Backed;
    VoteIsFirst(voters, w, v, s);
    VoteKeepsVotes(voters, w, v, s);
    VoteKeepsNet(w, v, s);
    VoteKeepsCounted(voters, w, v, s);
    BackedKept(voters, w, AfterVote(w, v, s));
  }

  /** The world after slave `m.to` has counted the ACK `m`. */
  function AfterCount(w: World, m: Msg): World
    requires m.to in w.nodes && m.to in w.counted
  {
    SetNode(w, m.to, CountAck(w.nodes[m.to], m.epoch)).(
      net := w.net - multiset{m}, counted := w.counted[m.to := w.counted[m.to] + {m.from}])
  }

  /** A counted ACK is of the current election, from a master not counted before in it. */
  lemma CountIsNew(voters: set<NodeId>, w: World, m: Msg)
    requires VotesOk(voters, w) && NetOk(w) && CountedOk(voters, w)
    requires m.Ack? && m in w.net && m.to in w.nodes && m.epoch >= w.nodes[m.to].authEpoch
    ensures m.epoch == w.nodes[m.to].authEpoch && Vote(m.from, m.epoch, m.to) in w.votes
    ensures m.from !in w.counted[m.to] && w.net[m] == 1
  {
    assert Vote(m.from, m.epoch, m.to) in w.votes;
    assert m == Ack(m.from, m.to, w.nodes[m.to].authEpoch);
    assert CounterOk(voters, w, m.to);
    assert m.from in w.counted[m.to] ==> CountedVote(voters, w, m.to, m.from);
  }

  lemma CountKeepsCounted(voters: set<NodeId>, w: World, m: Msg)
    requires CountedOk(voters, w) && m.Ack? && m.to in w.nodes && m.from in voters
    requires m.epoch == w.nodes[m.to].authEpoch && Vote(m.from, m.epoch, m.to) in w.votes
    requires m.from !in w.counted[m.to] && w.net[m] == 1 && w.nodes[m.to].authSent
    ensures CountedOk(voters, AfterCount(w, m))
  {
    var w' := AfterCount(w, m);
    assert |w'.counted[m.to]| == |w.counted[m.to]| + 1;
    forall t | t in w'.nodes
      ensures CounterOk(voters, w', t)
    {
      assert CounterOk(voters, w, t);
      forall u | u in w'.counted[t]
        ensures CountedVote(voters, w', t, u)
      {
        if t == m.to && u == m.from {
          assert m == Ack(u, t, w'.nodes[t].authEpoch);
        } else {
          assert CountedVote(voters, w, t, u);
        }
      }
    }
  }

  lemma CountKeepsVotes(voters: set<NodeId>, w: World, m: Msg)
    requires VotesOk(voters, w) && m.to in w.nodes && m.to in w.counted
    ensures VotesOk(voters, AfterCount(w, m))
  {
    var w' := AfterCount(w, m);
    assert forall n | n in w.nodes ::
        && w'.nodes[n].authEpoch == w.nodes[n].authEpoch && w'.nodes[n].currentEpoch == w.nodes[n].currentEpoch
        && w'.nodes[n].lastVoteEpoch == w.nodes[n].lastVoteEpoch;
  }

  lemma CountKeepsNet(w: World, m: Msg)
    requires NetOk(w) && m.to in w.nodes && m.to in w.counted
    ensures NetOk(AfterCount(w, m))
  {
  }

  lemma CountKeeps(voters: set<NodeId>, w: World, m: Msg)
    requires Inv(voters, w) && m.Ack? && m in w.net && m.to in w.nodes && m.to in w.counted && m.from in voters
    requires m.epoch >= w.nodes[m.to].authEpoch && w.nodes[m.to].authSent
    ensures Inv(voters, AfterCount(w, m))
  {
    var w' := AfterCount(w, m);
    hide VotesOk, NetOk, CountedOk, Backed;
    CountIsNew(voters, w, m);
    CountKeepsVotes(voters, w, m);
    CountKeepsNet(w, m);
    CountKeepsCounted(voters, w, m);
    BackedKept(voters, w, w');
  }

  // --- Every step, every run ---

  lemma DeliverRequestKeeps(voters: set<NodeId>, w: World, m: Msg, willing: bool)
    requires Inv(voters, w) && m.Request? && m in w.net && m.to in w.nodes
    ensures Inv(voters, DeliverRequest(voters, w, m, willing))
  {
    assert m.from in w.nodes && m.epoch <= w.nodes[m.from].authEpoch;
    assert forall n | n in w.nodes :: w.nodes[n].authEpoch <= w.nodes[n].currentEpoch;
    hide Inv;
    SawEpochKeeps(voters, w, m.to, m.epoch);
    var w0 := SetNode(w, m.to, SawEpoch(w.nodes[m.to], m.epoch));
    DropKeeps(voters, w0, m);
    var w1 := w0.(net := w.net - multiset{m});
    if m.to in voters && Grants(w1.nodes[m.to], m.epoch, willing) {
      VoteKeeps(voters, w1, m.to, m.from);
    }
  }

  lemma DeliverAckKeeps(voters: set<NodeId>, w: World, m: Msg)
    requires Inv(voters, w) && m.Ack? && m in w.net && m.to in w.nodes && m.to in w.counted
    requires w.nodes[m.to].authSent || m.epoch < w.nodes[m.to].authEpoch
    ensures Inv(voters, DeliverAck(voters, w, m))
  {
    hide Inv;
    SawEpochKeeps(voters, w, m.to, m.epoch);
    var w0 := SetNode(w, m.to, SawEpoch(w.nodes[m.to], m.epoch));
    DropKeeps(voters, w0, m);
    if m.from in voters && m.epoch >= w0.nodes[m.to].authEpoch {
      CountKeeps(voters, w0, m);
      assert DeliverAck(voters, w, m) == AfterCount(w0, m);
    } else {
      assert DeliverAck(voters, w, m) == w0.(net := w.net - multiset{m});
    }
  }

  lemma StepKeeps(voters: set<NodeId>, w: World, a: Action)
    requires Inv(voters, w) && Enabled(voters, w, a) && NotStale(w, a)
    ensures Inv(voters, Next(voters, w, a))
  {
    hide Inv;
    match a
    case Schedule(s) => ScheduleKeeps(voters, w, s);
    case Start(s) => StartKeeps(voters, w, s);
    case Win(s) => WinKeeps(voters, w, s);
    case Send(from, to) => SendKeeps(voters, w, from, to);
    case Lose(m) => DropKeeps(voters, w, m);
    case Deliver(m, willing) =>
      match m
      case Request(_, _, _) => DeliverRequestKeeps(voters, w, m, willing);
      case Ack(_, _, _) => DeliverAckKeeps(voters, w, m);
      case Other(_, to, epoch) =>
        SawEpochKeeps(voters, w, to, epoch);
        DropKeeps(voters, SetNode(w, to, SawEpoch(w.nodes[to], epoch)), m);
  }

  /** A run: the worlds before and after each action. */
  ghost predicate Run(voters: set<NodeId>, worlds: seq<World>, actions: seq<Action>) {
    && |worlds| == |actions| + 1
    && Init(voters, worlds[0])
    && forall i | 0 <= i < |actions| ::
         Enabled(voters, worlds[i], actions[i]) && worlds[i + 1] == Next(voters, worlds[i], actions[i])
  }

  lemma {:induction false} RunKeeps(voters: set<NodeId>, worlds: seq<World>, actions: seq<Action>, i: nat)
    requires Run(voters, worlds, actions) && i <= |actions|
    requires forall j | 0 <= j < |actions| :: NotStale(worlds[j], actions[j])
    ensures Inv(voters, worlds[i])
  {
    hide Inv, Next, Enabled, NotStale;
    if i == 0 {
      InitInv(voters, worlds[0]);
    } else {
      RunKeeps(voters, worlds, actions, i - 1);
      assert worlds[i - 1 + 1] == Next(voters, worlds[i - 1], actions[i - 1]);
      StepKeeps(voters, worlds[i - 1], actions[i - 1]);
    }
  }

  /** Two majorities of the same set have a member in common. */
  lemma MajoritiesMeet(voters: set<NodeId>, q: set<NodeId>, r: set<NodeId>) returns (v: NodeId)
    requires q <= voters && r <= voters && |q| >= |voters| / 2 + 1 && |r| >= |voters| / 2 + 1
    ensures v in q && v in r
  {
    if q * r == {} {
      assert |q + r| == |q| + |r|;
      SubsetSize(q + r, voters);
    }
    v :| v in q * r;
  }

  lemma {:induction false} SubsetSize(a: set<NodeId>, b: set<NodeId>)
    requires a <= b
    ensures |a| <= |b|
  {
    if a != {} {
      var x :| x in a;
      SubsetSize(a - {x}, b - {x});
    }
  }

  /** Election safety: no two slaves ever win an election in the same epoch. */
  lemma OneWinnerPerEpoch(
    voters: set<NodeId>, worlds: seq<World>, actions: seq<Action>, i: nat, epoch: nat, s: NodeId, t: NodeId)
    requires Run(voters, worlds, actions) && i <= |actions|
    requires forall j | 0 <= j < |actions| :: NotStale(worlds[j], actions[j])
    requires (epoch, s) in worlds[i].wins && (epoch, t) in worlds[i].wins
    ensures s == t
  {
    RunKeeps(voters, worlds, actions, i);
    SameWinner(voters, worlds[i], epoch, s, t);
  }

  /** In every run, a master votes for one slave only in each epoch. */
  lemma OneVotePerEpoch(voters: set<NodeId>, worlds: seq<World>, actions: seq<Action>, i: nat, x: Vote, y: Vote)
    requires Run(voters, worlds, actions) && i <= |actions|
    requires forall j | 0 <= j < |actions| :: NotStale(worlds[j], actions[j])
    requires x in worlds[i].votes && y in worlds[i].votes && x.voter == y.voter && x.epoch == y.epoch
    ensures x.slave == y.slave
  {
    hide NotStale, Next, Enabled, NetOk, CountedOk, Backed;
    RunKeeps(voters, worlds, actions, i);
  }

  /** In every run, the counter of a slave is the number of different masters that voted for it in its election. */
  lemma CountsDistinctVoters(voters: set<NodeId>, worlds: seq<World>, actions: seq<Action>, i: nat, s: NodeId)
    requires Run(voters, worlds, actions) && i <= |actions| && s in worlds[i].nodes
    requires forall j | 0 <= j < |actions| :: NotStale(worlds[j], actions[j])
    ensures s in worlds[i].counted && worlds[i].counted[s] <= voters
    ensures worlds[i].nodes[s].authCount == |worlds[i].counted[s]|
    ensures AllVotedFor(worlds[i].votes, worlds[i].counted[s], worlds[i].nodes[s].authEpoch, s)
  {
    hide NotStale, Next, Enabled, VotesOk, NetOk, Backed, AllVotedFor;
    RunKeeps(voters, worlds, actions, i);
    CountedVotedFor(voters, worlds[i], s);
  }

  lemma SameWinner(voters: set<NodeId>, w: World, epoch: nat, s: NodeId, t: NodeId)
    requires Inv(voters, w) && (epoch, s) in w.wins && (epoch, t) in w.wins
    ensures s == t
  {
    assert Backed(voters, w, (epoch, s).0, (epoch, s).1) && Backed(voters, w, (epoch, t).0, (epoch, t).1);
    var q: set<NodeId> :| q <= voters && |q| >= |voters| / 2 + 1 && AllVotedFor(w.votes, q, epoch, s);
    var r: set<NodeId> :| r <= voters && |r| >= |voters| / 2 + 1 && AllVotedFor(w.votes, r, epoch, t);
    var v := MajoritiesMeet(voters, q, r);
    assert Vote(v, epoch, s) in w.votes && Vote(v, epoch, t) in w.votes;
  }

  // --- Stale ACKs ---

  function VotesFor(votes: set<Vote>, s: NodeId, epoch: nat): set<Vote> {
    set x | x in votes && x.slave == s && x.epoch == epoch
  }

  /**
   `NotStale` is needed. When an ACK arrives after the counter was reset and before votes
   are requested, the new election starts with a right count exactly if the ACK is older
   than the previous election of the slave.
   */
  lemma StaleAckIff(voters: set<NodeId>, w: World, m: Msg)
    requires Inv(voters, w) && m.Ack? && Enabled(voters, w, Deliver(m, true))
    requires m.to !in voters && !w.nodes[m.to].authSent
    ensures Enabled(voters, Next(voters, w, Deliver(m, true)), Start(m.to))
    ensures var w' := Next(voters, Next(voters, w, Deliver(m, true)), Start(m.to));
            w'.nodes[m.to].authCount == |VotesFor(w'.votes, m.to, w'.nodes[m.to].authEpoch)|
            <==> NotStale(w, Deliver(m, true))
  {
    assert CounterOk(voters, w, m.to);
    assert Vote(m.from, m.epoch, m.to) in w.votes;
    var w' := Next(voters, Next(voters, w, Deliver(m, true)), Start(m.to));
    assert w'.votes == w.votes;
    assert w'.nodes[m.to].authEpoch > w.nodes[m.to].authEpoch;
    assert VotesFor(w'.votes, m.to, w'.nodes[m.to].authEpoch) == {};
  }

  /** Some run leads to this world, with or without stale ACKs. */
  ghost predicate Reachable(voters: set<NodeId>, w: World) {
    exists worlds, actions :: Run(voters, worlds, actions) && worlds[|actions|] == w
  }

  lemma Extend(voters: set<NodeId>, w: World, a: Action)
    requires Reachable(voters, w) && Enabled(voters, w, a)
    ensures Reachable(voters, Next(voters, w, a))
  {
    hide Next, Enabled, Init;
    var worlds, actions :| Run(voters, worlds, actions) && worlds[|actions|] == w;
    var worlds', actions' := worlds + [Next(voters, w, a)], actions + [a];
    forall i | 0 <= i < |actions'|
      ensures Enabled(voters, worlds'[i], actions'[i]) && worlds'[i + 1] == Next(voters, worlds'[i], actions'[i])
    {
      if i < |actions| {
        assert worlds'[i] == worlds[i] && worlds'[i + 1] == worlds[i + 1] && actions'[i] == actions[i];
      }
    }
    assert Run(voters, worlds', actions') && worlds'[|actions'|] == Next(voters, w, a);
  }

  /** Slave `s` asks every master for its vote. */
  lemma Asks(voters: set<NodeId>, w: World, s: NodeId) returns (w': World)
    requires Reachable(voters, w) && Enabled(voters, w, Start(s))
    ensures Reachable(voters, w') && w'.nodes == w.nodes[s := Requested(w.nodes[s])]
    ensures w'.counted == w.counted && w'.wins == w.wins
    ensures forall v | v in voters :: Request(s, v, w.nodes[s].currentEpoch + 1) in w'.net
  {
    hide Reachable;
    Extend(voters, w, Start(s));
    w' := Next(voters, w, Start(s));
  }

  /** Slave `s` schedules a new election. */
  lemma Resets(voters: set<NodeId>, w: World, s: NodeId) returns (w': World)
    requires Reachable(voters, w) && Enabled(voters, w, Schedule(s))
    ensures Reachable(voters, w') && w'.nodes == w.nodes[s := Scheduled(w.nodes[s])]
    ensures w'.counted == w.counted[s := {}] && w'.wins == w.wins && w'.net == w.net
  {
    hide Reachable;
    Extend(voters, w, Schedule(s));
    w' := Next(voters, w, Schedule(s));
  }

  /** Master `v` votes for slave `s`. */
  lemma Elects(voters: set<NodeId>, w: World, s: NodeId, v: NodeId, epoch: nat) returns (w': World)
    requires Reachable(voters, w) && Request(s, v, epoch) in w.net && v in voters && v in w.nodes
    requires w.nodes[v].lastVoteEpoch < epoch && w.nodes[v].currentEpoch <= epoch
    ensures Reachable(voters, w') && Ack(v, s, epoch) in w'.net
    ensures w'.nodes == w.nodes[v := w.nodes[v].(currentEpoch := epoch, lastVoteEpoch := epoch)]
    ensures forall m | m in w.net && m != Request(s, v, epoch) :: m in w'.net
    ensures w'.counted == w.counted && w'.wins == w.wins
  {
    hide Reachable;
    Extend(voters, w, Deliver(Request(s, v, epoch), true));
    w' := Next(voters, w, Deliver(Request(s, v, epoch), true));
  }

  /** Slave `s` counts the vote of `v`. */
  lemma Tallies(voters: set<NodeId>, w: World, s: NodeId, v: NodeId, epoch: nat) returns (w': World)
    requires Reachable(voters, w) && Ack(v, s, epoch) in w.net && v in voters && s in w.nodes && s in w.counted
    requires w.nodes[s].currentEpoch == w.nodes[s].authEpoch == epoch
    ensures Reachable(voters, w') && w'.nodes == w.nodes[s := w.nodes[s].(authCount := w.nodes[s].authCount + 1)]
    ensures forall m | m in w.net && m != Ack(v, s, epoch) :: m in w'.net
    ensures w'.counted.Keys == w.counted.Keys && w'.wins == w.wins
  {
    hide Reachable;
    Extend(voters, w, Deliver(Ack(v, s, epoch), true));
    w' := Next(voters, w, Deliver(Ack(v, s, epoch), true));
  }

  lemma Takes(voters: set<NodeId>, w: World, s: NodeId) returns (w': World)
    requires Reachable(voters, w) && Enabled(voters, w, Win(s))
    ensures Reachable(voters, w') && w'.nodes == w.nodes && w'.counted == w.counted
    ensures w'.wins == w.wins + {(w.nodes[s].authEpoch, s)}
  {
    hide Reachable;
    Extend(voters, w, Win(s));
    w' := Next(voters, w, Win(s));
  }

  lemma ReachableInit(voters: set<NodeId>, w: World)
    requires Init(voters, w)
    ensures Reachable(voters, w)
  {
    assert Run(voters, [w], []);
  }

  lemma VotedForTwice() returns (w: World)
    ensures Reachable({0, 1, 2}, w)
    ensures w.nodes.Keys == {0, 1, 2, 3, 4} == w.counted.Keys
    ensures w.nodes[0] == w.nodes[1] == NodeState(1, 1, 0, 0, false)
    ensures w.nodes[3] == NodeState(1, 0, 1, 0, true) && w.nodes[4] == NodeState(0, 0, 0, 0, false)
    ensures Ack(0, 3, 1) in w.net && Ack(1, 3, 1) in w.net
  {
    hide Reachable;
    var voters, idle := {0, 1, 2}, NodeState(0, 0, 0, 0, false);
    w := World(
      map[0 := idle, 1 := idle, 2 := idle, 3 := idle, 4 := idle], multiset{}, {},
      map[0 := {}, 1 := {}, 2 := {}, 3 := {}, 4 := {}], {});
    ReachableInit(voters, w);
    w := Asks(voters, w, 3);
    w := Elects(voters, w, 3, 0, 1);
    w := Elects(voters, w, 3, 1, 1);
  }

  /** Slave 3 is voted for by masters 0 and 1 in epoch 1, and counts the ACKs after giving up that election. */
  lemma CountsStaleAcks() returns (w: World)
    ensures Reachable({0, 1, 2}, w)
    ensures w.nodes.Keys == {0, 1, 2, 3, 4} == w.counted.Keys
    ensures w.nodes[0] == w.nodes[1] == NodeState(1, 1, 0, 0, false)
    ensures w.nodes[3] == NodeState(1, 0, 1, 2, false) && w.nodes[4] == NodeState(0, 0, 0, 0, false)
  {
    hide Reachable;
    var voters := {0, 1, 2};
    w := VotedForTwice();
    w := Resets(voters, w, 3);
    w := Tallies(voters, w, 3, 0, 1);
    w := Tallies(voters, w, 3, 1, 1);
  }

  /** With stale ACKs two slaves can win the same epoch: 3 wins epoch 2 unelected, then 4 is elected in it. */
  lemma TwoWinnersWithStaleAcks() returns (w: World)
    ensures Reachable({0, 1, 2}, w) && (2, 3) in w.wins && (2, 4) in w.wins
  {
    hide Reachable;
    var voters := {0, 1, 2};
    w := CountsStaleAcks();
    w := Asks(voters, w, 3);
    w := Takes(voters, w, 3);
    w := Asks(voters, w, 4);
    w := Resets(voters, w, 4);
    w := Asks(voters, w, 4);
    w := Elects(voters, w, 4, 0, 2);
    w := Elects(voters, w, 4, 1, 2);
    w := Tallies(voters, w, 4, 0, 2);
    w := Tallies(voters, w, 4, 1, 2);
    w := Takes(voters, w, 4);
  }
}
