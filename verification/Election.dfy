/**
  Leader election between the nodes of a chat cluster, as a step system.

  `NodeState` holds what one node's failover goroutine keeps in memory; the handlers
  (`OnTick`, `OnCompletion`, `OnHealth`, `OnVote`) say what one iteration of its select
  loop does to it.  `System` puts the nodes on a network whose messages may be delayed,
  lost, duplicated and reordered: a sent message stays in `net` and may be delivered any
  number of times, or never.  A vote call completes at most once, as an RPC call does.
 */
module Election {

  // ---------------------------------------------------------------- one node

  /** `Electing` is the wait inside an election: the calls not completed yet and the votes counted. */
  datatype Phase = Idle | Electing(pending: set<string>, votes: nat)

  /** `leader` is the empty string when no leader is known. */
  datatype NodeState = NodeState(term: nat, leader: string, missed: nat, phase: Phase)

  datatype VoteResponse = VoteResponse(result: bool, term: nat)

  /** How one of the asynchronous vote calls ended, or the election timer firing. */
  datatype Completion =
    | Replied(node: string, response: VoteResponse)
    | CallFailed(node: string)
    | TimedOut

  const INITIAL := NodeState(0, "", 0, Idle)

  /** Votes needed to win among `peers + 1` nodes. */
  function ExpectVotes(peers: nat): nat {
    (peers + 1) / 2 + 1
  }

  function BeginElection(n: NodeState, peers: set<string>): NodeState {
    NodeState(n.term + 1, "", 0, Electing(peers, 1))
  }

  /** A tick of a node that is not the leader: one more missed health check, then an election. */
  function OnFollowerTick(n: NodeState, peers: set<string>, voteTimeout: int): NodeState {
    if n.missed + 1 >= voteTimeout then BeginElection(n, peers) else n.(missed := n.missed + 1)
  }

  /** The end of the election: the node leads if it has collected enough votes. */
  function Conclude(self: string, n: NodeState, votes: nat, expectVotes: nat): NodeState {
    n.(leader := if votes >= expectVotes then self else n.leader, phase := Idle)
  }

  /** One turn of the loop that waits for vote calls to complete. */
  function OnCompletion(self: string, n: NodeState, peerCount: nat, c: Completion): NodeState
    requires n.phase.Electing?
  {
    match c
    case TimedOut => Conclude(self, n, n.phase.votes, ExpectVotes(peerCount))
    case CallFailed(p) => Continue(self, n, n.phase.pending - {p}, n.phase.votes, peerCount)
    case Replied(p, r) =>
      if r.result then
        Continue(self, n, n.phase.pending - {p}, n.phase.votes + 1, peerCount)
      else if n.term < r.term then
        // this node's term is behind the cluster: give up
        Conclude(self, n, 0, ExpectVotes(peerCount))
      else
        Continue(self, n, n.phase.pending - {p}, n.phase.votes, peerCount)
  }

  function Continue(self: string, n: NodeState, pending: set<string>, votes: nat, peerCount: nat): NodeState {
    if pending != {} && votes < ExpectVotes(peerCount) then
      n.(phase := Electing(pending, votes))
    else
      Conclude(self, n, votes, ExpectVotes(peerCount))
  }

  function OnHealth(n: NodeState, leader: string, term: nat): NodeState {
    if term < n.term then n
    else if term > n.term then n.(term := term, leader := leader, missed := 0)
    else n.(leader := leader, missed := 0)
  }

  /** A health check of the current term that names another leader than the one known. */
  predicate WrongLeader(n: NodeState, leader: string, term: nat) {
    term == n.term && n.leader != "" && leader != n.leader
  }

  function OnVote(n: NodeState, term: nat): (NodeState, VoteResponse) {
    if n.term < term then
      (n.(term := term, leader := ""), VoteResponse(true, term))
    else
      (n, VoteResponse(false, n.term))
  }

  // ---------------------------------------------------------------- the system

  datatype Message =
    | VoteRequest(candidate: string, term: nat, to: string)
    | VoteReply(from: string, candidate: string, term: nat, response: VoteResponse)
    | Health(leader: string, term: nat, to: string)

  /** `grants` is history: who voted for whom, in which term. A candidacy is a vote for oneself. */
  datatype System = System(
    nodes: map<string, NodeState>,
    net: set<Message>,
    grants: map<(string, nat), string>)

  datatype Step =
    | Tick(node: string)
    | Completes(node: string, how: Completion)
    | DeliverVote(request: Message)
    | DeliverHealth(health: Message)

  ghost predicate Init(s: System) {
    && "" !in s.nodes
    && (forall n | n in s.nodes :: s.nodes[n] == INITIAL)
    && s.net == {}
    && s.grants == map[]
  }

  function Peers(s: System, n: string): set<string> {
    s.nodes.Keys - {n}
  }

  ghost predicate NextStep(s: System, s': System, voteTimeout: int, step: Step) {
    match step
    case Tick(n) => TickStep(s, s', voteTimeout, n)
    case Completes(n, how) => CompletionStep(s, s', n, how)
    case DeliverVote(m) => VoteStep(s, s', m)
    case DeliverHealth(m) => HealthStep(s, s', m)
  }

  ghost predicate TickStep(s: System, s': System, voteTimeout: int, n: string) {
    && n in s.nodes
    && s.nodes[n].phase.Idle?
    && var me := s.nodes[n];
       if me.leader == n then
         s' == s.(net := s.net + set p | p in Peers(s, n) :: Health(n, me.term, p))
       else
         var me' := OnFollowerTick(me, Peers(s, n), voteTimeout);
         if me'.phase.Electing? then
           s' == System(s.nodes[n := me'],
                        s.net + (set p | p in Peers(s, n) :: VoteRequest(n, me'.term, p)),
                        s.grants[(n, me'.term) := n])
         else
           s' == s.(nodes := s.nodes[n := me'])
  }

  /** A reply ends the call it answers: its call must still be pending, and so it is counted once. */
  ghost predicate CompletionStep(s: System, s': System, n: string, how: Completion) {
    && n in s.nodes
    && s.nodes[n].phase.Electing?
    && (how.Replied? ==>
          && how.node in s.nodes[n].phase.pending
          && VoteReply(how.node, n, s.nodes[n].term, how.response) in s.net)
    && (how.CallFailed? ==> how.node in s.nodes[n].phase.pending)
    && s' == s.(nodes := s.nodes[n := OnCompletion(n, s.nodes[n], |Peers(s, n)|, how)])
  }

  ghost predicate VoteStep(s: System, s': System, m: Message) {
    && m in s.net && m.VoteRequest?
    && m.to in s.nodes
    && s.nodes[m.to].phase.Idle?
    && var (me', r) := OnVote(s.nodes[m.to], m.term);
       s' == System(s.nodes[m.to := me'],
                    s.net + {VoteReply(m.to, m.candidate, m.term, r)},
                    if r.result then s.grants[(m.to, m.term) := m.candidate] else s.grants)
  }

  ghost predicate HealthStep(s: System, s': System, m: Message) {
    && m in s.net && m.Health?
    && m.to in s.nodes
    && s.nodes[m.to].phase.Idle?
    && s' == s.(nodes := s.nodes[m.to := OnHealth(s.nodes[m.to], m.leader, m.term)])
  }

  ghost predicate Next(s: System, s': System, voteTimeout: int) {
    exists step :: NextStep(s, s', voteTimeout, step)
  }

  ghost predicate IsRun(run: seq<System>, voteTimeout: int) {
    && |run| > 0
    && Init(run[0])
    && forall i | 0 < i < |run| :: Next(run[i - 1], run[i], voteTimeout)
  }

  // ---------------------------------------------------------------- invariant

  ghost function Supporters(s: System, c: string, t: nat): set<string> {
    set v | v in s.nodes && (v, t) in s.grants && s.grants[(v, t)] == c
  }

  /** `c` has the votes of a majority of the nodes in term `t`. */
  ghost predicate Elected(s: System, c: string, t: nat) {
    && c in s.nodes
    && 2 * |Supporters(s, c, t)| > |s.nodes|
  }

  ghost predicate NodeInv(s: System, n: string)
    requires n in s.nodes
  {
    var me := s.nodes[n];
    && (me.leader != "" ==> Elected(s, me.leader, me.term))
    && (me.phase.Electing? ==>
          && me.leader == ""
          && (n, me.term) in s.grants && s.grants[(n, me.term)] == n
          && me.phase.pending <= Peers(s, n)
          && me.phase.votes <= |Supporters(s, n, me.term) - me.phase.pending|)
  }

  ghost predicate MessageInv(s: System, m: Message) {
    match m
    case VoteRequest(c, t, _) => c in s.nodes
    case VoteReply(v, c, t, r) => r.result ==> v in s.nodes && (v, t) in s.grants && s.grants[(v, t)] == c
    case Health(l, t, _) => Elected(s, l, t)
  }

  ghost predicate Inv(s: System) {
    && "" !in s.nodes
    && (forall v, t | (v, t) in s.grants :: v in s.nodes && t <= s.nodes[v].term)
    && (forall n | n in s.nodes :: NodeInv(s, n))
    && (forall m | m in s.net :: MessageInv(s, m))
  }

  /** What one step keeps whatever it does: the nodes, every grant ever made, and the order of terms. */
  ghost predicate Grows(s: System, s': System) {
    && s'.nodes.Keys == s.nodes.Keys
    && s.net <= s'.net
    && (forall k | k in s.grants :: k in s'.grants && s'.grants[k] == s.grants[k])
    && (forall n | n in s.nodes :: s.nodes[n].term <= s'.nodes[n].term)
  }

  lemma SupportersGrow(s: System, s': System, c: string, t: nat)
    requires s'.nodes.Keys == s.nodes.Keys
    requires forall k | k in s.grants :: k in s'.grants && s'.grants[k] == s.grants[k]
    ensures Supporters(s, c, t) <= Supporters(s', c, t)
    ensures |Supporters(s, c, t)| <= |Supporters(s', c, t)|
    ensures Elected(s, c, t) ==> Elected(s', c, t)
  {
    SubsetSize(Supporters(s, c, t), Supporters(s', c, t));
    assert |s.nodes| == |s.nodes.Keys| == |s'.nodes|;
  }

  lemma {:induction false} SubsetSize<T>(a: set<T>, b: set<T>)
    requires a <= b
    ensures |a| <= |b|
  {
    if x :| x in a {
      SubsetSize(a - {x}, b - {x});
    }
  }

  /** Two majorities of one set share a member. */
  lemma MajoritiesMeet<T>(a: set<T>, b: set<T>, all: set<T>)
    requires a <= all && b <= all
    requires 2 * |a| > |all| && 2 * |b| > |all|
    ensures a * b != {}
  {
    SubsetSize(a + b, all);
    assert |a + b| == |a| + |b| - |a * b|;
  }

  lemma ElectedUnique(s: System, a: string, b: string, t: nat)
    requires Elected(s, a, t) && Elected(s, b, t)
    ensures a == b
  {
    assert |s.nodes| == |s.nodes.Keys|;
    MajoritiesMeet(Supporters(s, a, t), Supporters(s, b, t), s.nodes.Keys);
    var v :| v in Supporters(s, a, t) * Supporters(s, b, t);
  }

  // ---------------------------------------------------------------- preservation

  lemma InitInv(s: System)
    requires Init(s)
    ensures Inv(s)
  {
  }

  /** The invariant of everything a step does not touch. */
  lemma FrameInv(s: System, s': System, except: set<string>)
    requires Inv(s) && Grows(s, s')
    requires forall n | n in s.nodes && n !in except :: s'.nodes[n] == s.nodes[n]
    ensures forall n | n in s.nodes && n !in except :: NodeInv(s', n)
    ensures forall m | m in s.net :: MessageInv(s', m)
  {
    forall n | n in s.nodes && n !in except ensures NodeInv(s', n) {
      var me := s.nodes[n];
      SupportersGrow(s, s', me.leader, me.term);
      SupportersGrow(s, s', n, me.term);
      if me.phase.Electing? {
        SubsetSize(Supporters(s, n, me.term) - me.phase.pending, Supporters(s', n, me.term) - me.phase.pending);
        assert Peers(s', n) == Peers(s, n);
      }
    }
    forall m | m in s.net ensures MessageInv(s', m) {
      if m.Health? {
        SupportersGrow(s, s', m.leader, m.term);
      }
    }
  }

  /** A step of node `n` keeps the invariant if `n` and the new messages and votes do. */
  lemma StepKeepsInv(s: System, s': System, n: string)
    requires Inv(s) && Grows(s, s') && n in s.nodes && NodeInv(s', n)
    requires forall x | x in s.nodes && x != n :: s'.nodes[x] == s.nodes[x]
    requires forall m | m in s'.net && m !in s.net :: MessageInv(s', m)
    requires forall v, t | (v, t) in s'.grants && (v, t) !in s.grants :: v in s'.nodes && t <= s'.nodes[v].term
    ensures Inv(s')
  {
    hide NodeInv, MessageInv;
    FrameInv(s, s', {n});
  }

  lemma LeaderTickKeepsInv(s: System, s': System, voteTimeout: int, n: string)
    requires Inv(s) && TickStep(s, s', voteTimeout, n) && s.nodes[n].leader == n
    ensures Inv(s') && Grows(s, s')
  {
  }

  lemma CandidacyKeepsInv(s: System, s': System, n: string)
    requires Inv(s) && n in s.nodes
    requires var me' := BeginElection(s.nodes[n], Peers(s, n));
             s' == System(s.nodes[n := me'],
                          s.net + (set p | p in Peers(s, n) :: VoteRequest(n, me'.term, p)),
                          s.grants[(n, me'.term) := n])
    ensures Inv(s') && Grows(s, s')
  {
    hide NodeInv;
    var me' := s'.nodes[n];
    assert Grows(s, s') by {
      assert (n, me'.term) !in s.grants;
    }
    CandidateInv(s', n, me'.term);
    assert Peers(s', n) == Peers(s, n);
    StepKeepsInv(s, s', n);
  }

  /** A node that has just stood for election has its own vote. */
  lemma CandidateInv(s: System, n: string, t: nat)
    requires n in s.nodes && (n, t) in s.grants && s.grants[(n, t)] == n
    requires s.nodes[n] == NodeState(t, "", 0, Electing(Peers(s, n), 1))
    ensures NodeInv(s, n)
  {
    SubsetSize({n}, Supporters(s, n, t) - Peers(s, n));
  }

  lemma TickKeepsInv(s: System, s': System, voteTimeout: int, n: string)
    requires Inv(s) && TickStep(s, s', voteTimeout, n)
    ensures Inv(s') && Grows(s, s')
  {
    var me := s.nodes[n];
    if me.leader == n {
      LeaderTickKeepsInv(s, s', voteTimeout, n);
    } else if OnFollowerTick(me, Peers(s, n), voteTimeout).phase.Electing? {
      CandidacyKeepsInv(s, s', n);
    } else {
      FrameInv(s, s', {n});
      SupportersGrow(s, s', me.leader, me.term);
      assert NodeInv(s, n);
      assert NodeInv(s', n);
    }
  }

  /** Enough counted votes are a majority of distinct supporters. */
  lemma ConcludeKeepsNodeInv(s: System, s': System, n: string, votes: nat, rest: set<string>)
    requires n in s.nodes && NodeInv(s, n) && s.nodes[n].phase.Electing?
    requires votes <= |Supporters(s, n, s.nodes[n].term) - rest|
    requires s' == s.(nodes := s.nodes[n := Conclude(n, s.nodes[n], votes, ExpectVotes(|Peers(s, n)|))])
    ensures NodeInv(s', n)
  {
    var t := s.nodes[n].term;
    assert Supporters(s', n, t) == Supporters(s, n, t) by { assert s'.nodes.Keys == s.nodes.Keys; }
    SubsetSize(Supporters(s, n, t) - rest, Supporters(s, n, t));
    assert s'.nodes.Keys == s.nodes.Keys == Peers(s, n) + {n};
    assert |s'.nodes| == |s'.nodes.Keys| == |Peers(s, n)| + 1;
  }

  lemma ContinueKeepsNodeInv(s: System, s': System, n: string, votes: nat, rest: set<string>)
    requires n in s.nodes && NodeInv(s, n) && s.nodes[n].phase.Electing?
    requires rest <= s.nodes[n].phase.pending
    requires votes <= |Supporters(s, n, s.nodes[n].term) - rest|
    requires s' == s.(nodes := s.nodes[n := Continue(n, s.nodes[n], rest, votes, |Peers(s, n)|)])
    ensures NodeInv(s', n)
  {
    if rest != {} && votes < ExpectVotes(|Peers(s, n)|) {
      assert s'.nodes.Keys == s.nodes.Keys;
      assert Supporters(s', n, s.nodes[n].term) == Supporters(s, n, s.nodes[n].term);
    } else {
      ConcludeKeepsNodeInv(s, s', n, votes, rest);
    }
  }

  lemma CompletionKeepsNodeInv(s: System, s': System, n: string, how: Completion)
    requires Inv(s) && CompletionStep(s, s', n, how)
    ensures NodeInv(s', n)
  {
    var me := s.nodes[n];
    var support := Supporters(s, n, me.term);
    assert NodeInv(s, n);
    if how.TimedOut? {
      ConcludeKeepsNodeInv(s, s', n, me.phase.votes, me.phase.pending);
    } else {
      var rest := me.phase.pending - {how.node};
      SubsetSize(support - me.phase.pending, support - rest);
      if how.Replied? && how.response.result {
        assert MessageInv(s, VoteReply(how.node, n, me.term, how.response));
        SubsetSize(support - me.phase.pending + {how.node}, support - rest);
        ContinueKeepsNodeInv(s, s', n, me.phase.votes + 1, rest);
      } else if how.Replied? && me.term < how.response.term {
        ConcludeKeepsNodeInv(s, s', n, 0, rest);
      } else {
        ContinueKeepsNodeInv(s, s', n, me.phase.votes, rest);
      }
    }
  }

  lemma CompletionKeepsInv(s: System, s': System, n: string, how: Completion)
    requires Inv(s) && CompletionStep(s, s', n, how)
    ensures Inv(s') && Grows(s, s')
  {
    hide NodeInv, MessageInv, OnCompletion;
    assert Grows(s, s') by { CompletionGrows(s, s', n, how); }
    CompletionKeepsNodeInv(s, s', n, how);
    StepKeepsInv(s, s', n);
  }

  lemma CompletionGrows(s: System, s': System, n: string, how: Completion)
    requires CompletionStep(s, s', n, how)
    ensures Grows(s, s')
  {
  }

  lemma VoteKeepsInv(s: System, s': System, m: Message)
    requires Inv(s) && VoteStep(s, s', m)
    ensures Inv(s') && Grows(s, s')
  {
    hide NodeInv;
    var me := s.nodes[m.to];
    assert Grows(s, s') by {
      assert m.term > me.term ==> (m.to, m.term) !in s.grants;
    }
    VotedInv(s, s', m.to);
    StepKeepsInv(s, s', m.to);
  }

  /** A node that keeps its leader in its term, or has none, and is not standing for election. */
  lemma VotedInv(s: System, s': System, n: string)
    requires n in s.nodes && NodeInv(s, n) && Grows(s, s') && s'.nodes[n].phase.Idle?
    requires s'.nodes[n].leader != "" ==>
      s'.nodes[n].leader == s.nodes[n].leader && s'.nodes[n].term == s.nodes[n].term
    ensures NodeInv(s', n)
  {
    hide Elected;
    SupportersGrow(s, s', s.nodes[n].leader, s.nodes[n].term);
  }

  lemma HealthKeepsInv(s: System, s': System, m: Message)
    requires Inv(s) && HealthStep(s, s', m)
    ensures Inv(s') && Grows(s, s')
  {
    hide NodeInv, MessageInv;
    assert Grows(s, s');
    assert NodeInv(s, m.to) && MessageInv(s, m);
    HealedInv(s, s', m);
    StepKeepsInv(s, s', m.to);
  }

  lemma HealedInv(s: System, s': System, m: Message)
    requires HealthStep(s, s', m) && Grows(s, s') && NodeInv(s, m.to) && MessageInv(s, m)
    ensures NodeInv(s', m.to)
  {
    hide Elected;
    SupportersGrow(s, s', s.nodes[m.to].leader, s.nodes[m.to].term);
    SupportersGrow(s, s', m.leader, m.term);
  }

  /** Every step keeps the invariant, never lowers a term and never changes a vote. */
  lemma NextKeepsInv(s: System, s': System, voteTimeout: int)
    requires Inv(s) && Next(s, s', voteTimeout)
    ensures Inv(s') && Grows(s, s')
  {
    var step :| NextStep(s, s', voteTimeout, step);
    match step
    case Tick(n) => TickKeepsInv(s, s', voteTimeout, n);
    case Completes(n, how) => CompletionKeepsInv(s, s', n, how);
    case DeliverVote(m) => VoteKeepsInv(s, s', m);
    case DeliverHealth(m) => HealthKeepsInv(s, s', m);
  }

  lemma {:induction false} RunInv(run: seq<System>, voteTimeout: int, i: nat)
    requires IsRun(run, voteTimeout) && i < |run|
    ensures Inv(run[i])
  {
    if i == 0 {
      InitInv(run[0]);
    } else {
      RunInv(run, voteTimeout, i - 1);
      NextKeepsInv(run[i - 1], run[i], voteTimeout);
    }
  }

  /** Between two moments of a run nothing is forgotten: terms only grow and no vote is ever changed. */
  lemma {:induction false} RunGrows(run: seq<System>, voteTimeout: int, i: nat, j: nat)
    requires IsRun(run, voteTimeout) && i <= j < |run|
    ensures Grows(run[i], run[j])
  {
    if i < j {
      RunGrows(run, voteTimeout, i, j - 1);
      RunInv(run, voteTimeout, j - 1);
      NextKeepsInv(run[j - 1], run[j], voteTimeout);
    }
  }

  // ---------------------------------------------------------------- main results

  /** `n` acts as the leader of term `t`. */
  predicate Leads(s: System, n: string, t: nat) {
    n in s.nodes && s.nodes[n].leader == n && s.nodes[n].term == t
  }

  /** In every reachable state a known leader was elected by a majority in that node's own term. */
  lemma LeaderKnowledge(run: seq<System>, voteTimeout: int, i: nat, n: string)
    requires IsRun(run, voteTimeout) && i < |run|
    requires n in run[i].nodes && run[i].nodes[n].leader != ""
    ensures Elected(run[i], run[i].nodes[n].leader, run[i].nodes[n].term)
  {
    RunInv(run, voteTimeout, i);
    assert NodeInv(run[i], n);
  }

  /**
    Election safety: whatever two nodes hold as the leader of one term, at whatever two
    moments of a run, is the same node; so no two nodes ever lead in one term.
   */
  lemma ElectionSafety(run: seq<System>, voteTimeout: int, i: nat, j: nat, a: string, b: string)
    requires IsRun(run, voteTimeout) && i < |run| && j < |run|
    requires a in run[i].nodes && b in run[j].nodes
    requires run[i].nodes[a].term == run[j].nodes[b].term
    requires run[i].nodes[a].leader != "" && run[j].nodes[b].leader != ""
    ensures run[i].nodes[a].leader == run[j].nodes[b].leader
    ensures Leads(run[i], a, run[i].nodes[a].term) && Leads(run[j], b, run[i].nodes[a].term) ==> a == b
  {
    var last := if i <= j then j else i;
    var t := run[i].nodes[a].term;
    LeaderKnowledge(run, voteTimeout, i, a);
    LeaderKnowledge(run, voteTimeout, j, b);
    RunGrows(run, voteTimeout, i, last);
    RunGrows(run, voteTimeout, j, last);
    SupportersGrow(run[i], run[last], run[i].nodes[a].leader, t);
    SupportersGrow(run[j], run[last], run[j].nodes[b].leader, t);
    ElectedUnique(run[last], run[i].nodes[a].leader, run[j].nodes[b].leader, t);
  }

  /** The branch that reports a wrong leader is never taken. */
  lemma WrongLeaderUnreachable(run: seq<System>, voteTimeout: int, i: nat, m: Message)
    requires IsRun(run, voteTimeout) && i < |run|
    requires m in run[i].net && m.Health? && m.to in run[i].nodes
    ensures Elected(run[i], m.leader, m.term)
    ensures !WrongLeader(run[i].nodes[m.to], m.leader, m.term)
  {
    var s := run[i];
    RunInv(run, voteTimeout, i);
    assert MessageInv(s, m);
    if WrongLeader(s.nodes[m.to], m.leader, m.term) {
      LeaderKnowledge(run, voteTimeout, i, m.to);
      ElectedUnique(s, m.leader, s.nodes[m.to].leader, m.term);
    }
  }

  /** A node gives at most one vote per term, in the whole run; its own candidacy is that vote. */
  lemma OneVotePerTerm(run: seq<System>, voteTimeout: int, i: nat, j: nat, v: string, t: nat)
    requires IsRun(run, voteTimeout) && i < |run| && j < |run|
    requires (v, t) in run[i].grants && (v, t) in run[j].grants
    ensures run[i].grants[(v, t)] == run[j].grants[(v, t)]
  {
    if i <= j {
      RunGrows(run, voteTimeout, i, j);
    } else {
      RunGrows(run, voteTimeout, j, i);
    }
  }
}
