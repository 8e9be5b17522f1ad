/**
  One cluster node as the failover goroutine sees it: the election handlers over the node's
  own fields, and the leader's health-check rounds with their list of active nodes.
 */
module ClusterNode {
  import opened Election

  /** A leader's health check: the ring signature and the nodes it considers active. */
  datatype ClusterHealth = ClusterHealth(leader: string, term: nat, signature: string, nodes: seq<string>)

  /** The outcome of one round of health checks: which peers answered. */
  type Round = map<string, bool>

  ghost function Elements<T>(s: seq<T>): set<T> {
    set x | x in s
  }

  ghost predicate Distinct<T>(s: seq<T>) {
    forall i, j | 0 <= i < j < |s| :: s[i] != s[j]
  }

  lemma {:induction false} DistinctSize<T>(s: seq<T>)
    requires Distinct(s)
    ensures |Elements(s)| == |s|
  {
    if s != [] {
      var init, last := s[..|s| - 1], s[|s| - 1];
      DistinctSize(init);
      assert s == init + [last];
      assert Elements(s) == Elements(init) + {last};
      assert last !in init;
    }
  }

  /** How many of the latest rounds in a row the peer has failed. */
  ghost function ConsecutiveFailures(rounds: seq<Round>, peer: string): nat {
    if rounds == [] then 0
    else
      var last := rounds[|rounds| - 1];
      if peer in last && last[peer] then 0
      else 1 + ConsecutiveFailures(rounds[..|rounds| - 1], peer)
  }

  lemma OneMoreRound(rounds: seq<Round>, ok: Round, peer: string)
    requires peer in ok
    ensures ConsecutiveFailures(rounds + [ok], peer) == if ok[peer] then 0 else ConsecutiveFailures(rounds, peer) + 1
  {
  }

  /** The node itself and the peers that have not failed `limit` times in a row. */
  ghost function LiveSet(self: string, peers: seq<string>, limit: int, rounds: seq<Round>): set<string> {
    {self} + set p | p in peers && ConsecutiveFailures(rounds, p) < limit
  }

  /** The whole wait for votes: completions in the order they arrive, the timer firing when they run out. */
  function AwaitVotes(self: string, n: NodeState, peerCount: nat, done: seq<Completion>): NodeState
    decreases |done|
  {
    if n.phase.Idle? then n
    else if done == [] then OnCompletion(self, n, peerCount, TimedOut)
    else AwaitVotes(self, OnCompletion(self, n, peerCount, done[0]), peerCount, done[1..])
  }

  /** Each call that is still pending completes at most once, and no other call completes. */
  ghost predicate StillPending(done: seq<Completion>, pending: set<string>) {
    && (forall c | c in done :: !c.TimedOut? ==> c.node in pending)
    && (forall i, j | 0 <= i < j < |done| ::
          !done[i].TimedOut? && !done[j].TimedOut? ==> done[i].node != done[j].node)
  }

  lemma NextPending(done: seq<Completion>, pending: set<string>)
    requires done != [] && !done[0].TimedOut? && StillPending(done, pending)
    ensures |pending - {done[0].node}| == |pending| - 1
    ensures StillPending(done[1..], pending - {done[0].node})
  {
  }

  /** The yes answers that arrive before the timer fires or a newer term is answered. */
  function YesAnswers(done: seq<Completion>, term: nat): nat {
    if done == [] || done[0].TimedOut? then 0
    else if done[0].Replied? && done[0].response.result then 1 + YesAnswers(done[1..], term)
    else if done[0].Replied? && done[0].response.term > term then 0
    else YesAnswers(done[1..], term)
  }

  lemma {:induction false} NobodyLeft(done: seq<Completion>, term: nat)
    requires StillPending(done, {})
    ensures YesAnswers(done, term) == 0
  {
    if done != [] {
      assert done[0] in done;
    }
  }

  /** The wait ends with the candidate leading exactly when its votes and the yes answers are a majority. */
  lemma {:induction false} AwaitExactly(self: string, n: NodeState, peerCount: nat, done: seq<Completion>)
    requires n.phase.Electing? && n.leader == "" && self != "" && 2 * n.phase.votes <= peerCount + 1
    requires StillPending(done, n.phase.pending)
    ensures AwaitVotes(self, n, peerCount, done).leader == self <==>
      2 * (n.phase.votes + YesAnswers(done, n.term)) > peerCount + 1
    decreases |done|
  {
    hide StillPending;
    if done != [] && !done[0].TimedOut? {
      var rest := OnCompletion(self, n, peerCount, done[0]);
      NextPending(done, n.phase.pending);
      if rest.phase.Electing? {
        AwaitExactly(self, rest, peerCount, done[1..]);
      } else if n.phase.pending - {done[0].node} == {} {
        NobodyLeft(done[1..], n.term);
      }
    }
  }

  class Cluster {
    const thisNodeName: string
    const nodes: seq<string>
    const voteTimeout: int
    const nodeFailCountLimit: int
    /** Signature of the hash ring built over a list of nodes. */
    const signature: seq<string> -> string

    var term: nat
    var leader: string
    var missed: nat
    var rehashSkipped: bool
    var failCount: map<string, nat>
    var activeNodes: seq<string>
    var ring: seq<string>
    /** Every round of health checks this node has sent. */
    ghost var rounds: seq<Round>

    ghost predicate Valid()
      reads this
    {
      && thisNodeName !in nodes && Distinct(nodes) && |nodes| >= 2
      && (forall p | p in nodes :: p in failCount && failCount[p] == ConsecutiveFailures(rounds, p))
      && Distinct(activeNodes) && Elements(activeNodes) <= Elements(nodes) + {thisNodeName}
    }

    /** The list of active nodes is exactly the set of live nodes. */
    ghost predicate ActiveExact()
      reads this
    {
      Elements(activeNodes) == LiveSet(thisNodeName, nodes, nodeFailCountLimit, rounds)
    }

    function State(): NodeState
      reads this
    {
      NodeState(term, leader, missed, Idle)
    }

    ghost function Peers(): set<string> {
      Elements(nodes)
    }

    /** Failover starts on the assumption that all nodes are alive. */
    constructor (self: string, peers: seq<string>, voteTimeout: int, limit: int, signature: seq<string> -> string)
      requires self !in peers && Distinct(peers) && |peers| >= 2
      ensures Valid() && State() == INITIAL
      ensures thisNodeName == self && nodes == peers && nodeFailCountLimit == limit
      ensures this.voteTimeout == voteTimeout && this.signature == signature
      ensures ActiveExact() <==> limit >= 1
      ensures ring == activeNodes && Elements(activeNodes) == Elements(peers) + {self}
    {
      thisNodeName, nodes, nodeFailCountLimit := self, peers, limit;
      this.voteTimeout, this.signature := voteTimeout, signature;
      term, leader, missed, rehashSkipped := 0, "", 0, false;
      failCount := map p | p in peers :: 0;
      activeNodes := peers + [self];
      ring := peers + [self];
      rounds := [];
      new;
      assert Elements(activeNodes) == Elements(peers) + {self};
      assert peers[0] in activeNodes && peers[0] != self;
    }

    /** Call every peer once; `crossed` tells whether some failure count crossed the limit. */
    method CallPeers(ok: Round) returns (crossed: bool, sent: set<Message>)
      requires Valid() && ok.Keys == Peers()
      modifies this`failCount
      ensures sent == set p | p in nodes :: Health(thisNodeName, term, p)
      ensures forall p | p in nodes ::
        p in failCount && failCount[p] == if ok[p] then 0 else old(failCount)[p] + 1
      ensures nodeFailCountLimit >= 1 ==> (crossed <==> exists p | p in nodes ::
        (old(failCount)[p] < nodeFailCountLimit) != (failCount[p] < nodeFailCountLimit))
    {
      hide ConsecutiveFailures;
      crossed, sent := false, {};
      for k := 0 to |nodes|
        invariant sent == set p | p in nodes[..k] :: Health(thisNodeName, term, p)
        invariant forall p | p in nodes :: p in failCount
        invariant forall j | 0 <= j < k ::
          failCount[nodes[j]] == if ok[nodes[j]] then 0 else old(failCount)[nodes[j]] + 1
        invariant forall j | k <= j < |nodes| :: failCount[nodes[j]] == old(failCount)[nodes[j]]
        invariant nodeFailCountLimit >= 1 ==> (crossed <==> exists j | 0 <= j < k ::
          (old(failCount)[nodes[j]] < nodeFailCountLimit) != (failCount[nodes[j]] < nodeFailCountLimit))
      {
        var node := nodes[k];
        assert nodes[..k + 1] == nodes[..k] + [node];
        sent := sent + {Health(thisNodeName, term, node)};
        if !ok[node] {
          failCount := failCount[node := failCount[node] + 1];
          if failCount[node] == nodeFailCountLimit {
            crossed := true;
          }
        } else {
          if failCount[node] >= nodeFailCountLimit {
            crossed := true;
          }
          failCount := failCount[node := 0];
        }
      }
      assert nodes[..|nodes|] == nodes;
    }

    /** This node and the peers below the failure limit. */
    method BelowLimit() returns (live: seq<string>)
      requires thisNodeName !in nodes && Distinct(nodes)
      requires forall p | p in nodes :: p in failCount
      ensures Distinct(live)
      ensures Elements(live) == {thisNodeName} + set p | p in nodes && failCount[p] < nodeFailCountLimit
    {
      live := [thisNodeName];
      for k := 0 to |nodes|
        invariant Distinct(live)
        invariant Elements(live) ==
          {thisNodeName} + set p | p in nodes[..k] && failCount[p] < nodeFailCountLimit
      {
        assert nodes[..k + 1] == nodes[..k] + [nodes[k]];
        assert nodes[k] !in Elements(live);
        if failCount[nodes[k]] < nodeFailCountLimit {
          assert Elements(live + [nodes[k]]) == Elements(live) + {nodes[k]};
          live := live + [nodes[k]];
        }
      }
      assert nodes[..|nodes|] == nodes;
    }

    /**
      One round of health checks; `ok` says which calls succeed. Rehashing happens exactly
      when the set of live nodes changes, and leaves the active list equal to that set.
     */
    method SendHealthChecks(ok: Round) returns (rehash: bool, sent: set<Message>)
      requires Valid() && ok.Keys == Peers()
      modifies this`failCount, this`activeNodes, this`ring, this`rounds
      ensures Valid() && rounds == old(rounds) + [ok]
      ensures sent == set p | p in nodes :: Health(thisNodeName, term, p)
      ensures nodeFailCountLimit >= 1 ==>
        (rehash <==> LiveSet(thisNodeName, nodes, nodeFailCountLimit, rounds)
                     != LiveSet(thisNodeName, nodes, nodeFailCountLimit, old(rounds)))
      ensures nodeFailCountLimit >= 1 && old(ActiveExact()) ==> ActiveExact()
      ensures rehash ==> ActiveExact() && ring == activeNodes
      ensures !rehash ==> activeNodes == old(activeNodes) && ring == old(ring)
    {
      hide ConsecutiveFailures;
      rehash, sent := CallPeers(ok);
      forall p | p in nodes ensures failCount[p] == ConsecutiveFailures(rounds + [ok], p) {
        OneMoreRound(rounds, ok, p);
      }
      rounds := rounds + [ok];
      if rehash {
        activeNodes := BelowLimit();
        ring := activeNodes;
      }
      RehashMeansChange(this, old(failCount), old(rounds), rehash);
    }

    /** The reaction to a tick; an election is then held with `ElectLeader`. */
    method Tick() returns (heartbeat: bool, election: bool)
      requires Valid()
      modifies this`missed
      ensures Valid()
      ensures heartbeat <==> leader == thisNodeName
      ensures heartbeat ==> !election && missed == old(missed)
      ensures !heartbeat && !election ==> State() == OnFollowerTick(old(State()), Peers(), voteTimeout)
      ensures election ==> BeginElection(State(), Peers()) == OnFollowerTick(old(State()), Peers(), voteTimeout)
    {
      heartbeat, election := leader == thisNodeName, false;
      if !heartbeat {
        missed := missed + 1;
        if missed >= voteTimeout {
          missed := 0;
          election := true;
        }
      }
    }

    /** Count votes until there is a majority, all calls have completed, or the timer fires. */
    method CountVotes(done: seq<Completion>) returns (voteCount: nat)
      requires Distinct(nodes) && |nodes| >= 2 && StillPending(done, Peers())
      ensures Conclude(thisNodeName, NodeState(term, "", 0, Idle), voteCount, ExpectVotes(|nodes|))
           == AwaitVotes(thisNodeName, NodeState(term, "", 0, Electing(Peers(), 1)), |nodes|, done)
    {
      var nodeCount := |nodes|;
      var expectVotes := (nodeCount + 1) / 2 + 1;
      voteCount := 1;
      DistinctSize(nodes);
      ghost var st := NodeState(term, "", 0, Electing(Peers(), 1));
      assert done[0..] == done;
      var i, next := 0, 0;
      while i < nodeCount && voteCount < expectVotes
        invariant 0 <= next <= |done|
        invariant AwaitVotes(thisNodeName, st, nodeCount, done[next..])
               == AwaitVotes(thisNodeName, NodeState(term, "", 0, Electing(Peers(), 1)), nodeCount, done)
        invariant st.phase.Electing? <==> i < nodeCount && voteCount < expectVotes
        invariant st.phase.Electing? ==>
          && st == NodeState(term, "", 0, Electing(st.phase.pending, voteCount))
          && i + |st.phase.pending| == nodeCount
          && StillPending(done[next..], st.phase.pending)
        invariant st.phase.Idle? ==>
          st == Conclude(thisNodeName, NodeState(term, "", 0, Idle), voteCount, expectVotes)
        decreases nodeCount - i
      {
        ghost var pending := st.phase.pending;
        if next == |done| {
          st := OnCompletion(thisNodeName, st, nodeCount, TimedOut);
          i := nodeCount;
        } else {
          var call := done[next];
          assert done[next..][1..] == done[next + 1..];
          st := OnCompletion(thisNodeName, st, nodeCount, call);
          next := next + 1;
          if call.TimedOut? {
            i := nodeCount;
          } else {
            NextPending(done[next - 1..], pending);
            if call.Replied? {
              if call.response.result {
                voteCount := voteCount + 1;
              } else if term < call.response.term {
                i := nodeCount;
                voteCount := 0;
              }
            }
            i := i + 1;
          }
        }
      }
    }

    /** Stand for election in a new term: vote for oneself, ask every peer, and wait. */
    method ElectLeader(done: seq<Completion>) returns (requests: set<Message>)
      requires Valid() && StillPending(done, Peers()) && missed == 0
      modifies this`term, this`leader
      ensures Valid()
      ensures requests == set p | p in nodes :: VoteRequest(thisNodeName, term, p)
      ensures term == old(term) + 1
      ensures State() == AwaitVotes(thisNodeName, BeginElection(old(State()), Peers()), |nodes|, done)
      ensures thisNodeName != "" ==>
        (leader == thisNodeName <==> 2 * (1 + YesAnswers(done, term)) > |nodes| + 1)
    {
      term := term + 1;
      leader := "";
      requests := set p | p in nodes :: VoteRequest(thisNodeName, term, p);
      if thisNodeName != "" {
        AwaitExactly(thisNodeName, NodeState(term, "", 0, Electing(Peers(), 1)), |nodes|, done);
      }
      var voteCount := CountVotes(done);
      if voteCount >= ExpectVotes(|nodes|) {
        leader := thisNodeName;
      }
    }

    /** A health check taken from the channel. */
    method HandleHealth(health: ClusterHealth)
      requires Valid()
      modifies this`term, this`leader, this`missed, this`rehashSkipped, this`ring
      ensures Valid() && State() == OnHealth(old(State()), health.leader, health.term)
      ensures health.term < old(term) || health.signature == signature(old(ring)) ==>
        ring == old(ring) && rehashSkipped == old(rehashSkipped)
      ensures health.term >= old(term) && health.signature != signature(old(ring)) ==>
        && rehashSkipped == !old(rehashSkipped)
        && ring == if old(rehashSkipped) then health.nodes else old(ring)
    {
      if health.term < term {
        return;
      }
      if health.term > term {
        term := health.term;
        leader := health.leader;
      } else if health.leader != leader {
        leader := health.leader;
      }
      missed := 0;
      if health.signature != signature(ring) {
        if rehashSkipped {
          ring := health.nodes;
          rehashSkipped := false;
        } else {
          rehashSkipped := true;
        }
      }
    }

    /** A vote request taken from the channel. */
    method HandleVote(term: nat) returns (response: VoteResponse)
      requires Valid()
      modifies this`term, this`leader
      ensures Valid() && (State(), response) == OnVote(old(State()), term)
    {
      if this.term < term {
        this.term := term;
        leader := "";
        response := VoteResponse(true, this.term);
      } else {
        response := VoteResponse(false, this.term);
      }
    }

    /** This node is cut off with at most half of the cluster. */
    predicate IsPartitioned()
      reads this
    {
      (|nodes| + 1) / 2 >= |activeNodes|
    }
  }

  /** The rounds in which some peer crosses the failure limit are those in which the live set changes. */
  lemma RehashMeansChange(c: Cluster, before: map<string, nat>, rounds: seq<Round>, rehash: bool)
    requires forall p | p in c.nodes :: p in before && p in c.failCount
    requires forall p | p in c.nodes :: before[p] == ConsecutiveFailures(rounds, p)
    requires forall p | p in c.nodes :: c.failCount[p] == ConsecutiveFailures(c.rounds, p)
    requires c.thisNodeName !in c.nodes
    requires c.nodeFailCountLimit >= 1 ==>
      (rehash <==> exists p | p in c.nodes ::
         (before[p] < c.nodeFailCountLimit) != (c.failCount[p] < c.nodeFailCountLimit))
    ensures c.nodeFailCountLimit >= 1 ==>
      (rehash <==> LiveSet(c.thisNodeName, c.nodes, c.nodeFailCountLimit, c.rounds)
                   != LiveSet(c.thisNodeName, c.nodes, c.nodeFailCountLimit, rounds))
  {
    var now := LiveSet(c.thisNodeName, c.nodes, c.nodeFailCountLimit, c.rounds);
    var then_ := LiveSet(c.thisNodeName, c.nodes, c.nodeFailCountLimit, rounds);
    forall p | p in c.nodes ensures p in now <==> c.failCount[p] < c.nodeFailCountLimit {}
    forall p | p in c.nodes ensures p in then_ <==> before[p] < c.nodeFailCountLimit {}
  }

  /** A node is partitioned exactly when at most half of the cluster is active. */
  lemma PartitionedExactly(c: Cluster)
    requires c.Valid()
    ensures c.IsPartitioned() <==> 2 * |Elements(c.activeNodes)| <= |Elements(c.nodes) + {c.thisNodeName}|
  {
    DistinctSize(c.nodes);
    DistinctSize(c.activeNodes);
  }

  /** Two nodes of one cluster that both believe they are not partitioned share an active node. */
  lemma UnpartitionedMeet(a: Cluster, b: Cluster)
    requires a.Valid() && b.Valid()
    requires Elements(a.nodes) + {a.thisNodeName} == Elements(b.nodes) + {b.thisNodeName}
    requires !a.IsPartitioned() && !b.IsPartitioned()
    ensures Elements(a.activeNodes) * Elements(b.activeNodes) != {}
  {
    var all := Elements(a.nodes) + {a.thisNodeName};
    DistinctSize(a.nodes);
    DistinctSize(b.nodes);
    DistinctSize(a.activeNodes);
    DistinctSize(b.activeNodes);
    MajoritiesMeet(Elements(a.activeNodes), Elements(b.activeNodes), all);
  }
}
