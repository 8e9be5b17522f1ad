/** What the election achieves: when a node stands, votes, leads and follows, and that a majority is enough. */
module ElectionProgress {
  import opened Election

  /** The votes a candidate has counted after one more completion; none when it has given up for a newer term. */
  function Counted(n: NodeState, how: Completion): nat
    requires n.phase.Electing?
  {
    if how.Replied? && how.response.result then n.phase.votes + 1
    else if how.Replied? && how.response.term > n.term then 0
    else n.phase.votes
  }

  /** A candidate takes the lead in exactly the step in which it has counted more than half of the cluster. */
  lemma LeadsExactly(s: System, s': System, n: string, how: Completion)
    requires Inv(s) && CompletionStep(s, s', n, how)
    ensures s'.nodes[n].leader == n <==> 2 * Counted(s.nodes[n], how) > |s.nodes|
    ensures s'.nodes[n].leader == n || s'.nodes[n].leader == ""
    ensures s'.nodes[n].term == s.nodes[n].term
  {
    hide Inv;
    PeerCount(s, n);
    NoLeaderYet(s, n);
  }

  lemma NoLeaderYet(s: System, n: string)
    requires Inv(s) && n in s.nodes && s.nodes[n].phase.Electing?
    ensures s.nodes[n].leader == "" && n != ""
  {
    assert NodeInv(s, n);
  }

  lemma PeerCount(s: System, n: string)
    requires n in s.nodes
    ensures |Peers(s, n)| + 1 == |s.nodes|
  {
    assert s.nodes.Keys == Peers(s, n) + {n};
    assert |s.nodes| == |s.nodes.Keys|;
  }

  /** One more yes that makes a majority makes a leader. */
  lemma MajorityLeads(s: System, s': System, n: string, v: string, r: VoteResponse)
    requires Inv(s) && CompletionStep(s, s', n, Replied(v, r)) && r.result
    requires 2 * (s.nodes[n].phase.votes + 1) > |s.nodes|
    ensures s'.nodes[n].leader == n && s'.nodes[n].phase.Idle?
  {
    hide Inv;
    LeadsExactly(s, s', n, Replied(v, r));
    PeerCount(s, n);
  }

  /** A follower stands for election in exactly the tick in which it has missed `voteTimeout` health checks. */
  lemma StandsExactly(s: System, s': System, voteTimeout: int, n: string)
    requires TickStep(s, s', voteTimeout, n) && s.nodes[n].leader != n
    ensures s'.nodes[n].phase.Electing? <==> s.nodes[n].missed + 1 >= voteTimeout
    ensures s'.nodes[n].phase.Electing? ==>
      && s'.nodes[n].term == s.nodes[n].term + 1 && s'.nodes[n].leader == "" && s'.nodes[n].missed == 0
      && s'.nodes[n].phase.votes == 1 && s'.nodes[n].phase.pending == s.nodes.Keys - {n}
      && forall p | p in s.nodes && p != n :: VoteRequest(n, s.nodes[n].term + 1, p) in s'.net
    ensures s'.nodes[n].phase.Idle? ==> s'.nodes[n] == s.nodes[n].(missed := s.nodes[n].missed + 1)
  {
  }

  /** A leader's tick sends a health check to every other node and changes nothing else. */
  lemma LeaderChecks(s: System, s': System, voteTimeout: int, n: string)
    requires TickStep(s, s', voteTimeout, n) && s.nodes[n].leader == n
    ensures s'.nodes == s.nodes && forall p | p in s.nodes && p != n :: Health(n, s.nodes[n].term, p) in s'.net
  {
  }

  /** A vote is a yes exactly when its term is newer than any the voter has seen, which it then takes over. */
  lemma VotesExactly(s: System, s': System, m: Message)
    requires VoteStep(s, s', m)
    ensures var yes := m.term > s.nodes[m.to].term;
      VoteReply(m.to, m.candidate, m.term, VoteResponse(yes, s'.nodes[m.to].term)) in s'.net
    ensures m.term > s.nodes[m.to].term ==> s'.nodes[m.to].term == m.term && s'.nodes[m.to].leader == ""
    ensures m.term <= s.nodes[m.to].term ==> s'.nodes == s.nodes
  {
  }

  /** A health check that is not stale makes the node follow its sender; a stale one changes nothing. */
  lemma FollowsExactly(s: System, s': System, m: Message)
    requires HealthStep(s, s', m)
    ensures m.term >= s.nodes[m.to].term ==>
      && s'.nodes[m.to].leader == m.leader && s'.nodes[m.to].term == m.term && s'.nodes[m.to].missed == 0
    ensures m.term < s.nodes[m.to].term ==> s'.nodes == s.nodes
  {
  }

  // ---------------------------------------------------------------- a majority is enough

  /** A sequence of steps. */
  ghost predicate Path(run: seq<System>, voteTimeout: int) {
    |run| > 0 && forall i | 0 < i < |run| :: Next(run[i - 1], run[i], voteTimeout)
  }

  lemma PathStep(s: System, s': System, voteTimeout: int, step: Step, rest: seq<System>) returns (run: seq<System>)
    requires NextStep(s, s', voteTimeout, step) && Path(rest, voteTimeout) && rest[0] == s'
    ensures run == [s] + rest && Path(run, voteTimeout)
  {
    hide NextStep;
    run := [s] + rest;
    assert Next(s, s', voteTimeout);
    forall i | 0 < i < |run| ensures Next(run[i - 1], run[i], voteTimeout) {
      if i > 1 {
        assert run[i - 1] == rest[i - 2] && run[i] == rest[i - 1];
      }
    }
  }

  /** A candidate that is still asking `q`, all of them free and behind its term. */
  ghost predicate Asking(s: System, n: string, q: set<string>) {
    && Inv(s) && n in s.nodes && s.nodes[n].phase.Electing?
    && q <= s.nodes[n].phase.pending
    && forall p | p in q :: p in s.nodes && s.nodes[p].phase.Idle? && s.nodes[p].term < s.nodes[n].term
                            && VoteRequest(n, s.nodes[n].term, p) in s.net
  }

  /** One of them answers, and the answer arrives. */
  lemma AskOne(s: System, n: string, q: set<string>, p: string, voteTimeout: int) returns (s1: System, s2: System)
    requires Asking(s, n, q) && p in q
    ensures NextStep(s, s1, voteTimeout, DeliverVote(VoteRequest(n, s.nodes[n].term, p)))
    ensures CompletionStep(s1, s2, n, Replied(p, VoteResponse(true, s.nodes[n].term)))
    ensures Inv(s1) && Inv(s2) && |s1.nodes| == |s.nodes| && s1.nodes[n] == s.nodes[n]
    ensures forall x | x in q - {p} :: x in s2.nodes && s2.nodes[x] == s.nodes[x]
    ensures s.net <= s2.net && s2.nodes.Keys == s.nodes.Keys
  {
    hide Inv, OnCompletion;
    var m := VoteRequest(n, s.nodes[n].term, p);
    assert p != n;
    var voted := s.nodes[p].(term := m.term, leader := "");
    var answer := VoteResponse(true, m.term);
    s1 := System(s.nodes[p := voted], s.net + {VoteReply(p, n, m.term, answer)}, s.grants[(p, m.term) := n]);
    VoteKeepsInv(s, s1, m);
    var how := Replied(p, answer);
    s2 := s1.(nodes := s1.nodes[n := OnCompletion(n, s1.nodes[n], |Peers(s1, n)|, how)]);
    CompletionKeepsInv(s1, s2, n, how);
    SameNodes(s, s1);
  }

  lemma SameNodes(s: System, t: System)
    requires s.nodes.Keys == t.nodes.Keys
    ensures |s.nodes| == |t.nodes|
  {
    assert |s.nodes| == |s.nodes.Keys| && |t.nodes| == |t.nodes.Keys|;
  }

  lemma CompletesIs(s: System, s': System, n: string, how: Completion, voteTimeout: int)
    requires CompletionStep(s, s', n, how)
    ensures NextStep(s, s', voteTimeout, Completes(n, how)) && s'.nodes.Keys == s.nodes.Keys
  {
  }

  /** A candidate that does not lead yet goes on asking the others. */
  lemma StillAsking(s: System, s1: System, s2: System, n: string, q: set<string>, p: string)
    requires Asking(s, n, q) && p in q && s1.nodes.Keys == s.nodes.Keys && s1.nodes[n] == s.nodes[n] && Inv(s2)
    requires CompletionStep(s1, s2, n, Replied(p, VoteResponse(true, s.nodes[n].term)))
    requires 2 * (s.nodes[n].phase.votes + 1) <= |s.nodes| && q != {p}
    requires (forall x | x in q - {p} :: x in s2.nodes && s2.nodes[x] == s.nodes[x]) && s.net <= s2.net
    ensures Asking(s2, n, q - {p}) && s2.nodes[n].phase.votes == s.nodes[n].phase.votes + 1
    ensures s2.nodes[n].term == s.nodes[n].term
  {
    hide Inv;
    PeerCount(s1, n);
    SameNodes(s, s1);
    var x :| x in q - {p};
    assert x in s1.nodes[n].phase.pending - {p};
  }

  /** With enough free peers still to answer, the candidate can come to lead. */
  lemma {:induction false} CanLead(s: System, n: string, q: set<string>, voteTimeout: int) returns (run: seq<System>)
    requires Asking(s, n, q) && 2 * (s.nodes[n].phase.votes + |q|) > |s.nodes| && q != {}
    ensures Path(run, voteTimeout) && run[0] == s
    ensures var t := run[|run| - 1]; n in t.nodes && t.nodes[n].leader == n && t.nodes[n].term == s.nodes[n].term
    decreases |q|
  {
    hide Inv, NextStep, CompletionStep, Next;
    var p :| p in q;
    assert q == {p} ==> |q| == 1;
    var s1, s2 := AskOne(s, n, q, p, voteTimeout);
    var how := Replied(p, VoteResponse(true, s.nodes[n].term));
    LeadsExactly(s1, s2, n, how);
    CompletesIs(s1, s2, n, how, voteTimeout);
    SameNodes(s1, s2);
    var rest := [s2];
    if s2.nodes[n].leader != n {
      StillAsking(s, s1, s2, n, q, p);
      rest := CanLead(s2, n, q - {p}, voteTimeout);
    }
    rest := PathStep(s1, s2, voteTimeout, Completes(n, how), rest);
    run := PathStep(s, s1, voteTimeout, DeliverVote(VoteRequest(n, s.nodes[n].term, p)), rest);
  }

  /**
    A majority is enough: from any reachable state, a follower that has missed its leader and whose
    term is not behind can come to lead, if with itself the free nodes that are not ahead of it are
    more than half of the cluster, whatever the others do.
   */
  lemma MajorityIsEnough(s: System, n: string, q: set<string>, voteTimeout: int) returns (run: seq<System>)
    requires Inv(s) && n in s.nodes && s.nodes[n].phase.Idle? && s.nodes[n].leader != n
    requires s.nodes[n].missed + 1 >= voteTimeout
    requires q <= s.nodes.Keys - {n} && q != {} && 2 * (|q| + 1) > |s.nodes|
    requires forall p | p in q :: s.nodes[p].phase.Idle? && s.nodes[p].term <= s.nodes[n].term
    ensures Path(run, voteTimeout) && run[0] == s
    ensures var t := run[|run| - 1]; n in t.nodes && t.nodes[n].leader == n && t.nodes[n].term == s.nodes[n].term + 1
  {
    hide Inv, Next;
    var me := OnFollowerTick(s.nodes[n], Peers(s, n), voteTimeout);
    var s1 := System(s.nodes[n := me], s.net + (set p | p in Peers(s, n) :: VoteRequest(n, me.term, p)),
                     s.grants[(n, me.term) := n]);
    TickKeepsInv(s, s1, voteTimeout, n);
    StandsExactly(s, s1, voteTimeout, n);
    SameNodes(s, s1);
    var rest := CanLead(s1, n, q, voteTimeout);
    run := PathStep(s, s1, voteTimeout, Tick(n), rest);
  }
}
