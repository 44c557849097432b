/** Runs of one peer: any sequence of its locked sections, in the order the mutex admits them,
    and the safety properties that hold along every run. */
module RaftTrace {
  import opened RaftTypes
  import RaftRules
  import ElectionTimer
  import Quorum

  /** One locked section of the peer; the clock reading, the RPC arguments and the transport's
      outcome are the inputs it observes. */
  datatype Event =
    | RecvRequestVote(rv: RequestVoteArgs, now: int)
    | RecvAppendEntries(ae: AppendEntriesArgs, now: int)
    | VoteReplyReturns(ok: bool, vr: RequestVoteReply)
    | AppendReplyReturns(ok: bool, ar: AppendEntriesReply)
    | ElectionStarts(now: int)
    | ElectionConcludes(term: int, votes: int)
    | HeartbeatStarts(now: int)

  /** A vote cast by the peer: for `candidate` in `term`. */
  datatype Ballot = Ballot(term: int, candidate: int)

  /** Candidate ids are peer indices. */
  predicate Admissible(e: Event, n: nat) {
    e.RecvRequestVote? ==> IsPeer(e.rv.candidateId, n)
  }

  predicate AllAdmissible(evs: seq<Event>, n: nat) {
    forall i :: 0 <= i < |evs| ==> Admissible(evs[i], n)
  }

  /** The state after one event at peer `me` of a cluster of n peers. */
  function Step(s: NodeState, e: Event, me: nat, n: nat): NodeState
    requires Admissible(e, n)
  {
    match e
    case RecvRequestVote(args, now) => RaftRules.RequestVote(s, args, now, n).0
    case RecvAppendEntries(args, now) => RaftRules.AppendEntries(s, args, now).0
    case VoteReplyReturns(ok, reply) => RaftRules.OnVoteReply(s, ok, reply).0
    case AppendReplyReturns(ok, reply) => RaftRules.OnAppendReply(s, ok, reply).0
    case ElectionStarts(now) => RaftRules.StartElection(s, me, now)
    case ElectionConcludes(term, votes) => RaftRules.ConcludeElection(s, term, votes, n).0
    case HeartbeatStarts(now) => RaftRules.HeartbeatRound(s, now).0
  }

  /** The vote an event casts, if any: a granted request, or the candidate's vote for itself. */
  function Cast(s: NodeState, e: Event, me: nat, n: nat): seq<Ballot>
    requires Admissible(e, n)
  {
    match e
    case RecvRequestVote(args, now) =>
      if RaftRules.RequestVote(s, args, now, n).1.voteGranted then [Ballot(args.term, args.candidateId)] else []
    case ElectionStarts(now) => [Ballot(s.currentTerm + 1, me)]
    case _ => []
  }

  function Run(s: NodeState, evs: seq<Event>, me: nat, n: nat): NodeState
    requires AllAdmissible(evs, n)
    decreases |evs|
  {
    if evs == [] then s else Run(Step(s, evs[0], me, n), evs[1..], me, n)
  }

  /** Every vote cast along a run, in order. */
  function Ballots(s: NodeState, evs: seq<Event>, me: nat, n: nat): seq<Ballot>
    requires AllAdmissible(evs, n)
    decreases |evs|
  {
    if evs == [] then [] else Cast(s, evs[0], me, n) + Ballots(Step(s, evs[0], me, n), evs[1..], me, n)
  }

  /** A Candidate or Leader has voted for itself in its current term. */
  predicate SelfVoted(s: NodeState, me: nat) {
    s.state != Follower ==> s.votedFor == me
  }

  lemma StepKeepsInvariants(s: NodeState, e: Event, me: nat, n: nat)
    requires Admissible(e, n) && IsPeer(me, n) && WellFormed(s, n) && SelfVoted(s, me)
    ensures WellFormed(Step(s, e, me, n), n) && SelfVoted(Step(s, e, me, n), me)
    ensures Step(s, e, me, n).currentTerm >= s.currentTerm
    ensures Step(s, e, me, n).currentTerm == s.currentTerm && s.votedFor != NoVote ==>
              Step(s, e, me, n).votedFor == s.votedFor
  {
  }

  /** Every run keeps the peer well formed, keeps a non-Follower's vote on itself, and never
      lowers the term. */
  lemma {:induction false} RunKeepsInvariants(s: NodeState, evs: seq<Event>, me: nat, n: nat)
    requires AllAdmissible(evs, n) && IsPeer(me, n) && WellFormed(s, n) && SelfVoted(s, me)
    ensures WellFormed(Run(s, evs, me, n), n) && SelfVoted(Run(s, evs, me, n), me)
    ensures Run(s, evs, me, n).currentTerm >= s.currentTerm
    decreases |evs|
  {
    if evs != [] {
      StepKeepsInvariants(s, evs[0], me, n);
      RunKeepsInvariants(Step(s, evs[0], me, n), evs[1..], me, n);
    }
  }

  /** A vote, once cast, stays put for as long as the term does. */
  lemma {:induction false} VoteStableWithinTerm(s: NodeState, evs: seq<Event>, me: nat, n: nat)
    requires AllAdmissible(evs, n) && IsPeer(me, n) && WellFormed(s, n) && SelfVoted(s, me)
    requires s.votedFor != NoVote && Run(s, evs, me, n).currentTerm == s.currentTerm
    ensures Run(s, evs, me, n).votedFor == s.votedFor
    decreases |evs|
  {
    if evs != [] {
      var s1 := Step(s, evs[0], me, n);
      StepKeepsInvariants(s, evs[0], me, n);
      RunKeepsInvariants(s1, evs[1..], me, n);
      VoteStableWithinTerm(s1, evs[1..], me, n);
    }
  }

  /** The votes of a run agree with the vote already held: any vote cast later in the current
      term goes to the candidate the peer has already voted for. */
  lemma {:induction false} BallotsMatchVote(s: NodeState, evs: seq<Event>, me: nat, n: nat)
    requires AllAdmissible(evs, n) && IsPeer(me, n) && WellFormed(s, n) && SelfVoted(s, me)
    ensures forall b :: b in Ballots(s, evs, me, n) ==> b.term >= s.currentTerm
    ensures forall b :: b in Ballots(s, evs, me, n) && b.term == s.currentTerm && s.votedFor != NoVote ==>
              b.candidate == s.votedFor
    decreases |evs|
  {
    if evs != [] {
      var s1 := Step(s, evs[0], me, n);
      StepKeepsInvariants(s, evs[0], me, n);
      BallotsMatchVote(s1, evs[1..], me, n);
    }
  }

  /** No two ballots of the same term name different candidates. */
  predicate OnePerTerm(bs: seq<Ballot>) {
    forall i, j :: 0 <= i < j < |bs| && bs[i].term == bs[j].term ==> bs[i].candidate == bs[j].candidate
  }

  /** One vote per term along every run: two votes cast in the same term go to the same
      candidate. */
  lemma {:induction false} OneBallotPerTerm(s: NodeState, evs: seq<Event>, me: nat, n: nat)
    requires AllAdmissible(evs, n) && IsPeer(me, n) && WellFormed(s, n) && SelfVoted(s, me)
    ensures OnePerTerm(Ballots(s, evs, me, n))
    decreases |evs|
  {
    if evs != [] {
      var s1 := Step(s, evs[0], me, n);
      StepKeepsInvariants(s, evs[0], me, n);
      OneBallotPerTerm(s1, evs[1..], me, n);
      var head := Cast(s, evs[0], me, n);
      var tail := Ballots(s1, evs[1..], me, n);
      assert Ballots(s, evs, me, n) == head + tail;
      if head != [] {
        // the vote just cast is the one s1 holds, at s1's term
        assert |head| == 1 && head[0].term == s1.currentTerm && head[0].candidate == s1.votedFor;
        BallotsMatchVote(s1, evs[1..], me, n);
        forall j | 0 < j < |head + tail| && (head + tail)[0].term == (head + tail)[j].term
          ensures (head + tail)[0].candidate == (head + tail)[j].candidate
        {
          assert (head + tail)[j] == tail[j - 1];
          assert tail[j - 1] in tail;
        }
        forall i, j | 0 < i < j < |head + tail|
          ensures (head + tail)[i] == tail[i - 1] && (head + tail)[j] == tail[j - 1]
        {
        }
      }
    }
  }

  /** A peer becomes Leader only by concluding, as a Candidate, an election of its current term
      with a strict majority of the cluster's votes. */
  lemma LeaderOnlyByMajority(s: NodeState, e: Event, me: nat, n: nat)
    requires Admissible(e, n)
    requires s.state != Leader && Step(s, e, me, n).state == Leader
    ensures e.ElectionConcludes? && 2 * e.votes > n
    ensures s.state == Candidate && e.term == s.currentTerm == Step(s, e, me, n).currentTerm
  {
  }

  /** Heartbeat suppression: after a heartbeat a peer accepts at `now0`, its election poll does
      not fire until a full timeout has gone by. */
  lemma HeartbeatSuppressesElection(s: NodeState, args: AppendEntriesArgs, now0: int, now: int, timeout: int)
    requires args.term >= s.currentTerm && now0 <= now && ElectionTimer.ValidTimeout(timeout)
    ensures var last := RaftRules.AppendEntries(s, args, now0).0.lastTime;
            ElectionTimer.Fires(ElectionTimer.Interval(now, last), timeout) <==> now - now0 >= timeout
  {
    ElectionTimer.FiresIffTimeoutElapsed(now0, now, timeout);
  }

  /** Three peers, all reachable, peer 0 times out first: it wins term 1 with the votes of
      peers 1 and 2, which stay Followers of term 1. */
  lemma ThreePeerElection(t0: int, t1: int, t2: int)
    ensures var c := RaftRules.StartElection(RaftRules.Init(), 0, t0);
            var (p1, r1) := RaftRules.RequestVote(RaftRules.Init(), RequestVoteArgs(1, 0), t1, 3);
            var (p2, r2) := RaftRules.RequestVote(RaftRules.Init(), RequestVoteArgs(1, 0), t2, 3);
            var (c1, g1) := RaftRules.OnVoteReply(c, true, r1);
            var (c2, g2) := RaftRules.OnVoteReply(c1, true, r2);
            var votes := 1 + (if g1 then 1 else 0) + (if g2 then 1 else 0);
            var (c3, won) := RaftRules.ConcludeElection(c2, c.currentTerm, votes, 3);
            won && c3.state == Leader && c3.currentTerm == 1
            && p1.state == Follower && p1.currentTerm == 1 && p1.votedFor == 0
            && p2.state == Follower && p2.currentTerm == 1 && p2.votedFor == 0
  {
  }

  /** Split vote: in a cluster of four peers, two Candidates of the same term holding two
      votes each both fail the quorum test, and both stay Candidates of that term. */
  lemma SplitVoteFourPeers(a: NodeState, b: NodeState, term: int)
    requires a.state == Candidate && b.state == Candidate
    requires a.currentTerm == term && b.currentTerm == term
    ensures !Quorum.Majority(2, 4)
    ensures RaftRules.ConcludeElection(a, term, 2, 4) == (a, false)
    ensures RaftRules.ConcludeElection(b, term, 2, 4) == (b, false)
  {
  }

  /** A deposed leader of term 1 heartbeats the new leader of term 2: the heartbeat is refused
      with term 2, and the reply steps the old leader down to a Follower of term 2. */
  lemma StaleLeaderStepsDown(oldLeader: NodeState, newLeader: NodeState, now: int)
    requires oldLeader.state == Leader && oldLeader.currentTerm == 1
    requires newLeader.state == Leader && newLeader.currentTerm == 2
    ensures var (n1, reply) := RaftRules.AppendEntries(newLeader, AppendEntriesArgs(1, 0), now);
            var (o1, _) := RaftRules.OnAppendReply(oldLeader, true, reply);
            n1 == newLeader && reply == AppendEntriesReply(2, false)
            && o1.state == Follower && o1.currentTerm == 2 && o1.votedFor == NoVote
  {
  }
}
