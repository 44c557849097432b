/** Each locked critical section of a Raft peer as one atomic transition of its NodeState. */
module RaftRules {
  import opened RaftTypes
  import Quorum
  import ElectionTimer

  function Max(a: int, b: int): int {
    if a < b then b else a
  }

  /** The state `Make` builds: Follower at term 0 with no vote, `lastTime` left at Go's zero time. */
  function Init(): (s: NodeState)
    ensures s.state == Follower && s.currentTerm == 0 && s.votedFor == NoVote
    ensures s.lastTime == ElectionTimer.ZeroTime
    ensures forall n: nat :: WellFormed(s, n)
  {
    NodeState(Follower, 0, NoVote, ElectionTimer.ZeroTime)
  }

  /** `stepDown`: adopt a higher term as a Follower that has not voted in it. The last-contact
      time is deliberately left alone. */
  function StepDown(s: NodeState, higherTerm: int): (r: NodeState)
    ensures r.currentTerm == higherTerm && r.state == Follower && r.votedFor == NoVote
    ensures r.lastTime == s.lastTime
  {
    s.(state := Follower, currentTerm := higherTerm, votedFor := NoVote)
  }

  /** The guard `if rf.currentTerm < t { rf.stepDown(t) }` that opens every handler and every
      reply: a higher term is adopted through stepDown, any other term changes nothing. */
  function ObserveTerm(s: NodeState, t: int): (r: NodeState)
    ensures r.currentTerm == Max(s.currentTerm, t)
    ensures s.currentTerm < t ==> r == StepDown(s, t)
    ensures t <= s.currentTerm ==> r == s
  {
    if s.currentTerm < t then StepDown(s, t) else s
  }

  /** `HandleRequestVote` on a peer of a cluster of n peers: the new state and the reply. */
  function RequestVote(s: NodeState, args: RequestVoteArgs, now: int, n: nat): (r: (NodeState, RequestVoteReply))
    requires IsPeer(args.candidateId, n)
    // the term never goes back, and a higher one is adopted
    ensures r.0.currentTerm == Max(s.currentTerm, args.term)
    ensures WellFormed(s, n) ==> WellFormed(r.0, n)
    // a stale candidate is told the current term, and nothing changes
    ensures args.term < s.currentTerm ==> r == (s, RequestVoteReply(s.currentTerm, false))
    // first come, first served: a vote is granted exactly when the term is current and the
    // peer has not voted in it for anyone else
    ensures r.1.voteGranted <==>
              args.term > s.currentTerm
              || (args.term == s.currentTerm && (s.votedFor == NoVote || s.votedFor == args.candidateId))
    // a grant records the vote, refreshes the last contact and reports the candidate's term
    ensures r.1.voteGranted ==>
              r.0 == ObserveTerm(s, args.term).(votedFor := args.candidateId, lastTime := now)
              && r.1 == RequestVoteReply(args.term, true)
    // a refusal because of an earlier vote in this term writes no reply field and changes nothing
    ensures args.term == s.currentTerm && s.votedFor != NoVote && s.votedFor != args.candidateId ==>
              r == (s, ZeroVoteReply)
  {
    var s1 := ObserveTerm(s, args.term);
    if args.term < s1.currentTerm then
      (s1, RequestVoteReply(s1.currentTerm, false))
    else if s1.votedFor == NoVote || s1.votedFor == args.candidateId then
      (s1.(votedFor := args.candidateId, lastTime := now), RequestVoteReply(s1.currentTerm, true))
    else
      (s1, ZeroVoteReply)
  }

  /** `HandleAppendEntries` (a heartbeat): the new state and the reply. */
  function AppendEntries(s: NodeState, args: AppendEntriesArgs, now: int): (r: (NodeState, AppendEntriesReply))
    ensures r.0.currentTerm == Max(s.currentTerm, args.term)
    ensures forall n: nat :: WellFormed(s, n) ==> WellFormed(r.0, n)
    // a stale leader is told the current term, and nothing changes
    ensures args.term < s.currentTerm ==> r == (s, AppendEntriesReply(s.currentTerm, false))
    // otherwise the peer yields to the leader as a Follower of its term and refreshes its
    // last contact; the vote survives only if the term did not change; no reply field is written
    ensures args.term >= s.currentTerm ==>
              r.0 == NodeState(Follower, args.term, if args.term == s.currentTerm then s.votedFor else NoVote, now)
              && r.1 == ZeroAppendReply
  {
    var s1 := ObserveTerm(s, args.term);
    if args.term < s1.currentTerm then
      (s1, AppendEntriesReply(s1.currentTerm, false))
    else
      (s1.(state := Follower, lastTime := now), ZeroAppendReply)
  }

  /** The locked part of `callRequestVote` once the transport has returned `ok` and `reply`:
      the new state and whether the call reports a granted vote. */
  function OnVoteReply(s: NodeState, ok: bool, reply: RequestVoteReply): (r: (NodeState, bool))
    ensures r.0.currentTerm == Max(s.currentTerm, if ok then reply.term else s.currentTerm)
    ensures forall n: nat :: WellFormed(s, n) ==> WellFormed(r.0, n)
    // a failed call changes nothing and counts as no vote
    ensures !ok ==> r == (s, false)
    // a delivered reply with a higher term steps the peer down, and the grant bit is passed on
    // even then
    ensures ok ==> r == (ObserveTerm(s, reply.term), reply.voteGranted)
  {
    if !ok then (s, false)
    else (ObserveTerm(s, reply.term), reply.voteGranted)
  }

  /** The locked part of `callAppendEntries`: the new state and whether the call was delivered. */
  function OnAppendReply(s: NodeState, ok: bool, reply: AppendEntriesReply): (r: (NodeState, bool))
    ensures r.0.currentTerm == Max(s.currentTerm, if ok then reply.term else s.currentTerm)
    ensures forall n: nat :: WellFormed(s, n) ==> WellFormed(r.0, n)
    ensures !ok ==> r == (s, false)
    ensures ok ==> r == (ObserveTerm(s, reply.term), true)
  {
    if !ok then (s, false)
    else (ObserveTerm(s, reply.term), true)
  }

  /** The locked prefix of `attemptElection`: the peer `me` becomes a Candidate of the next
      term and votes for itself. */
  function StartElection(s: NodeState, me: nat, now: int): (r: NodeState)
    ensures r.state == Candidate && r.currentTerm == s.currentTerm + 1
    ensures r.votedFor == me && r.lastTime == now
    ensures forall n: nat :: WellFormed(s, n) && IsPeer(me, n) ==> WellFormed(r, n)
  {
    NodeState(Candidate, s.currentTerm + 1, me, now)
  }

  /** The decision of `attemptElection` on the tally `votes` of `length` peers for the election
      that captured `term`: the new state and whether the peer became Leader. */
  function ConcludeElection(s: NodeState, term: int, votes: int, length: nat): (r: (NodeState, bool))
    // Leader exactly when a strict majority voted and the peer is still a Candidate of that term
    ensures r.1 <==> 2 * votes > length && s.state == Candidate && s.currentTerm == term
    ensures r.0 == if r.1 then s.(state := Leader) else s
  {
    if Quorum.Majority(votes, length) then
      if s.state != Candidate || s.currentTerm != term then (s, false)
      else (s.(state := Leader), true)
    else
      (s, false)
  }

  /** The locked head of one round of `priodicHeartbeat`: the new state and whether the round
      goes on to send heartbeats (at the term `s.currentTerm`). */
  function HeartbeatRound(s: NodeState, now: int): (r: (NodeState, bool))
    ensures r.1 <==> s.state == Leader
    ensures r.0 == if r.1 then s.(lastTime := now) else s
  {
    if s.state != Leader then (s, false)
    else (s.(lastTime := now), true)
  }

  /** A granted vote always carries the term of the request it answers, so a candidate whose
      term never decreases is never stepped down by a granted reply to its own request. */
  lemma GrantedReplyCarriesRequestTerm(voter: NodeState, args: RequestVoteArgs, now: int, n: nat,
                                       candidate: NodeState)
    requires IsPeer(args.candidateId, n)
    requires RequestVote(voter, args, now, n).1.voteGranted
    requires candidate.currentTerm >= args.term
    ensures RequestVote(voter, args, now, n).1.term == args.term
    ensures OnVoteReply(candidate, true, RequestVote(voter, args, now, n).1) == (candidate, true)
  {
  }

  /** One vote per term: once a peer has granted its vote in a term, a request by another
      candidate in that same term is refused and changes nothing. */
  lemma OneVotePerTerm(s: NodeState, a1: RequestVoteArgs, a2: RequestVoteArgs, t1: int, t2: int, n: nat)
    requires IsPeer(a1.candidateId, n) && IsPeer(a2.candidateId, n)
    requires RequestVote(s, a1, t1, n).1.voteGranted
    requires a2.term == a1.term && a2.candidateId != a1.candidateId
    ensures RequestVote(RequestVote(s, a1, t1, n).0, a2, t2, n) == (RequestVote(s, a1, t1, n).0, ZeroVoteReply)
  {
  }
}
