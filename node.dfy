/** A Raft peer as an object whose fields its locked sections update in place, and the vote
    tally of one election attempt. */
module RaftNode {
  import opened RaftTypes
  import RaftRules
  import Quorum
  import ElectionTimer

  class Node {
    /** This peer's index into the peer list, and the length of that list. */
    const me: nat
    const peerCount: nat

    var state: Role
    var currentTerm: int
    var votedFor: int
    var lastTime: int

    /** The value of the fields guarded by the peer's mutex. */
    function Snapshot(): NodeState
      reads this
    {
      NodeState(state, currentTerm, votedFor, lastTime)
    }

    ghost predicate Valid()
      reads this
    {
      IsPeer(me, peerCount) && WellFormed(Snapshot(), peerCount)
    }

    /** `Make`: a Follower at term 0 that has not voted. */
    constructor Make(peerCount: nat, me: nat)
      requires IsPeer(me, peerCount)
      ensures Valid() && this.me == me && this.peerCount == peerCount
      ensures Snapshot() == RaftRules.Init()
    {
      this.me := me;
      this.peerCount := peerCount;
      state := Follower;
      currentTerm := 0;
      votedFor := NoVote;
      lastTime := ElectionTimer.ZeroTime;
    }

    /** `GetState`: the current term and whether this peer believes it is the leader. */
    method GetState() returns (term: int, isLeader: bool)
      ensures term == currentTerm && (isLeader <==> state == Leader)
    {
      term := currentTerm;
      isLeader := state == Leader;
    }

    /** `stepDown`; the caller holds the lock. */
    method StepDown(higherTerm: int)
      modifies this
      ensures Snapshot() == RaftRules.StepDown(old(Snapshot()), higherTerm)
    {
      currentTerm := higherTerm;
      state := Follower;
      votedFor := NoVote;
    }

    method HandleRequestVote(args: RequestVoteArgs, now: int) returns (reply: RequestVoteReply)
      requires Valid() && IsPeer(args.candidateId, peerCount)
      modifies this
      ensures Valid()
      ensures (Snapshot(), reply) == RaftRules.RequestVote(old(Snapshot()), args, now, peerCount)
    {
      reply := ZeroVoteReply;
      if currentTerm < args.term {
        StepDown(args.term);
      }
      if args.term < currentTerm {
        reply := RequestVoteReply(currentTerm, false);
        return;
      }
      if votedFor == NoVote || votedFor == args.candidateId {
        reply := RequestVoteReply(currentTerm, true);
        votedFor := args.candidateId;
        lastTime := now;
      }
    }

    method HandleAppendEntries(args: AppendEntriesArgs, now: int) returns (reply: AppendEntriesReply)
      requires Valid()
      modifies this
      ensures Valid()
      ensures (Snapshot(), reply) == RaftRules.AppendEntries(old(Snapshot()), args, now)
    {
      reply := ZeroAppendReply;
      if currentTerm < args.term {
        StepDown(args.term);
      }
      if args.term < currentTerm {
        reply := AppendEntriesReply(currentTerm, false);
        return;
      }
      state := Follower;
      lastTime := now;
    }

    /** What `callRequestVote` does after the transport returns `ok` with `reply`. */
    method CallRequestVote(ok: bool, reply: RequestVoteReply) returns (granted: bool)
      requires Valid()
      modifies this
      ensures Valid()
      ensures (Snapshot(), granted) == RaftRules.OnVoteReply(old(Snapshot()), ok, reply)
    {
      if !ok {
        return false;
      }
      if currentTerm < reply.term {
        StepDown(reply.term);
      }
      granted := reply.voteGranted;
    }

    /** What `callAppendEntries` does after the transport returns `ok` with `reply`. */
    method CallAppendEntries(ok: bool, reply: AppendEntriesReply) returns (delivered: bool)
      requires Valid()
      modifies this
      ensures Valid()
      ensures (Snapshot(), delivered) == RaftRules.OnAppendReply(old(Snapshot()), ok, reply)
    {
      if !ok {
        return false;
      }
      if currentTerm < reply.term {
        StepDown(reply.term);
      }
      delivered := true;
    }

    /** The locked prefix of `attemptElection`: returns the captured term and peer count. */
    method BeginElection(now: int) returns (term: int, length: nat)
      requires Valid()
      modifies this
      ensures Valid()
      ensures Snapshot() == RaftRules.StartElection(old(Snapshot()), me, now)
      ensures term == currentTerm == old(currentTerm) + 1 && length == peerCount
    {
      state := Candidate;
      currentTerm := currentTerm + 1;
      votedFor := me;
      lastTime := now;
      term := currentTerm;
      length := peerCount;
    }

    /** The decision of `attemptElection`, taken on the tally as it stands. */
    method ConcludeElection(term: int, votes: int, length: nat) returns (won: bool)
      requires Valid()
      modifies this
      ensures Valid()
      ensures (Snapshot(), won) == RaftRules.ConcludeElection(old(Snapshot()), term, votes, length)
    {
      won := false;
      if votes > length / 2 {
        if state != Candidate || currentTerm != term {
          return;
        }
        state := Leader;
        won := true;
      }
    }

    /** The locked head of one `priodicHeartbeat` round: `leading` says whether heartbeats
        go out at `term`. */
    method HeartbeatRound(now: int) returns (term: int, leading: bool)
      requires Valid()
      modifies this
      ensures Valid()
      ensures (Snapshot(), leading) == RaftRules.HeartbeatRound(old(Snapshot()), now)
      ensures leading ==> term == currentTerm
    {
      term := currentTerm;
      if state != Leader {
        return term, false;
      }
      lastTime := now;
      leading := true;
    }

    /** One poll of `electionTask`: whether it launches an election attempt. */
    method ElectionTick(now: int, timeout: int) returns (launch: bool)
      requires ElectionTimer.ValidTimeout(timeout)
      ensures launch <==> ElectionTimer.Interval(now, lastTime) >= timeout
    {
      var interval := ElectionTimer.Interval(now, lastTime);
      launch := ElectionTimer.Fires(interval, timeout);
    }
  }

  /** The counters `votes` and `finished` of one election attempt by peer `me` among `length`
      peers. The ghost sets name the peers the counters count: those that granted a vote and
      those whose call has returned, the candidate itself included in both. */
  class Tally {
    const me: nat
    const length: nat
    var votes: nat
    var finished: nat
    ghost var voters: set<nat>
    ghost var responded: set<nat>

    ghost predicate Valid()
      reads this
    {
      IsPeer(me, length) && me in voters && voters <= responded && responded <= Quorum.Peers(length)
      && votes == |voters| && finished == |responded|
    }

    /** `votes := 1; finished := 1`: the candidate's own vote. */
    constructor (me: nat, length: nat)
      requires IsPeer(me, length)
      ensures Valid() && this.me == me && this.length == length
      ensures voters == {me} && responded == {me} && votes == 1 && finished == 1
    {
      this.me := me;
      this.length := length;
      votes := 1;
      finished := 1;
      voters := {me};
      responded := {me};
    }

    /** The locked body of the goroutine for `server`, once its call has returned `granted`. */
    method Record(server: nat, granted: bool)
      requires Valid() && server < length && server !in responded
      modifies this
      ensures Valid()
      ensures voters == old(voters) + (if granted then {server} else {})
      ensures responded == old(responded) + {server}
      ensures votes == old(votes) + (if granted then 1 else 0) && finished == old(finished) + 1
    {
      if granted {
        votes := votes + 1;
        voters := voters + {server};
      }
      finished := finished + 1;
      responded := responded + {server};
    }

    /** The condition under which the candidate waits (once) for another reply:
        `votes <= length/2 && finished != length`. */
    function MustWait(): (b: bool)
      reads this
      // the wait happens only without a majority, and never once every call has returned
      ensures b ==> !Quorum.Majority(votes, length)
      ensures finished == length ==> !b
    {
      votes <= length / 2 && finished != length
    }
  }

  /** The counters of a tally are ordered: `1 <= votes <= finished <= length`. */
  lemma TallyOrdered(t: Tally)
    requires t.Valid()
    ensures 1 <= t.votes <= t.finished <= t.length
  {
    Quorum.SubsetCard(t.voters, t.responded);
    Quorum.SubsetOfPeersCard(t.responded, t.length);
  }

  /** The candidate waits exactly while it has no majority and some call is still out. */
  lemma WaitMeansUndecided(t: Tally)
    requires t.Valid()
    ensures t.MustWait() <==> !Quorum.Majority(t.votes, t.length) && t.responded != Quorum.Peers(t.length)
  {
    if t.responded == Quorum.Peers(t.length) {
      Quorum.PeersCard(t.length);
    } else {
      var x :| x in Quorum.Peers(t.length) && x !in t.responded;
      Quorum.SubsetOfPeersCard(t.responded + {x}, t.length);
    }
  }
}
