/** The record a Raft peer keeps under its mutex, and the RPC messages of leader election. */
module RaftTypes {

  /** The role a peer believes it plays: the Go `State` values "follower", "candidate", "leader". */
  datatype Role = Follower | Candidate | Leader

  /** `votedFor == NoVote` means the peer has voted for nobody in its current term. */
  const NoVote: int := -1

  /** The fields of the `Raft` record that every locked section reads and writes.
      `lastTime` is a clock reading in milliseconds (see module ElectionTimer). */
  datatype NodeState = NodeState(state: Role, currentTerm: int, votedFor: int, lastTime: int)

  datatype RequestVoteArgs = RequestVoteArgs(term: int, candidateId: int)
  datatype RequestVoteReply = RequestVoteReply(term: int, voteGranted: bool)
  datatype AppendEntriesArgs = AppendEntriesArgs(term: int, leaderId: int)
  datatype AppendEntriesReply = AppendEntriesReply(term: int, success: bool)

  /** The zero values of the reply structs: what the caller reads when a handler writes no field. */
  const ZeroVoteReply: RequestVoteReply := RequestVoteReply(0, false)
  const ZeroAppendReply: AppendEntriesReply := AppendEntriesReply(0, false)

  /** Peers are named by their index into the cluster-wide peer list of length n. */
  predicate IsPeer(id: int, n: nat) {
    0 <= id < n
  }

  /** What every reachable state of a peer in a cluster of n peers satisfies. */
  predicate WellFormed(s: NodeState, n: nat) {
    s.currentTerm >= 0 && (s.votedFor == NoVote || IsPeer(s.votedFor, n))
  }
}
