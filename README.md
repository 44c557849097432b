# Raft leader election, one peer

A model of the leader-election core of a Raft peer written in Go (`raft/raft.go`): the record the
peer guards with its mutex (`state`, `currentTerm`, `votedFor`, `lastTime`), the RequestVote and
AppendEntries handlers, the processing of the replies to the peer's own RPCs, one election
attempt (become Candidate, tally the votes, take the majority decision), the locked head of a
heartbeat round, the election timer's fire test, `GetState` and the initial state built by `Make`.

Every locked critical section is one atomic step. Time is an integer clock in milliseconds, and
the transport's outcome of a call (`ok` and the reply) is an input.

- `types.dfy` (module `RaftTypes`): roles, the peer record `NodeState`, RPC arguments and
  replies, `NoVote == -1`, and `WellFormed`: the term is non-negative and `votedFor` is either
  `NoVote` or a peer index `0 <= id < n`.
- `rules.dfy` (module `RaftRules`): each locked section as a function from the old record (and
  the step's inputs) to the new record and the value it produces. The contracts say the section's
  effect case by case.
- `node.dfy` (module `RaftNode`): class `Node` holds the fields the Go methods update in place. Its
  methods follow the Go statements and are proved equal to the `RaftRules` functions. Class
  `Tally` holds the `votes`/`finished` counters of one attempt. Ghost sets name the peers that
  were counted.
- `quorum.dfy` (module `Quorum`): the majority test `votes > length/2`. Two majorities of one
  cluster always intersect. So when each peer casts at most one ballot per term, at most one
  candidate wins that term. `RaftTrace.OneBallotPerTerm` proves the one-ballot-per-term half for
  a single peer.
- `timer.dfy` (module `ElectionTimer`): the timeout range, the saturated millisecond interval of
  `time.Sub(...).Milliseconds()`, and the fire test `interval >= timeout`.
- `trace.dfy` (module `RaftTrace`): arbitrary runs of a peer's locked sections. Along every run
  the term never decreases, `WellFormed` holds, a Candidate or Leader has voted for itself, and
  the peer casts at most one vote per term. Three scenarios are included: a three-peer election,
  a split vote among four peers, and a deposed leader stepping down.

Where the code departs from the Raft paper's rules (Figure 2, "Rules for Servers" and
"RequestVote RPC"), the model follows the code:
- On the accept path, `HandleAppendEntries` writes no reply field. The caller therefore reads the
  zero reply (term 0, success false), not "success, current term".
- When `HandleRequestVote` refuses because it already voted for another candidate, it also writes
  no reply field. The reply stays at (0, false).
- The quorum wait is a single `if`, not a loop. The decision is taken on the tally as it stands
  after at most one wake-up, which may be incomplete. `ConcludeElection` therefore takes the
  current `votes` as an input.
- `callRequestVote` reports `reply.VoteGranted` even when it has just stepped down.
  `GrantedReplyCarriesRequestTerm` shows that a real vote grant never causes that step-down.

Also modelled as written:
- `Make` leaves `lastTime` at Go's zero time (year 1). A peer's first poll therefore fires at
  once.

## Model

| member | source | states |
|---|---|---|
| RaftRules.Init | raft/raft.go:444-446 | a new peer is a Follower at term 0 with no vote, last contact at the zero time, and well formed for every cluster size |
| RaftRules.StepDown | raft/raft.go:284-289 | the step-down adopts the given term as a Follower with no vote and leaves the last-contact time unchanged |
| RaftRules.ObserveTerm | raft/raft.go:265-267 | the shared guard: the term becomes the max of old and observed; a higher term goes through exactly StepDown to that term; any other term changes nothing |
| RaftRules.RequestVote | raft/raft.go:260-281 | the term becomes max(old, request); a stale request gets (currentTerm, false) with no change; the vote is granted iff the term is higher, or equal with no vote or the same candidate; a grant records the candidate and refreshes lastTime; a refusal over an earlier vote changes nothing and leaves the zero reply; well-formedness is kept |
| RaftRules.AppendEntries | raft/raft.go:140-154 | a stale heartbeat gets (currentTerm, false) with no change; otherwise the peer becomes a Follower of the heartbeat's term with lastTime refreshed; the vote is kept only if the term did not change; the reply is left at its zero value |
| RaftRules.OnVoteReply | raft/raft.go:300-310 | a failed call changes nothing and counts as no vote; a delivered reply first adopts a higher term through StepDown, and the call still reports the reply's grant bit |
| RaftRules.OnAppendReply | raft/raft.go:169-179 | a failed call changes nothing and reports false; a delivered reply adopts a higher term through StepDown and reports true |
| RaftRules.StartElection | raft/raft.go:314-321 | an attempt makes the peer a Candidate at term old+1 that voted for itself, with lastTime refreshed, and keeps it well formed |
| RaftRules.ConcludeElection | raft/raft.go:350-357 | the peer becomes Leader iff 2*votes > length and it is still a Candidate at the captured term; otherwise nothing changes |
| RaftRules.HeartbeatRound | raft/raft.go:185-192 | a round proceeds iff the peer is Leader, and then only lastTime is refreshed; a non-leader is left unchanged and the loop ends |
| RaftRules.GrantedReplyCarriesRequestTerm | raft/raft.go:274-280 | a granted reply carries the request's term exactly, so processing it at a candidate whose term is at least that term changes nothing and reports a grant |
| RaftRules.OneVotePerTerm | raft/raft.go:274-280 | after a grant, a different candidate's request at the same term is refused with the zero reply and no state change |
| Quorum.Majority | raft/raft.go:350 | the quorum test `votes > length/2` is the same as 2*votes > length |
| Quorum.MajoritiesIntersect | raft/raft.go:350 | any two sets of peers that both pass the quorum test share a peer |
| Quorum.DisjointNotBothMajorities | raft/raft.go:347-350 | two disjoint sets of peers never both pass the quorum test |
| ElectionTimer.Fires | raft/raft.go:372 | the poll test `interval >= timeout`: with a timeout drawn from [300, 1199], an interval below 300 never fires, and one of 1199 or more always fires |
| RaftNode.Tally.MustWait | raft/raft.go:347 | the wait condition `votes <= length/2 && finished != length`: the candidate waits only without a majority, and never once every call has returned |
| RaftTrace.SplitVoteFourPeers | raft/raft.go:350-362 | in a cluster of 4, 2 votes fail the quorum test, and two Candidates of one term holding 2 votes each both stay Candidates |
| Quorum.AtMostOneWinner | raft/raft.go:350-357 | if each peer casts at most one ballot in a term, two candidates that each hold a majority of ballots are the same candidate |
| ElectionTimer.DrawTimeout | raft/raft.go:367 | the drawn timeout lies in [300, 1199] and is 300 plus the random value |
| ElectionTimer.DrawTimeoutOnto | raft/raft.go:367 | every timeout in [300, 1199] can be drawn |
| ElectionTimer.Interval | raft/raft.go:371 | the interval is the clock difference, saturated at the largest millisecond count a Go duration can hold |
| ElectionTimer.InitialPollFires | raft/raft.go:371-373 | a peer whose lastTime is still the zero time fires on its first poll, whatever its timeout |
| ElectionTimer.FiresIffTimeoutElapsed | raft/raft.go:371-373 | after a reset at time r, the poll at time t fires iff t - r >= timeout |
| RaftNode.Node.Make | raft/raft.go:437-455 | the constructed node is valid and its record equals the initial state |
| RaftNode.Node.GetState | raft/raft.go:80-90 | returns the current term, and true iff the peer is Leader; changes nothing |
| RaftNode.Node.StepDown | raft/raft.go:284-289 | the fields become RaftRules.StepDown of the old fields |
| RaftNode.Node.HandleRequestVote | raft/raft.go:260-281 | validity is kept; the fields and the reply are exactly RaftRules.RequestVote of the old fields |
| RaftNode.Node.HandleAppendEntries | raft/raft.go:140-154 | validity is kept; the fields and the reply are exactly RaftRules.AppendEntries of the old fields |
| RaftNode.Node.CallRequestVote | raft/raft.go:291-311 | validity is kept; the fields and the result are exactly RaftRules.OnVoteReply |
| RaftNode.Node.CallAppendEntries | raft/raft.go:161-180 | validity is kept; the fields and the result are exactly RaftRules.OnAppendReply |
| RaftNode.Node.BeginElection | raft/raft.go:313-322 | the fields become RaftRules.StartElection; the captured term is old+1 and the captured length is the peer count |
| RaftNode.Node.ConcludeElection | raft/raft.go:350-357 | validity is kept; the fields and the outcome are exactly RaftRules.ConcludeElection |
| RaftNode.Node.HeartbeatRound | raft/raft.go:182-192 | validity is kept; the fields and the go-on flag are RaftRules.HeartbeatRound; in a round that goes on, the captured term is the current term |
| RaftNode.Node.ElectionTick | raft/raft.go:369-375 | an election is launched iff the saturated interval since lastTime is at least the timeout |
| RaftNode.Tally.constructor | raft/raft.go:326-327 | a tally starts with the candidate's own vote: votes = finished = 1 |
| RaftNode.Tally.Record | raft/raft.go:335-342 | a returned call adds one finished peer, and one vote when granted; the counters stay equal to the sizes of the voter and responder sets |
| RaftNode.TallyOrdered | raft/raft.go:326-343 | every tally obeys 1 <= votes <= finished <= length |
| RaftNode.WaitMeansUndecided | raft/raft.go:347-349 | the candidate waits iff it has no majority and some peer's call is still outstanding |
| RaftTrace.StepKeepsInvariants | raft/raft.go:265-289 | every locked section keeps the peer well formed; a Candidate or Leader keeps its own vote; the term does not decrease; a vote in place survives while the term stays the same |
| RaftTrace.RunKeepsInvariants | raft/raft.go:313-321 | along every run: the term never decreases, the peer stays well formed, and a Candidate or Leader has voted for itself |
| RaftTrace.VoteStableWithinTerm | raft/raft.go:274-280 | a vote in place is unchanged at the end of any run that ends in the same term |
| RaftTrace.BallotsMatchVote | raft/raft.go:274-280 | every vote cast along a run is for a term at least the current one; a vote in the current term goes to the candidate already voted for |
| RaftTrace.OneBallotPerTerm | raft/raft.go:274-280 | two votes cast along a run in the same term, whether granted requests or the self-vote of an attempt, go to the same candidate |
| RaftTrace.LeaderOnlyByMajority | raft/raft.go:350-357 | a step makes a peer Leader only when it concludes an election of its current term as a Candidate with 2*votes > n |
| RaftTrace.HeartbeatSuppressesElection | raft/raft.go:152-153 | after an accepted heartbeat at time h, the poll at time t fires iff t - h >= timeout |
| RaftTrace.ThreePeerElection | raft/raft.go:313-357 | with 3 peers, peer 0's first attempt wins term 1 with the grants of peers 1 and 2, which become Followers of term 1 that voted for 0 |
| RaftTrace.StaleLeaderStepsDown | raft/raft.go:147-150 | a term-1 heartbeat to a term-2 leader is refused with (2, false) and changes nothing; the reply steps the old leader down to a Follower of term 2 |

## Left out

- Goroutines, `sync.Mutex` and `sync.Cond` signalling, and overlapping election attempts: concurrency is outside a sequential model. Each locked block is one atomic step. A run in `RaftTrace` is any order in which the mutex admits those steps.
- The wait-and-wake choreography of the quorum wait (`cond.Wait` happens at most once): the model decides on whatever tally is current. `Tally.MustWait` gives the wait condition.
- The unsynchronised read and write of `rf.state` in the decision of `attemptElection`: that is a data race, and the model takes the decision as one atomic step. The synchronous `priodicHeartbeat` call made while the tally lock is held is a liveness matter and is also left out.
- The labrpc transport (`Call`): a foreign network library. Its outcome is the `ok` flag plus the reply. Handler replies start from the zero value, because the transport allocates a fresh reply.
- `time.Now`, `time.Sleep` and `rand.Intn`: the clock reading, the timeout and the random value are parameters. The clock counts whole milliseconds, so truncation of sub-millisecond durations is not modelled.
- The pacing and the infinite repetition of the heartbeat and polling loops (150 ms and 30 ms sleeps). Each iteration's locked part is modelled. The fan-out of one heartbeat round is modelled by `CallAppendEntries` per peer. `electionTask` never checks `killed()`, so it polls forever.
- `persist`/`readPersist` (empty stubs), `Start` (a stub returning (-1, -1, true)), `Kill`/`killed` (an atomic flag nothing in the core reads), `ApplyMsg`, `DPrintf` and `Persister`: none takes part in election. `Persister` is not part of this model.
- Terms are unbounded integers, and the 64-bit wrap-around of `currentTerm++` is not modelled. In a cluster of these peers, terms only grow by increments from 0. But the model accepts any incoming term. A run that adopts the term 2^63 - 1 and then starts an election reaches 2^63, where Go's `int` would wrap to -2^63. So the monotonicity of `RaftTrace.RunKeepsInvariants` is proved for unbounded integers only.
