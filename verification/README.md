# Verification of 6.5840-golab

A Dafny model of four parts of the repository, with proofs of what they are for:

- the linearizability checker (`src/porcupine`, with the key/value specification `src/models/kv.go`);
- the per-node machinery of Raft (`src/raft`): the compacted log, the replication counter, the search
  for the match index, and the switching of roles;
- the MapReduce coordinator and data path (`src/mr`, against `src/main/mrsequential.go`);
- the duplicate filter of the key/value server (`src/kvsrv`).

`dafny verify dfyconfig.toml` checks the whole project.

## How the model is built

Code that changes things in place is modelled in place: the linked list of `checkSingle` is a list of
`Node` objects whose `next` and `prev` are rewritten by `Lift` and `Unlift`, bitsets and bit vectors are
arrays, `Logs`, `ReplCounter`, `LeaderRole`, `KVServer`, `TaskContainer`, `Worker` and `MRCoordinator` are classes,
and the loops of the source are loops with invariants. Each such method is proved against a function or a
predicate on values, and the theorems are about those.

Protocols whose point is the interleaving are state machines: `Parallel` (goroutines, result channel,
timer), `Roles` (processor, posting goroutines, lock, channel), `Coordinator` (handlers cut where another
handler can come in between), `Dedup` (clerks, server, lossy network), `LeaderCommit` (a leader's events)
and `LogSpec` (a node's log operations). Their theorems hold in every state of every run.

| module | what it holds |
|---|---|
| `Options`, `Collections`, `Sorting`, `Words` | options, facts about sequences and sets, what `sort.Sort` promises, machine words |
| `Histories`, `Search`, `Pruning` | linearizability, the invariant of the backtracking search, and what its cache asks of a model |
| `Bitset`, `LinkedEntries`, `CheckSingle` | the data structures of the search and the search itself |
| `Prepass`, `KvModel`, `Parallel`, `CheckOperations` | entries, partitions, goroutines, and the whole checker |
| `LogSpec`, `Logs`, `Voting`, `Replication` | the uncompacted log, the log object, the voting rule, leader and follower |
| `BitVec`, `ReplCounter`, `LeaderCommit`, `LeaderRole` | bit vectors, the counter, runs of a leader, its handlers |
| `Roles`, `RoleHistory` | role switching, and what has happened in its runs |
| `Coordinator`, `WorkerIds`, `JobSize`, `Panics` | MapReduce: task accounting, what reused worker ids do, which jobs fit the counters, when handlers panic |
| `CoordinatorHandlers`, `Pipeline` | MapReduce: the handlers as methods, the data path |
| `KvServer`, `Dedup`, `KvMeaning` | the key/value server, clerks over a lossy network, and what is in a store |

Modelling decisions:

- 64-bit and 8-bit words are natural numbers with the bitwise operators written out digit by digit
  (`Words`). The 16-bit counters and worker ids of the coordinator and the 32-bit request numbers of kvsrv
  wrap explicitly.
- `sort.Sort` is not stable. The statements about sorting hold for every permutation without inversions
  (`IsSortOf`), and callers of `Sort` learn no more than that.
- The kill flag of `checkSingle` is a function from the number of the load to its result. Map ranges,
  timers, scheduling, message loss and duplication are choices of the environment.
- Two assumptions on histories are explicit. `Timed`: every operation is called no later than it returns
  (`MakeEntries` shows that its result is a well-formed history exactly then). `EqualSimulates`: a state that
  `Equal` equates with another accepts whatever the other accepts, and equated states stay equated; only
  completeness needs it, soundness and termination do not. `PruningNeedsSimulation` shows what is lost without
  it: for a register whose states are all called equal, the order that leads to a linearization is pruned.
- Log matching and "the leader has what the follower has committed" are explicit hypotheses of
  `Replication`.
- The comment on the `match` field (`src/porcupine/checker.go:64`) says that a nil `match` marks a call. The
  code treats it as the mark of a return (lines 127 and 194), and so does the model.

Where a property of the code holds only under a condition, the condition is part of the theorem and the
other case is shown:

- `checkParallel` always answers exactly when there is a partition or a timeout (`AnswersExactly`), that is,
  when the history is not empty or there is a timeout (`AnswersNonempty`).
- A leader commits promptly only with at least one other peer; alone it never commits (`CommitsUnlessAlone`).
- Worker ids are 16 bits wide. Every task is in exactly one place in every run, whatever ids are given out
  (`Conservation`), but it may be with a worker object that nobody can reach any more. `StrandedExactly` says
  by which steps that happens, `NeverDone` what it means, and `IdsFit` that it happens in some run exactly
  beyond 65536 registrations: in `ReusedIdLosesTask` the first worker gets a file, 65535 more workers
  register, and the next one is given the first one's id.
- The counter of map tasks is 16 bits wide, too. Accounting does not suffer from that: `Conservation`,
  `FinishedForever` and `FinishedOnce` hold for every job, and the reduce tasks exist exactly from the moment
  the counter comes to zero for the first time (`PhaseSafety`). But this is the end of the map stage exactly
  for jobs of at most 65536 files: the stage panics are out of reach exactly for those (`FilesFit`), and tasks
  of both kinds never meet in the container (`ReducesWait`), and DONE means that every file is mapped
  (`DoneFits`), exactly for those and for jobs without reduce tasks. The number of reduce tasks is truncated
  before anything uses it, so it can not overflow.
- A coordinator without files or without reduce tasks is never DONE (`DoneMeansReduced`).
- A snapshot stays behind the commit index exactly when it is taken at a committed command (`TakeSnapshot`).
- A resent request is answered exactly when its number is not the last 32-bit one (`ResendIsSafe`), and gets
  the same answer exactly when it is an append to a key that was there or the client has no last value yet
  (`ResendSameReply`).
- A clerk numbers its calls with 32 bits. Calls take effect exactly once, and the server does not panic, in
  all runs in which no clerk makes more than n calls, exactly when n is at most 2^32 - 2 (`CallsFit`).

## Model

| member | source | states |
|---|---|---|
| `CheckSingle.CheckSingle` | src/porcupine/checker.go:179-253 | true only for linearizable histories; false, unless killed, only for histories that are not; every recorded partial linearization replays from Init, and with computePartial it is of maximal length for its operation and missing only if no partial linearization contains the operation; terminates for every model and every Equal |
| `CheckSingle.CacheContains` | src/porcupine/checker.go:145-152 | looking into one hash bucket finds a configuration with the same set and an equal state whenever there is one anywhere in the cache |
| `CheckSingle.HitExplores` | src/porcupine/checker.go:200-210 | a cache hit loses nothing: everything below the pruned path has already been explored on another path |
| `CheckSingle.AtCall` | src/porcupine/checker.go:194-213 | the branch at a call entry keeps list, stack, bitset, cache and search invariant, and either moves on in the list or caches a path never cached before |
| `CheckSingle.AtReturn` | src/porcupine/checker.go:214-242 | the branch at a return entry records the stack and backtracks, keeping the whole loop invariant one level up |
| `CheckSingle.Descend` | src/porcupine/checker.go:203-207 | taking an operation moves stack, bitset and list together and restarts at the first remaining entry |
| `CheckSingle.Ascend` | src/porcupine/checker.go:235-241 | undoing the last operation brings stack, state, bitset and list back to what they were below it and goes on behind its call |
| `CheckSingle.Take` | src/porcupine/checker.go:206 | lifting leaves exactly the entries of operations not on the stack in the list and keeps every level of the stack restorable |
| `CheckSingle.PutBack` | src/porcupine/checker.go:240 | unlifting in stack order gives back exactly the list of the level below, all levels still restorable |
| `CheckSingle.Record` | src/porcupine/checker.go:219-234 | exactly the operations on the stack with no record or a shorter one get the current stack as their record |
| `CheckSingle.EntryPresent` | src/porcupine/checker.go:190-194 | inside the loop the entry under the scan is never nil and belongs to an operation not on the stack |
| `CheckSingle.PathsAreFinite` | src/porcupine/checker.go:190-243 | every path of the search is one of finitely many, the outermost part of the termination measure |
| `CheckSingle.Setup` | src/porcupine/checker.go:180-189 | the variables before the loop satisfy its invariant for the empty path |
| `CheckSingle.Finish` | src/porcupine/checker.go:244-252 | an empty list means that the stack is a linearization, and no partial linearization is longer |
| `Search.ScannedIsReady` | src/porcupine/checker.go:190-213 | the scan offers only operations all of whose real-time predecessors are on the path |
| `Search.ScannedIsNew` | src/porcupine/checker.go:194-207 | the search never comes back to a path it has cached, whatever Equal says |
| `Search.SameContinuation` | src/porcupine/checker.go:145-152 | two orders of the same operations ending in equated states have the same continuations |
| `Search.PruneExplored` | src/porcupine/checker.go:200-210 | if one of two such orders is explored, so is the other, including the records of partial linearizations |
| `Search.ReturnExploresPath` | src/porcupine/checker.go:214-242 | at a return entry every possible next operation has been tried, so the whole path is explored |
| `Search.Push` | src/porcupine/checker.go:201-207 | descending keeps the search invariant |
| `Search.Advance` | src/porcupine/checker.go:208-213 | moving past an operation that is refused or cached keeps the search invariant |
| `Search.Pop` | src/porcupine/checker.go:218-241 | backtracking keeps the search invariant with the improved records |
| `Search.NothingFound` | src/porcupine/checker.go:215-217 | a return entry under an empty stack: not linearizable, and every record is maximal |
| `Search.AllTaken` | src/porcupine/checker.go:244-252 | a path over all operations is a linearization and maximal for every operation |
| `Pruning.PruningNeedsSimulation` | src/porcupine/checker.go:200-210 | with an Equal that equates everything, an explored configuration with the same operations and an equal state hides a path that leads to a linearization |
| `Histories.LinearizationIsCompletePartial` | src/porcupine/checker.go:179-253 | real-time order on complete orders is the prefix-closed condition that the search works with |
| `Histories.PartialSnoc` | src/porcupine/checker.go:194-207 | a partial linearization grows by exactly the ready operations that Step accepts |
| `LinkedEntries.Lift` | src/porcupine/checker.go:159-167 | call and return leave the list, everything else is linked to its remaining neighbours, the two keep their own links |
| `LinkedEntries.Unlift` | src/porcupine/checker.go:169-177 | call and return are back between the neighbours they had, nothing else that is out of the list is touched |
| `LinkedEntries.Restored` | src/porcupine/checker.go:159-177 | coming back to the same set of removed nodes restores every next and prev |
| `LinkedEntries.InsertBefore` | src/porcupine/checker.go:70-81 | the links of the new node, the mark and its predecessor, with no mark and with a mark that has no predecessor |
| `LinkedEntries.Length` | src/porcupine/checker.go:83-90 | the number of nodes of a chain |
| `LinkedEntries.MakeLinkedEntries` | src/porcupine/checker.go:121-138 | a doubly linked chain of one node per entry, in order, each call matched with its own return |
| `Bitset.NewBitset` | src/porcupine/bitset.go:10-17 | enough words for the bits and less than one word too many, the empty set |
| `Bitset.Clone` | src/porcupine/bitset.go:19-23 | a new array with the same words |
| `Bitset.Set` | src/porcupine/bitset.go:29-33 | the set with one more position, in place |
| `Bitset.Clear` | src/porcupine/bitset.go:35-39 | the set without one position, in place |
| `Bitset.Get` | src/porcupine/bitset.go:41-44 | membership |
| `Bitset.PopcntOf` | src/porcupine/bitset.go:46-52 | the cardinality of the set |
| `Bitset.HashOf` | src/porcupine/bitset.go:54-60 | the loop computes a function of the words alone, so equal sets of equal length share a bucket |
| `Bitset.HashDigit` | src/porcupine/bitset.go:54-60 | a digit of the hash says whether the size of the set and the words have that digit an odd number of times |
| `Bitset.Equals` | src/porcupine/bitset.go:62-72 | same length and same set, which is the same as equal words |
| `Prepass.MakeEntries` | src/porcupine/checker.go:48-60 | operation i is operation i of the result, a's return stands before b's call exactly when a returned before b was called, and the result is well formed exactly when every operation is called no later than it returns |
| `Prepass.FaithfulCarries` | src/porcupine/checker.go:48-60 | the two entries of an operation carry its input and output, times and client |
| `Prepass.AnySortIsFaithful` | src/porcupine/checker.go:39-60 | the same for every possible result of an unstable sort by Less |
| `Prepass.EntriesKeepMeaning` | src/porcupine/checker.go:39-60 | the sorted entries are linearizable exactly when the operations are, by their times alone |
| `Prepass.Renumber` | src/porcupine/checker.go:92-106 | ids are replaced one to one by 0, 1, 2 and so on, everything else stays |
| `Prepass.ConvertEntries` | src/porcupine/checker.go:108-119 | one entry per event, with the position as its time |
| `Prepass.ConvertedInOrder` | src/porcupine/checker.go:108-119 | the entries are in the order of their times, and only the time is new |
| `Prepass.RenumberedWellFormed` | src/porcupine/checker.go:92-119 | the converted history is well formed exactly when every id has one call followed by one return |
| `Prepass.EventsKeepMeaning` | src/porcupine/checker.go:92-119 | the history made of events is linearizable exactly when the events are, by their positions alone |
| `KvModel.Partition` | src/models/kv.go:18-34 | one part per key that occurs, keys sorted, each part the operations on its key in order |
| `KvModel.StoreRunsEachKey` | src/models/kv.go:40-57 | executing an order on the whole store succeeds exactly when it does on every key alone, with the same values |
| `KvMeaning.StoreExplains` | src/models/kv.go:40-57 | an order of operations is accepted by the whole store exactly when every read in it returns the value of the last put followed by what was appended since, and then the store holds that for every key |
| `KvModel.Merge` | src/models/kv.go:18-34 | real-time orders of single keys merge into one real-time order that contains each of them |
| `KvModel.MergeRealTime` | src/models/kv.go:18-34 | the last operation of the key with the latest last call may come last of all |
| `KvModel.Locality` | src/porcupine/model.go:28-31 | a history is linearizable against the whole key-to-string map exactly when every part is against the model of one key |
| `Parallel.RunInv` | src/porcupine/checker.go:274-353 | the invariant of checkParallel holds in every state of every interleaving |
| `Parallel.AnswerIsTrue` | src/porcupine/checker.go:274-353 | Ok only if every part is linearizable, Illegal only if one is not (never because of the kill flag), exact without a timeout |
| `Parallel.AnswerByHistory` | src/porcupine/checker.go:291-353 | by what happened in the run: Illegal exactly when the loop took the answer false, also if the timer fired later; Unknown exactly when it took none and the timer fired; Ok exactly when neither |
| `Parallel.RunRecords` | src/porcupine/checker.go:291-310 | a timeout is noted exactly when the timer has fired, a failure exactly when the answer false was taken, and the goroutines are told to stop exactly after a timeout or, without information wanted, a failure |
| `Parallel.LoopUntil` | src/porcupine/checker.go:291-318 | the loop goes on exactly until the timer fires, a failure makes the rest unnecessary or all answers are taken; with information wanted, all goroutines have answered in the end |
| `Parallel.PossibleAnswers` | src/porcupine/checker.go:274-353 | some run answers Illegal exactly when a part is not linearizable, Ok exactly when there are parts and all are, Unknown exactly when there is a timeout |
| `Parallel.FailsThenTimesOut` | src/porcupine/checker.go:291-310 | a failure and then a timeout in one run is possible exactly with a timeout and information wanted on more than one part, one of them not linearizable |
| `Parallel.NeverKilled` | src/porcupine/checker.go:298-309 | with information wanted and no timer, the kill flag is never set in any run |
| `Parallel.RunLength` | src/porcupine/checker.go:291-318 | no run has more than 2n + 3 states for n parts |
| `Parallel.NeverStuck` | src/porcupine/checker.go:291-318 | with a part or a timeout a run can always go on until it has finished |
| `Parallel.AnswersExactly` | src/porcupine/checker.go:287-318 | every run can go on until it has finished exactly when there is a part or a timeout |
| `CheckOperations.Prepare` | src/porcupine/checker.go:365-371 | the histories handed to the goroutines are well formed and faithful to the parts |
| `CheckOperations.Goroutine` | src/porcupine/checker.go:281-285 | for every model whose Equal is a simulation, what a goroutine posts is exact, or false after a kill; its records replay, and are of maximal length when it answers true or wants information and is not killed |
| `CheckOperations.GoroutineOf` | src/porcupine/checker.go:281-309 | in every run with information wanted and no timer, every goroutine's answer is exact and all of its records are maximal |
| `CheckOperations.KvEqualSimulates` | src/models/kv.go:40-57 | the key/value model is one of those models |
| `CheckOperations.CheckOperationsDecides` | src/porcupine/checker.go:365-373 | end to end for the key/value model: without a timeout the answer is Ok exactly when the history is linearizable against the whole store, with one Ok and Illegal are still true; Illegal exactly when the loop took the answer false, Unknown exactly when it did not and the timer fired |
| `CheckOperations.AnswersNonempty` | src/porcupine/checker.go:365-373 | every interleaving comes to an answer exactly when the history is not empty or there is a timeout |
| `CheckOperations.CheckEventsDecides` | src/porcupine/checker.go:355-363 | the same end-to-end statement for histories given as events, for every model whose Equal is a simulation and all events in which each id has one call followed by one return |
| `LogSpec.CommittedIsForever` | src/raft/log.go:192-313 | over every run the commit index never decreases and stays in the log, committed entries never change, and the concatenated slices queued are exactly the committed log |
| `LogSpec.CommitReaches` | src/raft/log.go:192-211 | exactly the indexes of the log up to the leader's commit index or the old one are committed afterwards, the log is the same and the queue only grows |
| `LogSpec.NumberedForever` | src/raft/log.go:253-313 | over every run with entries taken only from agreeing leaders, the k-th command of the log, and the k-th that the service gets, has number k |
| `LogSpec.NumberedIsConsecutive` | src/raft/log.go:253-269 | numbering by length minus no-ops is the same as 1, 2, 3 without gap or repeat |
| `LogSpec.AppliedConsecutively` | src/raft/log.go:141-162 | the commands queued for the service are numbered without gap or repeat |
| `LogSpec.AppendNumbered` | src/raft/log.go:271-313 | truncate-and-append from an agreeing leader keeps the numbering |
| `LogSpec.PushNumbered` | src/raft/log.go:253-269 | a leader's push keeps the numbering |
| `LogSpec.PushAppends` | src/raft/log.go:253-269 | one entry goes to the end of the log with the content and the term that were given, a command as the next one, a no-op as it is |
| `LogSpec.EntriesAreGiven` | src/raft/log.go:192-313 | over every run each entry of the log, and so each one queued for the service, was there from the start or was put at its index by a push or an append, with the content and term given there, and not touched since |
| `LogSpec.QueryMeansSamePrefix` | src/raft/log.go:285-313 | given log matching, an empty append at m matches exactly when the logs agree up to m |
| `LogSpec.AppendAgrees` | src/raft/log.go:285-313 | an append behind an agreeing prefix leaves the leader's log as a prefix of the follower's |
| `Logs.Logs.TryIndexLogTerm` | src/raft/log.go:214-227 | fails exactly for indexes compacted away or beyond the end; otherwise the term of the uncompacted log |
| `Logs.Logs.IndexLogTerm` | src/raft/log.go:229-245 | the term of the uncompacted log, -1 outside of it |
| `Logs.Logs.LastLogInfo` | src/raft/log.go:443-463 | last index and term of the uncompacted log, also when everything is compacted |
| `Logs.Logs.UpToDate` | src/raft/log.go:433-441 | the voting rule on the uncompacted log, whose laws are in Voting |
| `Voting.GrantsMeans` | src/raft/log.go:426-441 | for logs with ascending terms, a vote is granted exactly when for every entry of the voter the candidate has one that is no earlier, by term and then by index |
| `Voting.GrantsTotal` | src/raft/log.go:426-441 | of two nodes one at least would vote for the other, both only with equal last terms and lengths |
| `Voting.GrantsTransitive` | src/raft/log.go:426-441 | the rule is transitive |
| `Voting.GrantsPrefix` | src/raft/log.go:426-441 | a log is good enough for each of its prefixes, and a proper prefix is refused |
| `Voting.GrantsByTerm` | src/raft/log.go:426-441 | a later last term wins whatever the lengths are, with the same one the longer log does |
| `Voting.GrantedHasAll` | src/raft/follower.go:138 | given log matching, who is granted a vote with the same last term has everything the voter has |
| `Voting.LastInfoNames` | src/raft/log.go:443-463 | the last info names an index of the log behind which there is none, and the term there |
| `Voting.TermTells` | src/raft/log.go:229-245 | the term at an index is -1 exactly outside of the log |
| `Logs.Logs.EntriesAfter` | src/raft/log.go:353-368 | the snapshot exactly when the index is compacted away, else the rest of the uncompacted log with its predecessor |
| `Logs.Logs.PushEntry` | src/raft/log.go:253-269 | appends one entry to the uncompacted log, with the content and the term that were given, a command with the next number, a no-op unchanged |
| `Logs.Logs.PushEntries` | src/raft/log.go:271-283 | appends entries as they are; index and no-op counters stay right |
| `Logs.Logs.RemoveAfter` | src/raft/log.go:340-350 | cuts the uncompacted log; index and no-op counters stay right |
| `Logs.Logs.Locate` | src/raft/log.go:288-302 | the status in all cases, and whether entries are to be taken |
| `Logs.Logs.FollowerAppendEntries` | src/raft/log.go:285-313 | status and new log in all cases; nothing at or below the commit index changes, and without entries nothing at all |
| `Logs.Logs.UpdateCommit` | src/raft/log.go:192-211 | the commit index and what is queued, for every argument |
| `Logs.Logs.FindCommand` | src/raft/log.go:370-386 | the first log index of a command that is in the log, and the no-ops before it |
| `Logs.Logs.TakeSnapshot` | src/raft/log.go:370-408 | compaction changes nothing about the uncompacted log; offset, snapshot and no-op count stay right; the snapshot stays behind the commit index exactly when the command is committed |
| `Replication.Query` | src/raft/repl.go:100-130 | one round of the search changes nothing at the follower and tells whether the logs agree up to m |
| `Replication.MatchIndex` | src/raft/repl.go:82-149 | the next index is one more than the last common index, with at most log2 + 1 queries |
| `Replication.NextCoversCommitted` | src/raft/repl.go:145-148 | the next index lies behind everything the follower has committed |
| `Replication.CatchUp` | src/raft/repl.go:168-217 | unless a snapshot is needed, one append leaves the leader's log a prefix of the follower's, the confirmed range is what it holds, the follower has committed what it or the leader had, and the hypotheses of the search hold again |
| `Replication.AppendRest` | src/raft/follower.go:103-108 | the follower's side of that: append, and on a match commit as far as the leader has |
| `BitVec.BitVec.constructor` | src/raft/bitvec.go:17-26 | the empty set, with room for the capacity |
| `BitVec.BitVec.Set` | src/raft/bitvec.go:29-40 | one more bit, the count stays the cardinality, true exactly when the bit was not set |
| `BitVec.BitVec.Unset` | src/raft/bitvec.go:43-54 | one bit less, the count stays the cardinality, true exactly when the bit was set |
| `BitVec.BitVec.At` | src/raft/bitvec.go:56-60 | membership |
| `BitVec.BitVec.Count` | src/raft/bitvec.go:62-66 | the running count is the number of set bits |
| `ReplCounter.ReplCounter.WatchIndex` | src/raft/repl.go:230-238 | one more watched index, contiguous, held by the leader alone |
| `ReplCounter.ReplCounter.MarkConfirmed` | src/raft/repl.go:245-252 | the peer is added to exactly the watched indexes of the range |
| `ReplCounter.ReplCounter.CountReady` | src/raft/repl.go:254-255 | the longest prefix of watched indexes that a majority holds |
| `ReplCounter.ReplCounter.Confirm` | src/raft/repl.go:240-262 | counts the peer, then commits and forgets exactly that prefix |
| `LeaderCommit.RunInv` | src/raft/leader.go:69-89 | in every state of every run, exactly the indexes behind the commit are watched, each with exactly the peers that confirmed it |
| `LeaderCommit.CommitNeedsMajority` | src/raft/repl.go:240-262 | over every run, what is committed is of the leader's own term and it and every index of the leader's before it has a majority of distinct confirmers; with two or more peers nothing that has one is held back |
| `LeaderCommit.MajoritiesMeet` | src/raft/raft.go:383 | two sets of peers, each more than half of the cluster, have a peer in common |
| `LeaderCommit.CommittedIsSeen` | src/raft/repl.go:240-262 | over every run, any majority of the cluster has a member that holds a given committed index |
| `LeaderCommit.CommitMonotone` | src/raft/repl.go:254-261 | the committed index never goes back |
| `LeaderCommit.AloneNeverCommits` | src/raft/repl.go:240-262 | a cluster of one has a majority for its no-op and never commits it, in any run |
| `LeaderCommit.CommitsUnlessAlone` | src/raft/repl.go:240-262 | some run commits entries of the leader's own exactly when there is another peer |
| `LeaderCommit.CommitIsMajorityIndex` | src/raft/repl.go:230-262 | when peers confirm without gaps the committed index is the greatest one replicated on a majority |
| `LeaderRole.LeaderRole.constructor` | src/raft/leader.go:23-50 | activation appends the own-term no-op to log and counter, as in the runs |
| `LeaderRole.LeaderRole.StartCommand` | src/raft/leader.go:69-80 | log and counter move as in the runs, the log is the old one and the command as it was given, and the reply is its number, the next one |
| `LeaderRole.LeaderRole.ReplConfirm` | src/raft/leader.go:88-89 | log, counter and commit index move as in the runs |
| `LeaderRole.LeaderRole.LogCommitSafe` | src/raft/repl.go:254-261 | from the leader's no-op on, what the log itself has committed is of the leader's term and held by a majority, and it is all the leader has committed |
| `Roles.RunInv` | src/raft/raft.go:228-266 | the invariant of role switching holds in every state of every interleaving |
| `Roles.RoleIsolation` | src/raft/raft.go:430-442 | a private event is processed only by the role object on whose behalf it was posted |
| `RoleHistory.ProcessedExactly` | src/raft/raft.go:251-257 | over every run, exactly the private events taken while the current role is active are processed, in the order of the channel |
| `RoleHistory.TakenFromCurrent` | src/raft/raft.go:430-442 | every private event that is taken, processed or discarded, was posted on behalf of the current role object |
| `RoleHistory.ChannelInOrder` | src/raft/raft.go:228-266 | what has been taken and what is waiting is what has been posted: nothing is lost, repeated or overtaken |
| `Roles.NeverPanics` | src/raft/raft.go:228-266 | no type assertion in a transition function fails and no lock is released that is not held |
| `Roles.OneTransEvent` | src/raft/raft.go:262-266 | there is at most one TransEvent, and one exactly when a stopped role waits for an idle processor |
| `RoleHistory.NewRole` | src/raft/raft.go:231-236 | a new role object is made exactly by a TransEvent with a function, and it is the one that function makes: a candidate of a follower, a follower or a leader of a candidate, a follower of a leader |
| `RoleHistory.RolesAskedFor` | src/raft/raft.go:228-266 | over every run the first role is a follower, and every later one was asked for by the one before it, being current and active, and is of the kind asked for |
| `RoleHistory.PendingIsAsked` | src/raft/raft.go:262-266 | a change of roles is under way exactly when the current role has asked for it |
| `RoleHistory.AsksOnce` | src/raft/raft.go:262-266 | a role object asks at most once |
| `RoleHistory.RoleSequences` | src/raft/raft.go:228-266 | the sequences of roles there are in some run are exactly those that begin with a follower and in which each role may succeed the one before it, whatever kind of event made each role ask |
| `RoleHistory.KilledForever` | src/raft/raft.go:246-249 | after a KillEvent nothing is taken or processed and no role is active |
| `RoleHistory.CanBeKilled` | src/raft/raft.go:336-345 | a node with a quiet role can be brought to its end |
| `RoleHistory.FormerRefused` | src/raft/raft.go:430-442 | a former role object that tries to post an event leaves everything as it was |
| `Roles.LockBracketsStop` | src/raft/candidate.go:39-61 | chLock is held for writing exactly from stop to activate, nobody reads meanwhile, and no former role is active |
| `Coordinator.RunInv` | src/mr/coordinator.go:95-175 | the invariant of the coordinator holds in every state of every interleaving, for every job |
| `Coordinator.Conservation` | src/mr/coordinator.go:95-175 | for every job, over all interleavings of register, get, finish and expiry, and whatever ids are given out, every task is in exactly one place: once in the queue, with one handler, with one worker object, or finished |
| `Coordinator.PhaseSafety` | src/mr/coordinator.go:144-167 | for every job, the counters are the numbers of unfinished tasks (of map tasks modulo 65536), and all reduce tasks exist from the moment as many map tasks have finished as bring the counter to zero, none before; with at most 65536 files that is when every map task has finished |
| `Coordinator.NoStageMismatch` | src/mr/coordinator.go:144-167 | the stage-mismatch panics are unreachable for jobs of at most 65536 files, the exact limit by FilesFit |
| `Coordinator.DoneMeansReduced` | src/mr/coordinator.go:157-167 | DONE, between stage sections, exactly when there is something to map and to reduce and every reduce task has finished; with at most 65536 files every map task has, too |
| `Coordinator.FinishedForever` | src/mr/coordinator.go:144-167 | a finished task stays finished, in every job |
| `Coordinator.FinishedOnce` | src/mr/coordinator.go:144-167 | in every job, a task finishes exactly in the stage section of a handler whose worker holds it while the stage is the task's, and it has not been finished before |
| `Coordinator.LeadsRun` | src/mr/coordinator.go:95-175 | steps taken in a row from the start, such as whole handlers, are a run |
| `Coordinator.GetEffect` | src/mr/coordinator.go:106-126 | what GetTask comes to when nothing interrupts it |
| `Coordinator.FinishEffect` | src/mr/coordinator.go:132-174 | what FinishTask comes to when nothing interrupts it |
| `Coordinator.StageFits` | src/mr/coordinator.go:144-160 | a worker outside of the stage section holds a task of the current stage, except for map tasks of jobs of more than 65536 files |
| `Panics.PanicsExactly` | src/mr/coordinator.go:113-160 | over every run the coordinator panics in exactly the steps in which a worker with a task gets to the container, one without a task to the stage section, or a task there outside of its stage |
| `Panics.GetWhileCarrying` | src/mr/coordinator.go:106-116 | GetTask for a worker with a task panics |
| `Panics.FinishWithNothing` | src/mr/coordinator.go:132-142 | FinishTask for a worker without one panics |
| `WorkerIds.StrandedStep` | src/mr/cworker.go:37-77 | a step strands a task exactly when it gives its worker's id away, the worker not being about to finish it, or gives the task to a worker whose id is gone; nothing brings it back |
| `WorkerIds.StrandedExactly` | src/mr/cworker.go:37-77 | over every run a task is stranded exactly when such a step has happened |
| `WorkerIds.InReach` | src/mr/cworker.go:37-77 | without such a step, the worker that holds a task can be reached by requests and expiry or is just finishing it |
| `WorkerIds.RegisterKeeps` | src/mr/coordinator.go:80-93 | in every reachable state, a registration keeps every task in reach exactly when the old worker of the id, if there is one, is idle or finishing |
| `WorkerIds.IdsComeRound` | src/mr/coordinator.go:80-93 | over every run there is one worker object per registration, the first has id 1, and two have the same id exactly when their registrations are a multiple of 65536 apart |
| `WorkerIds.IdsFit` | src/mr/coordinator.go:80-93 | if there is a file, no task is ever lost in runs of at most n registrations exactly when n is at most 65536 |
| `WorkerIds.NeverDone` | src/mr/coordinator.go:230-234 | a lost task is never finished, and a job that has lost one is never done, except for map tasks of jobs of more than 65536 files |
| `WorkerIds.ReusedIdLosesTask` | src/mr/coordinator.go:81 | a run of 65537 registrations in which the 16-bit id comes round again and the first file is lost |
| `JobSize.FilesFit` | src/mr/coordinator.go:144-160 | the stage-mismatch panics are unreachable exactly for jobs of at most 65536 files |
| `JobSize.ReducesWait` | src/mr/coordinator.go:151-155 | map and reduce tasks are never in the queue together exactly for those jobs and for jobs without reduce tasks |
| `JobSize.DoneFits` | src/mr/coordinator.go:151-167 | DONE means that every file is mapped exactly for the same jobs |
| `JobSize.EarlyReduce` | src/mr/coordinator.go:151-155 | with more files, a run in which the reduce stage begins while files are still in the queue |
| `JobSize.Overflow` | src/mr/coordinator.go:146-149 | and one in which the coordinator panics |
| `JobSize.EarlyDone` | src/mr/coordinator.go:151-167 | and, with something to reduce, one that is DONE while files are still in the queue |
| `CoordinatorHandlers.MRCoordinator.constructor` | src/mr/coordinator.go:241-270 | the first state of the runs, with the number of reduce tasks cut down to 16 bits |
| `CoordinatorHandlers.MRCoordinator.RegisterWorker` | src/mr/coordinator.go:80-93 | one step of the runs; the reply is the 16-bit id, which is different from the 65535 before it by IdsComeRound |
| `CoordinatorHandlers.MRCoordinator.GetTask` | src/mr/coordinator.go:95-127 | each of the four replies exactly in its case, and the handler as a whole is its three steps of the runs |
| `CoordinatorHandlers.MRCoordinator.FinishTask` | src/mr/coordinator.go:129-175 | the handler as a whole is its four steps of the runs; of its panics only the one for a worker without a task can occur, and with more than 65536 files the one for a map task outside of the map stage |
| `CoordinatorHandlers.MRCoordinator.Complete` | src/mr/coordinator.go:144-175 | counting a task of the stage and taking it from the worker brings the object to the state that the steps of the runs lead to |
| `CoordinatorHandlers.MRCoordinator.CountFinished` | src/mr/coordinator.go:144-167 | counters, released tasks and stage, for tasks of both kinds |
| `CoordinatorHandlers.MRCoordinator.RemoveWorker` | src/mr/cworker.go:48-58 | expiry as a whole is its step of the runs, for whichever worker has the id |
| `CoordinatorHandlers.TaskContainer.AddTask` | src/mr/task.go:115-120 | the task goes to the end of the queue |
| `CoordinatorHandlers.TaskContainer.TakeTask` | src/mr/task.go:122-132 | the first task leaves the queue, or none |
| `CoordinatorHandlers.TaskContainer.ReleaseMapTasks` | src/mr/task.go:134-145 | one task per file, in order |
| `CoordinatorHandlers.TaskContainer.ReleaseReduceTasks` | src/mr/task.go:147-158 | one task per reduce id, in order |
| `Pipeline.Group` | src/mr/worker.go:273-290 | on sorted pairs, one line per key with all of its values, in order, the lines in order of their keys |
| `Sorting.StringLessMeans` | src/mr/worker.go:29 | one string is less than another exactly when it is a proper prefix or has the smaller character at the first place where they differ |
| `Pipeline.SortAndGroup` | src/mr/worker.go:263-290 | the same for any pairs and any sort, in some order of the values of a key, which does not matter to a reduce function that ignores it |
| `Pipeline.Sequential` | src/main/mrsequential.go:38-84 | the output of all mapped pairs, in the same sense |
| `Pipeline.DoMapWork` | src/mr/worker.go:189-194 | bucket r holds the pairs whose key hashes to r, in order |
| `Pipeline.AppendBuckets` | src/mr/worker.go:196-207 | each bucket goes to the end of the worker's file for it, other files stay |
| `Pipeline.ReadBucket` | src/mr/worker.go:238-261 | everything in the files of one reduce task, in the order of the directory |
| `Pipeline.AllBuckets` | src/mr/worker.go:189-290 | the outputs of all buckets together are an output of all pairs |
| `Pipeline.OutputUnique` | src/main/mrsequential.go:59-84 | two outputs of the same pairs are permutations of each other |
| `Pipeline.RunJob` | src/mr/worker.go:165-293 | for any hash, any number of reduce tasks, any assignment of files to workers and any order of the directory, a job without failures puts out a permutation of what the sequential program does |
| `KvServer.ExecuteHasEffect` | src/kvsrv/server.go:47-91 | the request whose turn it is has its effect on the table, is counted for its client only, an append gets the old value and a put nothing |
| `KvServer.ResendHasNoEffect` | src/kvsrv/server.go:42-46 | a request that has been executed is not executed again, but answered with the number of the client's last one and its last value |
| `KvServer.ResendIsSafe` | src/kvsrv/server.go:34-55 | a request sent twice is answered twice exactly when its number is not the last 32-bit number |
| `KvServer.ResendSameReply` | src/kvsrv/server.go:34-91 | the second answer is the first one exactly for an append to a key that was there or a client without a last value |
| `KvServer.KVServer.SyncRpcID` | src/kvsrv/server.go:34-55 | whether to go on, the reply, and the client's entry |
| `KvServer.KVServer.PutValue` | src/kvsrv/server.go:66-75 | the handler moves the server as the runs do |
| `KvServer.KVServer.AppendValue` | src/kvsrv/server.go:77-91 | the handler moves the server as the runs do, with the old value remembered only if the key was there |
| `KvServer.KVServer.Get` | src/kvsrv/server.go:57-64 | the value, or the empty string |
| `KvMeaning.ServerIsStore` | src/kvsrv/server.go:66-91 | executing a request is a step that the key/value model accepts with the answer given, and leads to the same store |
| `KvMeaning.GetIsStore` | src/kvsrv/server.go:57-64 | the value returned for a get is the one the key/value model accepts |
| `Dedup.RunInv` | src/kvsrv/client.go:68-84 | the invariant of clerks, network and server holds in every state of every run in which no clerk makes more than 2^32 - 2 calls, the exact limit by CallsFit |
| `Dedup.ExactlyOnce` | src/kvsrv/client.go:68-84 | under loss and duplication, up to that many calls, each call takes effect at most once, in issue order, exactly once when it has returned; the table is the fold of what has taken effect; the server never panics |
| `Dedup.CallsFit` | src/kvsrv/server.go:34-55 | calls take effect exactly once, and the server never panics, in all runs of at most n calls per clerk exactly when n is at most 2^32 - 2 |
| `Dedup.WrapPanics` | src/kvsrv/server.go:46-54 | a run in which the server's number wraps to 0 with call number 2^32 - 1 and a duplicate of that call makes it panic |
| `Dedup.AppendReturnsOldValue` | src/kvsrv/server.go:77-91 | an append that found its key gets the value it found, however often it was sent and whichever answer arrives |
| `KvMeaning.TableHolds` | src/kvsrv/server.go:66-91 | in every run the table holds, for every key, the value of the last put executed followed by what was appended since, in order |

## Left out

- Cluster-wide safety of Raft (election safety, leader completeness, state machine safety): the code does not keep their premises, so only statements about one node or a leader and a follower are made.
- Voting and elections in `src/raft/candidate.go` and `src/raft/follower.go`, except the log comparison.
- `followerInstallSnapshot` and recovery after a restart (`src/raft/log.go:98-108`, 315-329): runs of the log are runs between them.
- The mutexes inside `Logs`, persistence and gob encoding: each log operation is atomic.
- The direct call of `transRole` from a replicator (`src/raft/repl.go:133`): role switching is proved for calls from the processor.
- The bound of the event channel: it has room in the model, so blocking senders and deadlock are not covered.
- HOLD and STALE replies, compaction of the leader's log during the search, and changes of the follower by another leader meanwhile.
- Role switching, the goroutines of `checkParallel` and the clerks are state machines on values; the objects and channels of the source are not modelled as objects.
- The de-duplication of partial linearizations in `checkParallel` and the visualization.
- Event histories cut into parts by a model's own `PartitionEvent`: `CheckEventsDecides` is about the default, which does not cut.
- MapReduce output after worker crashes, where files of expired workers are still read: only the task accounting survives failures.
- JSON, file names and the directory listing of the MapReduce workers; heartbeats are the absence of an expiry step.
- Concurrent handlers for the same client in `src/kvsrv`: handlers are atomic, as the source's own comment on serialized clients asks for.
- `src/kvraft`, `src/shardctrler`, `src/shardkv`, `src/labrpc`, `src/labgob`, the test harnesses, timers and logging.
- Logs.Logs.TakeSnapshot: not for NOOP_INDEX as the command number, which the service never gets to see.
- The two atomic actions of a registration, drawing an id and entering the worker, are one step.
- LeaderCommit.CommitIsMajorityIndex: for two or more peers and confirms without gaps.
