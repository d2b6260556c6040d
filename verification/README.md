# Verified models of the B-link tree, the replicated store and the small concurrent cores

This project models the logic of several programs of one repository and proves properties of the models:

* **The B-link tree** (`BLinkTree/src`): a tree of nodes in a file, in the manner of Lehman and Yao, that any
  number of threads read and write. A writer splits a node first and posts the separator to the parent
  later, so other threads see half-finished splits.
* **The replicated key-value store** (`DB/internal`): elections, the log with a committed and an uncommitted
  part, the follower's message handler, and the rule by which the master commits. It follows parts of
  sections 5.2 and 5.3 of the extended version of "In Search of an Understandable Consensus Algorithm"
  (Ongaro and Ousterhout).
* **Small concurrent cores**: the lock-free stack with a tagged head, the work-stealing thread pool and the ticket lock.
* **Matrix multiplication**, versions V1, V2 and V3.

## How the models are built

*B-link tree.* The order `L` is any number from 2 on. `BLinkNode` has the node operations as functions on
values, `BLinkBuffer` has them as methods on the buffers of a `BTNode`, changed in place, each proved against its
function. `BLinkFile` has the service file: a map from offset to node, the free-space pointer and the root
offset. For the proof the file also records for each node where its key range begins (`low`) and its height above
the leaves (`level`); both are fixed when a node is allocated and no operation reads them. `BLinkSteps` and
`BLinkParents` show what each change of the file keeps. `BLinkTree` has the classes `NodeIO` and `BLinkTree` with
`Read` and `Write` for one thread at a time. `BLinkThreads` has the same code as a machine in which any number of threads
take their steps in any order; `BLinkSafety`, `BLinkRuns`, `BLinkProgress` and `BLinkHeight` prove what holds in
every reachable state and over every run. `BLinkReads` has the end of a read as it is written, on the buffers, and
`BLinkExamples` has runs that lead to what the code gets wrong. `Common` holds what several models share.

*Store.* `RaftElection`, `RaftReplication` and the commit rule in `RaftQuorum` are machines over the steps of all nodes;
messages can be lost, delayed, repeated and reordered. `RaftLog`, `RaftReplica`, `RaftVoting` and the first half of
`RaftQuorum` have the same code as classes and methods, proved against the functions that the machines use.

*Small cores.* `LockFreeStack`, `TicketLock` and `ThreadPool` are machines over single memory accesses or critical
sections of any number of threads. `MatrixMultiplier` has the loops as methods and the threads of V3 as a machine
in which every load and every store of a cell is a step.

All memory accesses are sequentially consistent. A step that works under a write lock is atomic, because no
other thread can reach what it changes.

## Where the code does not do what its callers expect

The model keeps the code as it is wherever it can, and states exactly when the expected property holds:

* `read` moves right only on `high_key < key` (BLinkTree/src/tree.cpp:98), `write` on `key >= high_key` (tree.cpp:164), which is the
  meaning that `btnodeSplit` gives to `high_key`. The step machine reads with the meaning, and then a read is right in every
  run (`BLinkRuns.RunReads`). The read as it is written also compares the slot behind the last key: right after a split that
  slot still holds the high key and its value, so the two deviations make up for each other
  (`BLinkReads.LookupAfterSplit`); one more insertion into the leaf shifts the slot, and the key is missed
  (`BLinkReads.LookupAfterInsert`, `BLinkExamples.ReadAsWrittenCanMiss`). `BLinkReads.ReadAsWritten` says exactly when it is right.
* An overwrite of a key in a full leaf is lost, since `btnodeAddKeyValue` returns early (node.c:62, tree.cpp:187-193): exactly
  then `write` does not store (`BLinkTreeClass.BLinkTree.Write`, `BLinkExamples.OverwriteIsLost`).
* `stk.top()` on an empty stack (tree.cpp:202): exactly when the writer has to split the node that was the root when it
  started, and the root has grown since (`BLinkProgress.CrashesExactlyWhen`, `BLinkExamples.WriteCanCrash`).
* The split of an internal node copies `sizeof(sz - mid)`, that is 8, children (node.c:118): enough exactly if `L <= 8`
  (`BLinkBuffer.SplitKeepsChildren`). The tree above the buffers takes the split that was meant.
* Lookups compare `key_buff[size]` with the key (node.c:39, node.c:49). `BLinkBuffer` says exactly when the stale slot changes the
  answer; the tree above takes the guarded lookup. On an empty node `fgoe` reads the word before the keys,
  which is `key_buff_size`, and returns 0.
* Entries without an operation, which no sender logs, would get the indices out of step (logger.go:164-173, 210): the store is the
  replay of the log all the same, and the log stays a chain as long as entries have one (`RaftReplica.HandleKeepsReplay`).
* Two masters can be elected in one term. They cannot exactly if three changes are made together: the candidate
  records its own vote, winning re-checks the term, and an election starts under the vote handler's lock
  (`RaftRepairs.SafeExactlyIfRepaired`).
* A late append of entry 0 is filed as entry 1 and acknowledged (raftapi.go:178): exactly when the follower has
  committed one entry (`RaftReplication.AppendIsFaithful`, `RaftReplication.LateAppendHappens`).
* A repeated commit stops a follower with a Fatalf in the cases that `RaftReplication.StopsExactlyWhen` lists; one of them is
  that the very first commit arrives twice (`RaftReplication.FirstCommitTwice`). The second commit branch of the heartbeat (middleware.go:155-164) is never taken.
* `minSentLenQuorum` counts only peers that have answered (api.go:360-363): the result is acknowledged by a majority exactly
  if at least `2m - 1` of `2m` peers have (`RaftQuorum.MajorityExactlyWhen`). So every commit is by a majority exactly in clusters of
  three nodes; in larger ones the answer of one peer can be enough (`RaftQuorum.AlwaysByMajorityExactlyWhen`).
* The ticket lock excludes exactly for up to 2^64 threads (`TicketLock.ExclusiveExactlyWhen`).
* The matrix constructor clears the first row only (matrix.hpp:75): the result is the product exactly if the rest of the
  memory was zero (`MatrixMultiplier.ProductExactlyWhen`).

The comment of `BTNode* btnodeSplit` (node.h:64-69) promises halves with equally many keys; an internal node gives its middle key to
the parent, so its right half has one key less. The model follows the code.

## Model

| member | source | states |
|---|---|---|
| BLinkNode.Fgoe | BLinkTree/src/node.c:8-31 | the result is the first index whose key is not below the given one: everything before is smaller, everything from there on is not |
| BLinkNode.ValueByKeyFinds | BLinkTree/src/node.c:47-57 | looking up a key in a sorted leaf gives the value that the leaf stores for it, or the empty value if it stores none |
| BLinkNode.AddKeyValueBinds | BLinkTree/src/node.c:59-80 | after an insertion into a leaf with room, the leaf stores the new binding and the old ones of all other keys, and nothing else |
| BLinkNode.AddKeyValueShape | BLinkTree/src/node.c:59-80 | an insertion keeps the keys sorted and the links as they were; it is lost exactly if the leaf is full |
| BLinkNode.SplitLeafBinds | BLinkTree/src/node.c:84-109 | the two halves of a split leaf together store the old bindings and the new one |
| BLinkNode.SplitLeafShape | BLinkTree/src/node.c:84-109 | both halves of a leaf are sorted, hold at least L keys, and are divided exactly at the left one's high key; the right one takes over the right link and the high key |
| BLinkNode.AddKeyChildShape | BLinkTree/src/node.c:124-135 | posting a separator adds exactly that key and that child and keeps the keys sorted |
| BLinkNode.AddKeyChildFences | BLinkTree/src/node.c:124-135 | after posting, every child still begins where the key before it says |
| BLinkNode.SplitInternalShape | BLinkTree/src/node.c:110-119 | a full internal node splits into two with at least L children each, which hold the old children and the new one, provided that choosing the half by the written key agrees with choosing it by the separator |
| BLinkNode.SplitInternalFenced | BLinkTree/src/node.c:110-119 | in both halves every child begins where the key before it says |
| BLinkBuffer.BTNode.Fgoe | BLinkTree/src/node.c:9-31 | the bisection ends, reads no slot outside the keys, and finds the first key that is not smaller, although `high` starts at the size |
| BLinkBuffer.BTNode.ChildByKey | BLinkTree/src/node.c:33-44 | the lookup gives the word behind the last child on a stale hit and the intended child otherwise, so the intended one exactly if no stale slot answers with another |
| BLinkBuffer.BTNode.ValueByKey | BLinkTree/src/node.c:47-57 | the lookup gives the intended value exactly if no stale slot answers with another |
| BLinkBuffer.BTNode.AddKeyValue | BLinkTree/src/node.c:59-80 | shifting the buffers in place is the insertion on values, and touches nothing else |
| BLinkBuffer.BTNode.AddKeyChild | BLinkTree/src/node.c:124-135 | shifting keys and children in place is the posting on values |
| BLinkBuffer.BTNode.Split | BLinkTree/src/node.c:84-122 | the node keeps the left half; the new node is the right half, with the first 8 children only and then what its memory held |
| BLinkBuffer.SplitKeepsChildren | BLinkTree/src/node.c:118 | the copy keeps all children of a full internal node, whatever the memory held, exactly if L is at most 8 |
| BLinkFile.CoverUnique | BLinkTree/src/tree.cpp:160-172 | two nodes of one level that cover one key are the same node |
| BLinkFile.EmptyInv | BLinkTree/src/nodeIO.cpp:27-84 | the empty service file is a B-link tree that stores nothing |
| BLinkFile.ContentsIsMaps | BLinkTree/src/tree.cpp:98-115 | the stored map is exactly the union of the leaves |
| BLinkFile.LeafDecides | BLinkTree/src/tree.cpp:112-115 | what the leaf that covers a key answers is what the whole file stores for the key |
| BLinkFile.PutCore | BLinkTree/src/nodeIO.cpp:19-25 | writing back a node with the same link and range, and contents that fit them, keeps all links, ranges, levels and the placement of nodes |
| BLinkFile.PutHalvesCore | BLinkTree/src/tree.cpp:219-240 | two halves, the right one at the allocator's offset, keep all links, ranges, levels and the non-overlapping placement of nodes |
| BLinkFile.PutRootCore | BLinkTree/src/tree.cpp:271-291 | so does a new root above two halves |
| BLinkSteps.InsertInLeafWrites | BLinkTree/src/tree.cpp:175-183 | inserting into the leaf that covers the key keeps the B-link invariant and changes the stored map to map[key := value] |
| BLinkSteps.HalveLeafWrites | BLinkTree/src/tree.cpp:221-240 | so does splitting a full leaf, although its right half is not posted yet |
| BLinkSteps.PostChildKeeps | BLinkTree/src/tree.cpp:301-302 | posting a pending separator keeps the invariant and the stored map |
| BLinkSteps.HalveInternalKeeps | BLinkTree/src/tree.cpp:232-240 | splitting a full internal node with a pending separator keeps links and ranges, and the stored map |
| BLinkSteps.GrowRootKeeps | BLinkTree/src/tree.cpp:252-299 | the new root makes the halves of the old one a B-link tree again, with the same stored map |
| BLinkParents.ParentCovers | BLinkTree/src/tree.cpp:209-219 | a node one level up that covers one key of a node's range covers all of it |
| BLinkParents.SeparatorFits | BLinkTree/src/tree.cpp:232-237 | the separator lies strictly inside the parent's range, is not in it yet, and stands on the same side of every other separator as the written key |
| BLinkParents.PostedInParent | BLinkTree/src/tree.cpp:209-219 | a posted child is in the parent that covers the key, and in no other |
| BLinkParents.RightWalk | BLinkTree/src/tree.cpp:164-172 | moving right from any node that does not begin after the key ends at the node of that level that covers it |
| BLinkParents.LevelCovers | BLinkTree/src/tree.cpp:98-110 | on every level, in every state, each key is covered by exactly one node |
| BLinkParents.ChildCovers | BLinkTree/src/tree.cpp:81-96 | when nothing is pending, the child that a search follows covers the key |
| BLinkTreeClass.NodeIO.CreateEmptyServiceFile | BLinkTree/src/nodeIO.cpp:27-84 | the new file is the empty tree |
| BLinkTreeClass.NodeIO.AddNode | BLinkTree/src/nodeIO.cpp:107-122 | the free-space pointer moves on by one node, and its old value is returned |
| BLinkTreeClass.RootCovers | BLinkTree/src/nodeIO.cpp:95-105 | the node at the stored root offset covers every key |
| BLinkFile.FreeIsFresh | BLinkTree/src/nodeIO.cpp:107-122 | the offset that the allocator gives out next belongs to no node |
| BLinkTreeClass.DescentCovers | BLinkTree/src/tree.cpp:81-96 | in a tree with every node posted, child pointers alone lead to the leaf that covers the key |
| BLinkTreeClass.BLinkTree.Read | BLinkTree/src/tree.cpp:59-116 | on any tree of any height with nothing pending, `read` ends and gives the stored value, or the empty value if the key is not stored |
| BLinkTreeClass.BLinkTree.Write | BLinkTree/src/tree.cpp:118-308 | on any tree of any height, `write` ends, keeps the tree well-formed, and the stored map becomes map[key := value], however many levels split; only the overwrite of a key in a full leaf is lost |
| BLinkTreeClass.BLinkTree.SplitUpwards | BLinkTree/src/tree.cpp:194-308 | from a full leaf upwards, the loop ends with every node posted again and exactly one new binding |
| BLinkTreeClass.BLinkTree.GrowOrPost | BLinkTree/src/tree.cpp:252-307 | the end of `write`, at the root or at a node with room, leaves nothing pending |
| BLinkTreeClass.BLinkTree.SplitAndAdd | BLinkTree/src/tree.cpp:221-240 | allocating, splitting, adding to one half and writing both is the split of the step machine |
| BLinkSafety.ThreadOkStays | BLinkTree/src/tree.cpp:118-308 | what a thread knows about its node, its stack and its separator stays true whatever other threads split or post |
| BLinkSafety.ActsAreGood | BLinkTree/src/tree.cpp:59-308 | every action of every thread changes only nodes under the thread's own write locks, and keeps what the thread knows |
| BLinkSafety.ActsStore | BLinkTree/src/tree.cpp:175-307 | every action keeps the B-link invariant, and the stored map changes only at the action that puts the binding into a leaf |
| BLinkRuns.NextKeepsSafe | BLinkTree/src/tree.cpp:59-308 | no step of any thread breaks the invariant: the tree, every thread's knowledge, exclusive locks, and every node posted except those that some thread still has to post |
| BLinkRuns.ReadAnswers | BLinkTree/src/tree.cpp:98-115 | in every interleaving, half-posted splits included, a read answers what the tree stores when it reads its last leaf |
| BLinkRuns.NextStores | BLinkTree/src/tree.cpp:175-250 | a step changes the stored map by at most one binding, that of the write the thread is in |
| BLinkRuns.RunStores | BLinkTree/src/tree.cpp:118-308 | over every run from the empty file, the file stores what the writes so far put into leaves, in that order |
| BLinkRuns.RunReads | BLinkTree/src/tree.cpp:59-116 | over every run, a read answers the last value stored for its key before it reads its last leaf |
| BLinkRuns.ReadsOnce | BLinkTree/src/tree.cpp:59-116 | over every run, a read answers at one step between its start and its end, with the last value stored by then for the key of its call |
| BLinkRuns.WritesOnce | BLinkTree/src/tree.cpp:118-308 | between its start and its end, a write puts the binding of its own call into a leaf at exactly one step, unless that step swallows it, and stores nothing at its other steps |
| BLinkProgress.WaitsUpwards | BLinkTree/src/tree.cpp:86-93 | a thread that waits holds at most one lock, on a node exactly one level below the one it waits for |
| BLinkProgress.BlockedBelow | BLinkTree/src/tree.cpp:205-217 | a thread blocked by a waiting thread waits for a lower node than that one |
| BLinkProgress.NoDeadlock | BLinkTree/src/tree.cpp:141-249 | from any waiting thread, following who blocks whom ends at a thread that can take a step, or at one that crashed with its lock held |
| BLinkProgress.WalksGoOn | BLinkTree/src/tree.cpp:81-110 | from the node it holds, a thread goes down exactly one level or further right on the level, and a writer remembers the nodes it came through |
| BLinkProgress.CrashesExactlyWhen | BLinkTree/src/tree.cpp:201-203 | a writer pops its empty stack exactly if it has to split the node that was the root when it started and the root has grown since |
| BLinkProgress.SplitNodeIsPosted | BLinkTree/src/tree.cpp:209-224 | a node that is about to be split has itself been posted |
| BLinkProgress.ParentHoldsChild | BLinkTree/src/tree.cpp:209-243 | in every interleaving, the parent that the writer ends at holds the split child, and the separator lies strictly inside that child's slot and is not there yet |
| BLinkHeight.ActsKeepFilled | BLinkTree/src/node.c:90-118 | every action keeps L keys in each leaf and L children in each internal node below the root |
| BLinkHeight.RunFilled | BLinkTree/src/tree.cpp:252-307 | so it is in every state of every run |
| BLinkHeight.UnderSize | BLinkTree/src/node.c:90-118 | below a node at level l that is not the root lie at least L^(l+1) keys |
| BLinkHeight.HeightBound | BLinkTree/src/tree.cpp:252-307 | a tree with h >= 1 levels above the leaves stores at least 2 * L^h keys |
| BLinkReads.ReadAsWritten | BLinkTree/src/tree.cpp:98-115 | the read as written is right exactly if no stale slot answers for a key in the range of its last leaf, and for the high key of that leaf exactly if the stale slot answers what the next leaf stores |
| BLinkReads.LookupAfterSplit | BLinkTree/src/node.c:84-109 | right after the split of any full leaf, the unguarded lookup of its high key gives what the right leaf stores |
| BLinkReads.LookupAfterInsert | BLinkTree/src/node.c:59-76 | after one more insertion below the high key it gives nothing |
| BLinkReads.ChildAfterSplit | BLinkTree/src/node.c:84-119 | right after the split of any full internal node, the unguarded lookup of its high key gives the first child of the right half |
| BLinkExamples.OverwriteIsLost | BLinkTree/src/tree.cpp:185-193 | a run from the empty file, for every L, in which an overwrite is lost |
| BLinkExamples.ReadAsWrittenCanMiss | BLinkTree/src/tree.cpp:98 | a run after which a reader ends, by the loop as written, in a leaf without its key although the tree stores it, and one insertion has shifted the slot behind the last key |
| BLinkExamples.WriteCanCrash | BLinkTree/src/tree.cpp:201-203 | a run in which a writer finds its stack empty, because the root grew after it had read the root offset |
| RaftElection.QuorumsMeet | DB/internal/raft/middleware.go:243 | any two sets of `len(OtherIp)/2 + 1` nodes have a node in common exactly if the number of nodes is odd |
| RaftElection.HandleDecideInv | DB/internal/raft/raftapi.go:317-338 | the second half of the vote handler gives at most one vote per voter and term |
| RaftElection.DecidesExactlyWhen | DB/internal/raft/raftapi.go:317-338 | a vote is given exactly if the candidate's log is not behind the voter's and its term is above the loaded one, or equal to it with the vote already given to this candidate; then the voter is a slave of that term |
| RaftElection.RolesChange | DB/internal/raft/middleware.go:74-89 | a node stands for election only as a slave, becomes master only by winning, and a master becomes nothing but a slave |
| RaftElection.ElectionSafety | DB/internal/raft/middleware.go:229-274 | with the three changes, in every odd cluster and every run, at most one node becomes master in a term, and two masters have different terms |
| RaftElection.VotesFollowLogs | DB/internal/raft/raftapi.go:318-338 | in every run, also of the code as written, a vote goes only to a candidate whose committed log, when it started the election, was not behind the voter's |
| RaftRepairs.WithoutRecordSelf | DB/internal/raft/middleware.go:240-241 | without the candidate's recorded vote, three nodes can elect two masters in one term |
| RaftRepairs.WithoutRecheck | DB/internal/raft/middleware.go:265-269 | without a check of the term before winning, they can as well |
| RaftRepairs.WithoutLockStart | DB/internal/raft/middleware.go:229-230 | and without the vote handler's lock around the start of an election, too |
| RaftRepairs.SafeExactlyIfRepaired | DB/internal/raft/middleware.go:229-274 | at most one master per term in all odd clusters and runs, exactly if all three changes are made |
| RaftVoting.DecidedIsTwoSteps | DB/internal/raft/raftapi.go:315-338 | the handler without interruption is the two vote steps of the election machine |
| RaftVoting.VotesExactlyWhen | DB/internal/raft/raftapi.go:317-338 | the handler without interruption says yes exactly then, and a no changes nothing |
| RaftVoting.HandleIsReplicate | DB/internal/raft/raftapi.go:114-173 | what the message handler does to term and role is the message step of the election machine, or nothing |
| RaftVoting.MiddleWare.HandleVoteRequest | DB/internal/raft/raftapi.go:290-354 | a vote changes term, state and favourite exactly if the candidate's term and log allow it; otherwise nothing changes |
| RaftVoting.MiddleWare.Elect | DB/internal/raft/middleware.go:229-274 | the node becomes master exactly if the answers before the time-out give it a quorum of different voters |
| RaftLog.ChainGrows | DB/internal/logger/logger.go:157-176 | appending a filed entry keeps every index and every reference to the preceding entry right |
| RaftLog.ChainAt | DB/internal/logger/logger.go:160-174 | entry i has index i and names index and term of entry i - 1 |
| RaftLog.NumberedIsFiled | DB/internal/logger/logger.go:160-174 | in a chain, numbering an entry from the last uncommitted or the last committed one gives it its place in the whole log |
| RaftLog.LenIsLength | DB/internal/logger/logger.go:206-214 | in a chain, the length computed from the last index is the number of committed entries |
| RaftLog.Logger.InitOrRestore | DB/internal/logger/logger.go:123-151 | a new log is empty |
| RaftLog.Logger.LogOp | DB/internal/logger/logger.go:157-176 | exactly one entry is added behind the uncommitted ones; with an op, in a chain, it has index and predecessor of its place |
| RaftLog.Logger.LogCommit | DB/internal/logger/logger.go:178-195 | the first uncommitted entry moves to the end of the file; without one nothing changes |
| RaftLog.Logger.LastOp | DB/internal/logger/logger.go:199-204 | the last committed entry, or the empty one |
| RaftLog.Logger.LenCommited | DB/internal/logger/logger.go:206-214 | in a chain the number of committed entries, although it is computed from the last index |
| RaftLog.Logger.FlushUncommited | DB/internal/logger/logger.go:216-222 | only uncommitted entries are dropped, and the log stays a chain |
| RaftLog.Logger.LenUncommited | DB/internal/logger/logger.go:225-236 | the number of all entries |
| RaftReplica.HandleKeepsReplay | DB/internal/raft/raftapi.go:176-193 | whatever message arrives, the committed log only grows and the store stays its replay; the log stays a chain if the entry has an op |
| RaftReplica.HandleAnswers | DB/internal/raft/raftapi.go:114-217 | a message is refused exactly if its term is lower, or a master's own, or its kind unknown to a slave; otherwise the replica ends as a slave of its term; an answer tells the whole length and whether all is committed; a heartbeat touches neither log nor store |
| RaftReplica.StoreIsReplay | DB/internal/raft/raftapi.go:367-378 | after any messages in any order with any repetitions, the store is the replay of the committed log from empty |
| RaftReplica.ReplayIsLast | DB/internal/raft/raftapi.go:367-378 | the replay binds a key to a value exactly if the last entry about the key creates or updates it with that value |
| RaftReplica.MiddleWare.ApplyToStore | DB/internal/raft/raftapi.go:367-378 | create and update bind the key, delete removes it, anything else changes nothing |
| RaftReplica.MiddleWare.StoreEntry | DB/internal/raft/raftapi.go:178-184 | the entry becomes the only uncommitted one exactly if it is the first or names the last committed one |
| RaftReplica.MiddleWare.HandleReplicate | DB/internal/raft/raftapi.go:90-229 | the handler, branch by branch, is the message step of the replication machine |
| RaftReplication.AcceptsWhat | DB/internal/raft/raftapi.go:178 | of the master's entries, a follower stores the next one after its committed log, and entry 0 if it has committed exactly one entry |
| RaftReplication.AppendIsFaithful | DB/internal/raft/raftapi.go:178-184 | a delivered append keeps the follower's whole log a prefix of the master's exactly if it is not a late entry 0, or entry 1 repeats entry 0 |
| RaftReplication.CommitOutcome | DB/internal/raft/raftapi.go:185-193 | a commit appends exactly the named entry if it is the next one, and otherwise leaves the committed log alone or stops the process, and exactly when |
| RaftReplication.HandleFollowerOk | DB/internal/raft/raftapi.go:114-217 | any message of the master leaves a follower with a prefix of the master's committed log |
| RaftReplication.ChooseOk | DB/internal/raft/middleware.go:138-181 | the entry for a peer is read inside the logs, and a commit always names the entry at CommitLen |
| RaftReplication.ChoosesExactly | DB/internal/raft/middleware.go:138-181 | a session sends the commit at CommitLen, else the append at SentLen, with just that index, and a heartbeat exactly if it is the first one or both counts are up to date |
| RaftReplication.CollectsExactly | DB/internal/raft/middleware.go:202-213 | an answer within the master's lengths raises SentLen, and if acknowledged CommitLen, to the length it tells, and lowers nothing |
| RaftReplication.AppendSession | DB/internal/raft/middleware.go:166-206 | a slave that has committed what was sent to it holds, after one session, exactly the next entry uncommitted, and SentLen has gone up by one |
| RaftReplication.CommitSession | DB/internal/raft/middleware.go:138-212 | a slave that has committed CommitLen entries commits, in one session, exactly the next one, and CommitLen goes up by one |
| RaftReplication.HeartbeatSession | DB/internal/raft/middleware.go:176-213 | a heartbeat changes only the term of a slave and tells the master the length of its log |
| RaftReplication.DoOk | DB/internal/raft/middleware.go:92-226 | every step of the master, a follower or the network keeps the invariant |
| RaftReplication.CommittedPrefix | DB/internal/raft/middleware.go:123-213 | in every state of every run with one stable master, each follower's committed log is a prefix of the master's, its store is the replay of it, and CommitLen does not exceed it |
| RaftReplication.StopsExactlyWhen | DB/internal/raft/raftapi.go:185-188 | a delivery stops a follower exactly if it is a commit of an entry committed before, other than a repetition of the last one with nothing uncommitted and more than one entry |
| RaftReplication.LateAppendIsCounted | DB/internal/raft/middleware.go:202-206 | a late entry 0 is acknowledged and counted in SentLen as entry 1 |
| RaftReplication.LateAppendHappens | DB/internal/raft/middleware.go:166-206 | a concrete run after which the master counts an entry as sent that the follower does not have |
| RaftReplication.FirstCommitTwice | DB/internal/raft/raftapi.go:185-188 | a concrete run in which the first commit arrives twice and stops the follower |
| RaftQuorum.SortOk | DB/internal/rest/api.go:361-362 | sorting keeps how many lengths reach each value |
| RaftQuorum.Values | DB/internal/rest/api.go:361 | the lengths are collected once each, in any order |
| RaftQuorum.MinSentLenQuorum | DB/internal/rest/api.go:359-364 | the result is the middle length by counting; without any length it fails |
| RaftQuorum.MiddleIsQuorumLen | DB/internal/rest/api.go:359-364 | with at least 2m - 1 of 2m peers known, it is exactly the maximum over the majorities with the master of the minimum acknowledged length |
| RaftQuorum.MajorityExactlyWhen | DB/internal/rest/api.go:359-364 | for all lengths, a majority has acknowledged the result exactly if at least 2m - 1 peers are known |
| RaftQuorum.NextKeeps | DB/internal/rest/api.go:95-121 | requests, answers and waking handlers keep the commit invariant |
| RaftQuorum.CommitsByMajority | DB/internal/rest/api.go:103-121 | in every run, with any number of waiting handlers, what was committed since the master took over is acknowledged by a majority, as long as handlers wake with at least 2m - 1 peers known |
| RaftQuorum.AcknowledgeRaises | DB/internal/raft/middleware.go:202-213 | an acknowledgement raises the peer's length to the one acknowledged and changes no other |
| RaftQuorum.AlwaysByMajorityExactlyWhen | DB/internal/rest/api.go:103-121 | without any assumption on who has answered, all runs commit by majorities exactly if there are two peers |
| LockFreeStack.ChainUnique | LockFreeStack/src/lock_free_stack.hpp:5-11 | following the next pointers from the head gives one chain, without cycles |
| LockFreeStack.SuccessMeansUntouched | LockFreeStack/src/lock_free_stack.hpp:40-46 | a compare-and-swap succeeds only if the head has not changed at all since it was loaded, whatever addresses were reused |
| LockFreeStack.ComparesEqualExactlyWhen | LockFreeStack/src/lock_free_stack.hpp:38 | without a bound on the window, the comparison succeeds exactly if the address is the head again after a multiple of 2^64 changes |
| LockFreeStack.PushTakesEffect | LockFreeStack/src/lock_free_stack.hpp:32-48 | the successful swap of a push puts the argument of the push on top of the atomic stack |
| LockFreeStack.PopTakesEffect | LockFreeStack/src/lock_free_stack.hpp:50-65 | the successful swap of a pop takes the top off the atomic stack, although `next` was read without protection |
| LockFreeStack.DoKeeps | LockFreeStack/src/lock_free_stack.hpp:32-68 | every step keeps the invariant and the refinement |
| LockFreeStack.Linearizable | LockFreeStack/src/lock_free_stack.hpp:32-68 | in every interleaving, memory holds exactly the atomic stack after the operations that took effect, each of them legal, with empty pops from an empty stack only |
| LockFreeStack.PushesOnce | LockFreeStack/src/lock_free_stack.hpp:32-48 | in every run, a push of v that has started and ended has pushed v at exactly one of its own steps |
| LockFreeStack.PopsOnce | LockFreeStack/src/lock_free_stack.hpp:50-68 | in every run, a pop that has ended has popped at exactly one of its own steps: nothing from a stack empty right then, or the value that it returns |
| LockFreeStack.FailsOnlyIfOvertaken | LockFreeStack/src/lock_free_stack.hpp:40-46 | a swap fails only spuriously or because another operation took effect since the load; then the present head is loaded |
| LockFreeStack.AloneSucceeds | LockFreeStack/src/lock_free_stack.hpp:36-46 | with the present head loaded, a thread that nobody overtakes succeeds at its next swap |
| LockFreeStack.AlwaysGoesOn | LockFreeStack/src/lock_free_stack.hpp:32-68 | a thread in the middle of an operation always has a next step |
| LockFreeStack.Conserved | LockFreeStack/src/lock_free_stack.hpp:32-68 | what was pushed is what was popped and what is still there |
| LockFreeStack.PopReturnsItsValue | LockFreeStack/src/lock_free_stack.hpp:61-63 | a pop returns the value that its swap removed; the node that it reads and deletes is allocated and belongs to no other thread |
| LockFreeStack.NothingLeaks | LockFreeStack/src/lock_free_stack.hpp:32-68 | with no operation under way, the allocated nodes are those on the stack |
| TicketLock.InFlight | SpinLock/src/TicketLock.hpp:9-22 | no more tickets are out than there are threads |
| TicketLock.PollMeansTurn | SpinLock/src/TicketLock.hpp:12-16 | with at most 2^64 threads, reading one's own ticket means that it is one's turn |
| TicketLock.FirstComeFirstServed | SpinLock/src/TicketLock.hpp:9-18 | threads enter in exactly the order of their fetch_add |
| TicketLock.OneCanEnter | SpinLock/src/TicketLock.hpp:9-22 | when tickets are out and nobody is inside, a poll enters exactly for the thread that waited longest |
| TicketLock.TooManyThreads | SpinLock/src/TicketLock.hpp:5-6 | with more than 2^64 threads there is a run with two of them inside |
| TicketLock.ExclusiveExactlyWhen | SpinLock/src/TicketLock.hpp:9-22 | in every interleaving at most one thread is inside, exactly if there are at most 2^64 threads |
| ThreadPool.StealPlaces | ThreadPool/src/thread_pool.hpp:54-98 | a steal moves at most one task, from the back of the longer queue to the thief or to the front of the shorter one |
| ThreadPool.StealBalances | ThreadPool/src/thread_pool.hpp:76-97 | a steal never makes the two queues less equal, and the stealing thread gets a task exactly if its own queue is the shorter one |
| ThreadPool.QueuesInOrder | ThreadPool/src/thread_pool.hpp:54-168 | in every step a queue loses only its back or gains only at its front, so tasks leave it in the order in which they came |
| ThreadPool.WorkerLooks | ThreadPool/src/thread_pool.hpp:32-51 | a worker runs the task that has been in its queue longest, steals only if there is none, looks again after a failure, and ends only by exiting; what it submits goes to its own queue |
| ThreadPool.StealsInOrder | ThreadPool/src/thread_pool.hpp:54-98 | a thief locks its two queues, the lower one first, and only then takes what the steal gives |
| ThreadPool.SubmitsThere | ThreadPool/src/thread_pool.hpp:158-168 | a task from outside goes to the front of the chosen queue |
| ThreadPool.StepPlaces | ThreadPool/src/thread_pool.hpp:32-168 | a step moves tasks between queues, hands and done, and adds one only when it is submitted |
| ThreadPool.NoTaskTwice | ThreadPool/src/thread_pool.hpp:32-168 | in every interleaving, each submitted task is in exactly one place, and none is run twice |
| ThreadPool.ExclusiveStays | ThreadPool/src/thread_pool.hpp:73-74 | no two threads hold one mutex |
| ThreadPool.WaitsUpwards | ThreadPool/src/thread_pool.hpp:64-74 | a thread waits for a queue after those that it has locked |
| ThreadPool.NoDeadlock | ThreadPool/src/thread_pool.hpp:64-74 | from any waiting thread, the chain of holders ends at a thread that can go on |
| MatrixMultiplier.MultiplyV1 | MatrixMultiplier/src/MultiplierVersions/V1.cpp:3-19 | every cell adds its n products in ascending order to what it held; other sizes are refused |
| MatrixMultiplier.MultiplyV2 | MatrixMultiplier/src/MultiplierVersions/V2.cpp:3-19 | the loops in the order i, k, j give the same cells |
| MatrixMultiplier.MultForThread | MatrixMultiplier/src/MultiplierVersions/V3.cpp:29-39 | the cells of the given rows, and no other row, change like that |
| MatrixMultiplier.RowsPartitioned | MatrixMultiplier/src/MultiplierVersions/V3.cpp:13-20 | for every size and every number of threads from 1 on, each row belongs to exactly one thread |
| MatrixMultiplier.ApartRows | MatrixMultiplier/src/MultiplierVersions/V3.cpp:17-20 | two running threads are never at the same row |
| MatrixMultiplier.StepOk | MatrixMultiplier/src/MultiplierVersions/V3.cpp:29-39 | each load and store of a thread keeps every cell at the terms its owner has added |
| MatrixMultiplier.V3IsV1 | MatrixMultiplier/src/MultiplierVersions/V3.cpp:6-27 | however the threads interleave, after the joins V3 has the matrix of V1 and V2 |
| MatrixMultiplier.RunsEndJoined | MatrixMultiplier/src/MultiplierVersions/V3.cpp:17-24 | every run has at most as many steps as there are loads and stores, and can go on exactly as long as not all threads are joined |
| MatrixMultiplier.CellIsDot | MatrixMultiplier/src/MultiplierVersions/V1.cpp:10-16 | over the reals a cell is what it held plus the inner product |
| MatrixMultiplier.ProductExactlyWhen | MatrixMultiplier/src/matrix.hpp:72-76 | over the reals the result is the product exactly if the memory behind the cleared first row was zero |

## Left out

- BLinkTreeClass.BLinkTree.Read: takes the guarded lookups, where a slot behind the last key is never compared; `BLinkBuffer` states exactly when the unguarded ones differ.
- BLinkTreeClass.BLinkTree.Write: takes the internal split with all children, which the code has exactly for L up to 8.
- BLinkTreeClass.BLinkTree.SplitUpwards: takes the internal split with all children.
- BLinkTreeClass.BLinkTree.GrowOrPost: takes the internal split with all children.
- BLinkTreeClass.BLinkTree.SplitAndAdd: takes the internal split with all children.
- BLinkTreeClass.DescentCovers: takes the guarded child lookup.
- BLinkNode.SplitInternalShape: for the internal split with all children, as it was meant; `BLinkBuffer.SplitKeepsChildren` says when the code has it.
- BLinkNode.SplitInternalFenced: for the internal split with all children, as it was meant.
- BLinkFile.LeafDecides: for the guarded lookup; `BLinkReads.ReadAsWritten` has the unguarded one.
- BLinkParents.ChildCovers: for the guarded child lookup; `BLinkBuffer.BTNode.ChildByKey` says when the code gives the same child.
- BLinkRuns.ReadAnswers: for a read that moves right on high_key <= key and takes guarded lookups; `BLinkReads.ReadAsWritten` has the end of the read as it is written.
- BLinkRuns.RunReads: for the same read.
- BLinkProgress.NoDeadlock: a writer that crashed on its empty stack keeps its lock, so threads behind it wait for ever; no claim of fairness is made.
- RaftElection.ElectionSafety: for the code with three changes; for the code as written the property is false, as `RaftRepairs` shows.
- RaftQuorum.CommitsByMajority: for runs in which handlers wake with at least 2m - 1 of the 2m peers known; otherwise it is false for m > 1, as `RaftQuorum.AlwaysByMajorityExactlyWhen` shows.
- RaftReplication.CommittedPrefix: one master that stays master; followers may time out, stand for election, raise their terms and flush in between.
- The branches of `read` and `write` for an internal node without a child (tree.cpp:83-85, 132-137): `btnodeChildByKey` returns INVALID_OFFSET for leaves only.
- The byte layout of nodes, `pread` and `pwrite`, errno handling, and `erase` and `rebalance`, which are declared but not defined.
- The lock map: a lock exists for every offset.
- Leader completeness, crash and restart, and the recovery of a log file: elections look at committed lengths only, uncommitted entries are flushed, and the term is not stored.
- HTTP, JSON, addresses, timers and redirects of the store: messages are values, time-outs can happen at any moment.
- The order in which the master applies entries to its own store when several handlers wait.
- Reading `next` of a deleted node in the stack's pop: it gives any value; that such a read is undefined in C++ is not modelled. The destructor, and the value that pop returns for an empty stack, are not modelled either.
- Weak memory orders everywhere.
- Shutdown and exceptions of the thread pool: a steal can move a task to the queue of a worker that has ended, so not all tasks need run before the destructor returns.
- V4 of the matrix multiplication, floating-point rounding, and loading matrices from files.
- TASLock and TTASLock, Ext2, Auditor, DistributedIntegral, WindowsSSHServer, cp and lsof.
