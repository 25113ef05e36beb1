# Kore in Dafny

A model of the algorithmic cores of Kore, a Redis-compatible server, and proofs of what they promise.
`dafny verify dfyconfig.toml` checks the whole project. Each group of files models one part of the
server and proves it against an independent reading of what it is for.

- **Sorted sets** (`ScoreOrder`, `SkipLevels`, `SkipList`, `SortedSet`): the span skiplist, an arena with a
  free list, refines a plain sorted sequence for every drawn height. The invariant is the one the code
  keeps: a link with a successor spans the exact distance, and an end-of-level span is the number of
  nodes left or one more. That is what makes the span subtraction of insert safe. The order itself is
  stated in numbers and bytes, and so is what a range returns.
- **Deadlock detection** (`WaitForGraph`, `Lassos`, `LockRecords`, `CycleSearch`, `LassoSearch`,
  `SnapshotMerge`, `DeadlockSnapshots`, `DeadlockDetector`, `TimedLocks`): the incrementally kept wait-for
  edges are the ones the lock and wait maps define, depth-first search reports a deadlock exactly when there is one, repeated
  resolution ends, and two processes that exchange snapshots agree and see every spanning cycle. Over
  any list of calls with their own times and times to live, detection and the choice of a victim are
  stated in terms of the calls alone.
- **Glob matching** (`Glob`, `GlobPatterns`, `GlobMatchers`): single-checkpoint backtracking equals a
  declarative matching relation for two matchers, and for the third exactly on texts without a star;
  elsewhere it errs on the side of refusing. The relation is that the pattern is written from pieces
  and the text can be cut into stretches that they stand for.
- **DUMP payloads** (`BitWords`, `CrcPolynomial`, `Crc64`, `RdbCodec`, `RdbObjects`,
  `RdbDump`, `RdbIntegers`, `RdbWire`, `RdbCursor`): the table-driven CRC is the bit-serial one,
  encodings are self-delimiting and round-trip, any change within eight consecutive bytes is rejected,
  and a byte string decodes to an object exactly when a grammar of the format says that it writes it.
- **Streams** (`StreamIds`, `ConsumerGroups`, `AutoClaimWalk`, `Streams`, `StreamDelivery`,
  `StreamMessages`, `StreamTrims`, `StreamAutoClaim`, `GroupSteps`, `StreamSpecs`, `StreamClaimSpecs`,
  `StreamSnapshots`, `StreamSnapshotLaws`, `RedisStream`, `StreamExamples`):
  the stream as a state machine with every operation, its invariants over whole runs, when deliveries to
  a consumer group are in turn and when no message is lost, complete autoclaim scans, and saving and
  reloading through a DUMP payload. Each method also meets a description of its effect on entries,
  pending lists and consumers that names no step of the machine.
- **Search** (`Postings`, `SearchSchema`, `SearchFields`, `SearchIndex`, `SearchLaws`): every index stays
  the one a rebuild would give, and filters answer what a scan of the documents would, with one law for
  each kind of filter.
- **Keyspace replacement** (`KeyspaceReplace`, `Databases`): any number of replacing and reading
  processes over the epoch lock, with panics and rollback; and the same operation run by one thread.
- **ACL users** (`AclText`, `AclUsers`, `AclStore`, `AclRules`, `AclExamples`): when printing and loading,
  down to characters, brings every user back after any run, that what a user's listed rules say is what
  is enforced, and that of any list of rules the last one on each matter settles it.
- **Fair queue** (`WaitingLine`, `FairQueue`, `FairQueueOrder`): order, bound, conservation, fairness and the error of the
  running average.

Objects the server mutates are classes whose methods are proved against functions on values; the
laws are lemmas about those functions. Iteration over a hash map is a loop that picks an arbitrary
remaining key, so results hold for every iteration order.

## Where code and documentation differ

The model follows the code. Each difference has a lemma that shows it and one that says exactly when
the documented property holds.

- The span field is documented as a count of skipped nodes. Removing the last key leaves the new last
  node's span one too large, for good (`OneInOneOut`, `Remove`, `Run`).
- A deadlock's client list is documented as the cycle. It is the whole search path, which may start
  outside the cycle (`StemIsReported`, `LassoIsCycleIff`, `SearchLeading`); a victim from there resolves nothing
  (`StemVictimLeavesCycle`).
- The ACL matcher tries a literal match before a star, so it misses matches on texts that contain a
  star (`StarInText`, `AclAgreesIff`). It never accepts what does not match (`AclRunAccepts`).
- A generated stream ID is documented as strictly greater than the last. It saturates
  (`SaturatedIdRepeats`, `AutoIdGrowsIff`), and an addition may then overwrite a message that a group
  has not read, or be one that it never reads (`OverwrittenIsLost`, `NothingLostIff`).
- The successor of the maximal ID is itself, so that entry is delivered again (`MaxIsRedelivered`,
  `RedeliversIff`, `DeliveriesInTurnIff`) and can keep an autoclaim scan from ending (`StuckOnMax`,
  `ScanClaimsAll`).
- Trimming debits whichever consumer it meets first with something pending, not the owner
  (`TrimMiscounts`, `EvictedCountsIff`, `RunKeepsInv`, `TrimsCountIff`). Reloading repairs the counters
  (`SavedComesBackIff`).
- A negated text query on a field without an index finds nothing instead of everything
  (`NegationMisses`, `NegationIff`).
- Saving and loading does not bring back a table with white space in a name, password or pattern
  (`SpacedRuleLost`, `RunSaveLoadIff`). The file may fail to load (`SpacedPatternLost`), or load as
  another table: a line break in a pattern can spell a user whom nobody set (`PhantomUser`).
- The fair queue is documented as first come, first served and free of starvation. It goes by priority
  first (`Starves`, `ByArrivalIff`, `HighestKeepsPlace`). Dequeuing a client by name is documented to
  take the front only, and takes the client from any place (`TakenFromBehind`, `DequeueClient`).
- The load flag is documented as up during every replacement. When two overlap, the first to end
  lowers it (`OverlapLowersFlag`, `FlagStepIff`, `FlagRunIff`). The replacing method asks for exclusive access in its
  own documentation (src/databases.rs:236), so this concerns callers that do not heed it.

## Model

| member | source | states |
|---|---|---|
| ScoreOrder.LessIsStrictTotalOrder | src/sorted_set.rs:174-214 | The (score, member) order is irreflexive, transitive and total. |
| ScoreOrder.LessIff | src/sorted_set.rs:174-214 | What the order is, in numbers and bytes: the lower number first, minus infinity before and infinity after every number, NaN last of all, and among equal scores the member that is a proper prefix of the other or has the lower byte at the first difference. |
| ScoreOrder.MemberLessIff | src/sorted_set.rs:174-214 | Members compare at the first byte where they differ; a proper prefix comes first. |
| ScoreOrder.PositionSplits | src/sorted_set.rs:293-298 | In a sorted list exactly the keys below the position are less than the searched key. |
| ScoreOrder.PositionFinds | src/sorted_set.rs:388-408 | A key that is in a sorted list stands at its position; a key that is not, does not. |
| ScoreOrder.InsertedSorted | src/sorted_set.rs:301-344 | Insertion keeps the list sorted and adds exactly the key, as multisets. |
| ScoreOrder.WithoutSorted | src/sorted_set.rs:347-385 | Removal keeps the list sorted and takes out exactly the key at the position. |
| ScoreOrder.SortedIsUnique | src/sorted_set.rs:150-155 | Two sorted lists with the same elements are the same list. |
| SkipLevels.SpanCovers | src/sorted_set.rs:333-334 | The distance to the insertion point never exceeds the stored span, end-of-level slack included, so the subtraction does not underflow. |
| SkipLevels.LinkedOk | src/sorted_set.rs:330-336 | Linking a node into a level keeps the level invariant. |
| SkipLevels.LinkedExact | src/sorted_set.rs:330-336 | Linking neither makes nor removes slack: the end-of-level spans are exact afterwards if and only if they were. |
| SkipLevels.BumpedOk | src/sorted_set.rs:338-341 | Counting a node into the link above it keeps the level invariant. |
| SkipLevels.UnlinkedOk | src/sorted_set.rs:370-377 | Unlinking with the saturating decrement keeps the level invariant: exact spans inside, at most one too many at the end. |
| SkipLevels.UnlinkedExact | src/sorted_set.rs:370-377 | After a removal end-of-level spans are exact if and only if they were before and it did not remove the last node where that node reaches the level. |
| SkipLevels.LinkAtCut | src/sorted_set.rs:370-374 | Where the removed node was a link's target, the merged link is right for the shorter list. |
| SkipLists.SkipList.Walk | src/sorted_set.rs:304-315 | One level of the descent stops at the last node below the key, with its exact rank. |
| SkipLists.SkipList.FindPath | src/sorted_set.rs:302-317 | The whole descent returns, for every level, the last node below the key and its rank. |
| SkipLists.SkipList.Alloc | src/sorted_set.rs:275-284 | A slot is taken from the free list or appended; it was not in use and no node in use changes. |
| SkipLists.SkipList.Raise | src/sorted_set.rs:319-327 | New top levels start as empty levels over the whole list. |
| SkipLists.SkipList.LinkIn | src/sorted_set.rs:329-341 | The linking loop never underflows and leaves every level spliced at the insertion point. |
| SkipLists.SkipList.Insert | src/sorted_set.rs:301-344 | For every drawn height: the keys become the old keys with the new one inserted, the whole invariant holds (arena, towers, sub-chains, spans, sorted level 0), and slack at the end is neither made nor removed. |
| SkipLists.SkipList.Unlink | src/sorted_set.rs:370-377 | The unlinking loop leaves every level with the node cut out. |
| SkipLists.SkipList.Lower | src/sorted_set.rs:380-382 | Dropping empty top levels changes no other level. |
| SkipLists.SkipList.Remove | src/sorted_set.rs:347-385 | The keys lose exactly the given key if it was there; the invariant holds; spans that were exact stay exact if and only if nothing was removed or the removed key was not the last; and slack on level 0 never goes away. |
| SkipLists.SkipList.Run | src/sorted_set.rs:301-385 | Over every run of insertions and removals from an exact list, the spans are exact if and only if no removal took the last key. |
| SkipLists.SkipList.RankOf | src/sorted_set.rs:388-408 | Returns the position in the sorted sequence, or nothing exactly when the key is absent. |
| SkipLists.SkipList.GetByRank | src/sorted_set.rs:414-433 | Returns the key at the rank, or nothing exactly when the rank is out of range; inverse of the rank. |
| SkipLists.SkipList.GroundSpan | src/sorted_set.rs:221-223 | On an empty list the head spans at most one node on level 0, and the list is exact if and only if it spans none. |
| SkipLists.OneInOneOut | src/sorted_set.rs:221-223 | Inserting one key and removing it leaves a head span of 1 on an empty list, against the comment that a span counts skipped nodes. |
| SortedSets.RemoveMemberKeeps | src/sorted_set.rs:499-507 | Taking a member out of the sequence keeps it sorted and removes nothing else. |
| SortedSets.DeletedIsRemoveMember | src/sorted_set.rs:499-507 | Deleting the pair recorded in the map is taking the member out of the sequence. |
| SortedSets.AgreeWith | src/sorted_set.rs:479-497 | Map and sequence still hold the same pairs after a member is written to both. |
| SortedSets.ReinsertSame | src/sorted_set.rs:483-490 | Removing a member and inserting it with its own score gives the same sequence. |
| SortedSets.AgreeCounts | src/sorted_set.rs:513-515 | Map and sequence have the same size. |
| SortedSets.HistoryIndependent | src/sorted_set.rs:479-643 | Two sets holding the same map hold the same sequence, whatever heights and histories led there. |
| SortedSets.SortedSet.Add | src/sorted_set.rs:479-497 | Adds or moves the member, says whether it was new, and keeps map and skiplist in agreement. |
| SortedSets.SortedSet.Remove | src/sorted_set.rs:499-507 | Removes exactly the member from both structures and says whether it was there. |
| SortedSets.SortedSet.Rank | src/sorted_set.rs:617-621 | The number of pairs before the member's own, which is its index in the sorted sequence; nothing for a non-member. |
| SortedSets.SortedSet.RevRank | src/sorted_set.rs:624-627 | The member's index in the mirrored sequence. |
| SortedSets.SortedSet.Range | src/sorted_set.rs:528-578 | The slice of the sequence, or of its mirror image, between the normalised indices; and in numbers, every score in it is at most the next, or at least in reverse, NaN last, or first in reverse. |
| SortedSets.IntervalIff | src/sorted_set.rs:528-545 | A rank is in the normalised interval if and only if it is at or after the start and at or before the stop, negative indices counted from the end. |
| SortedSets.RankCounts | src/sorted_set.rs:617-621 | In a sorted sequence that agrees with the map, an index is the number of members before the one there. |
| SortedSets.RangeByScore | src/sorted_set.rs:528-578 | Every slice of a sorted sequence has its numeric scores ascending, infinities and NaN at their ends; its mirror image has them descending. |
| SortedSets.SortedSet.PopMin | src/sorted_set.rs:581-594 | Returns the lowest pairs in order and leaves the rest. |
| SortedSets.SortedSet.PopMax | src/sorted_set.rs:597-614 | Returns the highest pairs, highest first, and leaves the rest. |
| SortedSets.SortedSet.RemoveRangeByRank | src/sorted_set.rs:629-643 | Removes exactly the normalised interval and returns its size. |
| SortedSets.SortedSet.Run | src/sorted_set.rs:479-643 | Over every run of operations with any heights, the skiplist holds what the same run does to a plain sorted sequence, and the map agrees with it. |
| WaitForGraph.NextKeepsIndexed | src/deadlock.rs:278-402 | Every local step keeps the edge set equal to {(w, r, holder of r) : w waits for r and r is held}. |
| WaitForGraph.AcquiredKeepsIndexed | src/deadlock.rs:278-339 | An acquisition redirects and relinks exactly the edges the new holder requires. |
| WaitForGraph.NextKeepsSound | src/deadlock.rs:278-402 | Every local step keeps each edge's holder a real holder of its resource. |
| WaitForGraph.RunIsIndexed | src/deadlock.rs:278-402 | In every run of local steps the incrementally kept edges are the ones the two plain maps define. |
| WaitForGraph.IndexedCycles | src/deadlock.rs:457-476 | With indexed edges, the graph has a directed cycle if and only if the two maps have a circular wait. |
| WaitForGraph.LassoHasCycle | src/deadlock.rs:497-500 | The tail of a lasso from the return point is a directed cycle. |
| WaitForGraph.WalkFollowsLasso | src/deadlock.rs:497-500 | Where each client waits once, every walk from the lasso's start stays on the lasso. |
| WaitForGraph.SingleWaitLasso | src/deadlock.rs:497-500 | Where each client waits once, the reported list is a cycle if and only if the search started on one. |
| LassoSearch.BringForward | src/deadlock.rs:457-500 | The edges of any list of distinct clients that bites its own tail can be brought to the front of the edge list. |
| LassoSearch.SearchLeading | src/deadlock.rs:457-505 | With its edges in front, the search from its first client reports exactly that list; so every such list can be reported. |
| Lassos.LassoIsCycleIff | src/deadlock.rs:118-129 | Every list a search may report is the cycle it is documented to be if and only if each client on a cycle is waited for by one client only; for any number of waits. |
| Lassos.SimpleCycle | src/deadlock.rs:497-500 | Through every client on a cycle goes a cycle without repetition, which a search may report. |
| Lassos.StemVictimLeavesCycle | src/deadlock.rs:715-806 | Releasing a victim from the part of the list before the cycle leaves the reported cycle standing. |
| Lassos.CycleVictimBreaksCycle | src/deadlock.rs:715-806 | Releasing a victim on the cycle breaks it. |
| DeadlockDetectors.StemIsReported | src/deadlock.rs:118-129 | After a run of the detector, the search returns a list that starts with a client on no cycle. |
| WaitForGraph.WalkDescends | src/deadlock.rs:508-540 | Walks only go down the order in which clients are finished. |
| WaitForGraph.FinishedIsAcyclic | src/deadlock.rs:508-540 | No cycle passes through a finished client. |
| WaitForGraph.FinishedWalksOnce | src/deadlock.rs:508-540 | No walk from a finished client visits a client twice. |
| CycleSearch.BuildAdjacency | src/deadlock.rs:458-465 | The adjacency lists hold exactly the edges, each client's in the order of the edge list. |
| CycleSearch.DfsVisit | src/deadlock.rs:508-540 | A visit either returns a labelled lasso or finishes the client; a list that first edges lead along is the one returned; it terminates by the number of unvisited clients. |
| CycleSearch.FindCycle | src/deadlock.rs:479-505 | What is reported is a lasso of distinct clients from the start; nothing is reported only if no cycle can be reached from it; and a list from the start that each client's first edge leads along is the one reported. |
| CycleSearch.DetectFromGraph | src/deadlock.rs:457-476 | Deadlock is reported if and only if the edges have a directed cycle, with a lasso of distinct clients as evidence. |
| DeadlockDetectors.Redirect | src/deadlock.rs:296-316 | Edges for an acquired resource point at its new holder, without self-waits or duplicates, and keep their age; the others stay. |
| DeadlockDetectors.Relink | src/deadlock.rs:318-338 | Every other waiter of an acquired resource has an edge to the new holder, as old as the wait. |
| DeadlockDetectors.Detector.RecordLockAcquired | src/deadlock.rs:278-339 | The acquisition step of the wait-for machine; the hold has exactly this client, time and time to live, every other hold stays, exactly the client's waits for the resource go, and new edges are as old as the waits they belong to. |
| DeadlockDetectors.Detector.RecordLockReleased | src/deadlock.rs:355-373 | The release step; only the owner's release counts, takes exactly that hold, and leaves every wait as it was. |
| DeadlockDetectors.Detector.RecordLockWait | src/deadlock.rs:376-396 | The waiting step; exactly one wait with this time and time to live is added, its edge is as old, and holds stay. |
| DeadlockDetectors.Detector.RemoveFromWaiting | src/deadlock.rs:399-402 | The give-up step; exactly the client's waits go, and holds stay. |
| DeadlockDetectors.Detector.ReleaseClientLocks | src/deadlock.rs:772-806 | The force-release step; exactly the client's holds and waits go, and it returns exactly the resources the client held. |
| DeadlockDetectors.Detector.CleanupExpired | src/deadlock.rs:562-589 | Exactly the expired holds go, with exactly the edges on them or past the maximum wait, and exactly the waits that expired or were on them; soundness is kept. |
| DeadlockDetectors.Detector.DetectDeadlock | src/deadlock.rs:410-416 | After cleanup, Deadlock is reported if and only if what is left has a cycle, with a lasso of it; and what is left are exactly the holds, edges and waits that did not expire. |
| DeadlockDetectors.Tally | src/deadlock.rs:684-709 | Counts a client's locks and finds its earliest and latest acquisition. |
| DeadlockDetectors.PickVictim | src/deadlock.rs:715-734 | The chosen candidate is preferred by the strategy over every other. |
| DeadlockDetectors.Detector.ResolveDeadlock | src/deadlock.rs:675-735 | A victim is on the list, holds a lock, and is preferred over every other lock holder on it; there is none exactly when resolving is off or nobody on the list holds a lock. |
| DeadlockDetectors.Detector.ResolveAll | src/deadlock.rs:1124-1157 | From any sound state, for all three strategies and any clock, detect, resolve and release reaches an acyclic graph within as many rounds as locks were held. |
| DeadlockDetectors.Detector.CurrentStatus | src/deadlock.rs:428-454 | Without cleanup, Deadlock is reported if and only if the graph has a cycle, and on an indexed state if and only if the maps have a circular wait. |
| DeadlockDetectors.Detector.RunThenDetect | src/deadlock.rs:278-454 | After any run of local steps Deadlock is reported if and only if the two plain maps have a circular wait. |
| SnapshotMerge.MergeIdempotent | src/deadlock.rs:874-1073 | Merging a snapshot again changes nothing, from every state and for every snapshot. |
| SnapshotMerge.MergedIsSettled | src/deadlock.rs:906-928 | After a merge every edge points at the recorded holder and nobody waits for itself. |
| SnapshotMerge.ExportCarriesWaits | src/deadlock.rs:603-651 | The edges and orphans of an indexed export together carry every wait. |
| SnapshotMerge.MergeJoins | src/deadlock.rs:874-1073 | Merging an indexed peer whose holds agree gives the joint holders and the edges of the joint waits and holds, less self-waits. |
| SnapshotMerge.MutualMergeAgrees | src/deadlock.rs:874-1073 | Two such detectors that merge each other's export end with the same holders and edges. |
| SnapshotMerge.SpanningCycles | src/deadlock.rs:874-1073 | After the exchange a cycle is seen if and only if a circular wait spans the two processes. |
| DeadlockSnapshots.ExportHeld | src/deadlock.rs:608-616 | What a merge reads from the exported holds is exactly the holds with time left; each carries its client, its time to live and the whole milliseconds it has been held. |
| DeadlockSnapshots.ExportEdges | src/deadlock.rs:618-626 | Exactly the edges are exported, each with the whole milliseconds it has lasted. |
| DeadlockSnapshots.ExportOrphans | src/deadlock.rs:628-643 | Exactly the waits without an edge are exported, each with the whole milliseconds it has lasted. |
| DeadlockSnapshots.MergeHolds | src/deadlock.rs:881-902 | Local holds stay as they are; a remote hold of a free resource is added, with what is left of its time to live from now on. |
| DeadlockSnapshots.Reconcile | src/deadlock.rs:906-928 | Edges are pointed at the merged holders, without self-waits, and keep their age. |
| DeadlockSnapshots.UnionEdges | src/deadlock.rs:963-996 | Remote edges join the graph and bring their waits, backdated by the milliseconds told; local waits stay. |
| DeadlockSnapshots.LinkOrphans | src/deadlock.rs:999-1043 | Remote waits without an edge get one where the resource is held, backdated by the milliseconds told; local waits stay. |
| DeadlockSnapshots.RelinkAll | src/deadlock.rs:1046-1072 | Every wait on a held resource ends with its edge, as old as the wait. |
| DeadlockDetectors.Detector.ExportSnapshot | src/deadlock.rs:838-843 | The export of a detector is its edges, its orphan waits and, while all holds have time left, all its holds, each with its age in whole milliseconds. |
| DeadlockDetectors.Detector.MergeSnapshot | src/deadlock.rs:874-1073 | The five loops together are the merge of the wait-for machine; own holds and waits stay as they are, and each new one has the age it was told with. |
| DeadlockDetectors.ExchangeSnapshots | src/deadlock.rs:838-1073 | Two live, agreeing detectors that exchange snapshots agree, and both see a cycle exactly when one spans them; a hold taken over ends when it would have, counted in whole milliseconds from the export, and a wait taken over is as old as it was. |
| TimedLocks.HoldsNext | src/deadlock.rs:278-402 | Every recording call keeps the holds what the list of calls says: the last acquisition of each resource that no later call ended, with its own time and time to live. |
| TimedLocks.WaitsNext | src/deadlock.rs:278-402 | Every recording call keeps the waits what the list of calls says. |
| TimedLocks.CircleIff | src/deadlock.rs:118-129 | The maps have a circular wait if and only if the calls themselves do. |
| TimedLocks.RunCalls | src/deadlock.rs:278-402 | After any list of acquire, wait, release, give-up and force-release calls, each at its own time and with its own time to live, holds and waits are those the list says. |
| TimedLocks.DetectAfter | src/deadlock.rs:410-416 | After any such list, detection leaves exactly the holds still within their time to live. Deadlock is reported only if the calls have a circular wait with every hold and wait in time, and always if they have one that repeats no older wait: if and only if, where nobody waits twice at once for one resource. When everything is in time, it is reported if and only if the calls have a circular wait. |
| TimedLocks.ResolveAfter | src/deadlock.rs:675-735 | The victim is, by strategy, a client on the list whose last standing acquisition is the latest, whose first is the earliest, or who holds fewest; afterwards it holds nothing and every other hold stands. |
| Glob.FixedWidth | src/pubsub.rs:41-106 | A star-free prefix of a pattern matches exactly its own length of text. |
| Glob.StarWidens | src/pubsub.rs:41-106 | What a star matches from a later position it matches from an earlier one. |
| Glob.TrackStar | src/pubsub.rs:51-56 | A new star may replace the older checkpoint without losing a match. |
| Glob.TrackOne | src/pubsub.rs:57-88 | Consuming one character by one token keeps the bookkeeping. |
| Glob.TrackBack | src/pubsub.rs:91-98 | When stuck, one more character for the last star covers everything left; with no star there is no match. |
| Glob.TrackEnd | src/pubsub.rs:101-105 | At the end of the text there is a match if and only if only stars are left. |
| GlobMatchers.MatchCharClass | src/pubsub.rs:108-151 | The class loop accepts a character if and only if the parsed class does, and returns where the class ends. |
| GlobPatterns.PatternReads | src/pubsub.rs:108-151 | A pattern written from pieces (a star, a question mark, a plain or escaped character, a class with members, ranges and negation) is read back as those pieces. |
| GlobPatterns.PatternWritten | src/pubsub.rs:41-151 | Every pattern without an unclosed class or a final backslash is the writing of some pieces. |
| GlobPatterns.FitsIff | src/pubsub.rs:41-106 | A row of pieces matches a text if and only if the text can be cut into stretches, one for each piece, that the piece stands for. |
| GlobPatterns.PatternMeans | src/pubsub.rs:41-151 | For all patterns and texts, the relation holds if and only if the pattern is written from pieces that the text can be cut along. |
| GlobPatterns.SimpleMeans | src/hashmap.rs:730-772 | A pattern of stars, question marks and plain characters matches if and only if the text can be cut into one stretch for each of its characters: any, one character, or that character. |
| GlobMatchers.PubSubMatches | src/pubsub.rs:41-106 | For all patterns and texts the iterative matcher, with classes, ranges, negation and escapes, returns whether the text can be cut along the pieces the pattern is written from; and so whether the declarative relation holds. |
| GlobMatchers.KeyMatches | src/hashmap.rs:730-772 | The key matcher returns whether the text can be cut along the pattern, and so whether the declarative relation holds. |
| GlobMatchers.KeyLoop | src/hashmap.rs:735-772 | The loop behind the lone-star shortcut returns whether the relation holds, with a lexicographic measure over star, star position and pattern position. |
| GlobMatchers.AclMatches | src/acl.rs:685-711 | The ACL matcher's loop is the run of its own branch order; it accepts only texts that can be cut along the pattern, and of the texts without a star all of those. |
| GlobMatchers.AclRunAccepts | src/acl.rs:685-711 | For all patterns and texts, stars in the text included, what that run accepts matches. |
| GlobMatchers.AclRunMatches | src/acl.rs:685-711 | On a text without a star that run returns whether the declarative relation holds. |
| GlobMatchers.StarInText | src/acl.rs:692-699 | For every text with a star there is a pattern the ACL matcher rejects and the relation accepts. |
| GlobMatchers.AclAgreesIff | src/acl.rs:685-711 | The ACL matcher agrees with the relation on all patterns if and only if the text contains no star. |
| Crc64.BuildTable | src/rdb_object.rs:63-77 | Each table entry is eight shifts of its index. |
| CrcPolynomial.PolyTop | src/rdb_object.rs:60-61 | The polynomial has its highest coefficient, which is why a shift loses nothing. |
| Crc64.StepLinear | src/rdb_object.rs:67-73 | A shift is linear over exclusive or. |
| Crc64.StepInjective | src/rdb_object.rs:67-73 | A shift loses nothing: different words stay different. |
| Crc64.SerialBlock | src/rdb_object.rs:80-90 | Feeding up to 64 bits one by one is exclusive-oring them in and shifting. |
| Crc64.TableStep | src/rdb_object.rs:86-88 | One table look-up is eight shifts. |
| Crc64.UpdateIsSerial | src/rdb_object.rs:86-88 | One byte of the table-driven loop is eight bits of the serial CRC. |
| Crc64.RedisCrc64 | src/rdb_object.rs:80-90 | The table-driven CRC equals the bit-serial one on every byte string. |
| Crc64.SerialStateInjective | src/rdb_object.rs:80-90 | Updates are injective in the state. |
| Crc64.SerialBlockInjective | src/rdb_object.rs:80-90 | Updates are injective in blocks of up to 64 bits. |
| Crc64.BurstDetected | src/rdb_object.rs:80-90 | A change within any 64 consecutive bits changes the CRC. |
| Crc64.CheckWordIff | src/rdb_object.rs:842-859 | A message with a trailer has CRC zero if and only if the trailer is its CRC. |
| RdbCodec.LenRoundTrip | src/rdb_object.rs:137-188 | A length decodes to itself and leaves what follows unread, for all four widths. |
| RdbCodec.StringRoundTrip | src/rdb_object.rs:191-236 | A string of at most 512 MiB decodes to itself and leaves what follows unread. |
| RdbCodec.PackedRoundTrip | src/rdb_object.rs:583-588 | Eight little-endian bytes hold a word. |
| RdbCodec.BigEndianRoundTrip | src/rdb_object.rs:141-156 | Big-endian bytes hold a number. |
| RdbCodec.ManyRoundTrip | src/rdb_object.rs:599-642 | A run of self-delimiting items decodes to the items. |
| RdbCodec.CountedRoundTrip | src/rdb_object.rs:599-642 | A counted run decodes to the items and leaves what follows unread. |
| RdbObjects.FieldDelimits | src/rdb_object.rs:621-631 | Hash fields are self-delimiting. |
| RdbObjects.ScoredDelimits | src/rdb_object.rs:633-642 | Members with their 64-bit scores are self-delimiting. |
| RdbObjects.EntryDelimits | src/rdb_object.rs:694-703 | Stream entries are self-delimiting. |
| RdbObjects.PendingDelimits | src/rdb_object.rs:710-717 | Pending entries are self-delimiting. |
| RdbObjects.ConsumerDelimits | src/rdb_object.rs:718-723 | Consumers are self-delimiting. |
| RdbObjects.GroupDelimits | src/rdb_object.rs:704-724 | Groups with their consumers and pending entries are self-delimiting. |
| RdbObjects.IdRoundTrip | src/rdb_object.rs:696-697 | Stream IDs decode to themselves. |
| RdbObjects.StreamBodyRoundTrip | src/rdb_object.rs:669-837 | A stream snapshot decodes to itself. |
| RdbObjects.StreamRoundTrip | src/rdb_object.rs:669-837 | A wrapped stream snapshot decodes to itself and leaves what follows unread. |
| RdbDump.TypedRoundTrip | src/rdb_object.rs:862-1034 | Every kind of object decodes to itself by its type byte. |
| RdbDump.DumpRoundTrip | src/rdb_object.rs:583-642 | Decoding an encoded DUMP returns the original string, list, set, hash, sorted set or stream. |
| RdbDump.ChecksumIff | src/rdb_object.rs:842-859 | A payload passes the check if and only if the CRC of all of it is zero. |
| RdbDump.CorruptionRejected | src/rdb_object.rs:842-859 | A payload that was accepted is rejected once any up to eight consecutive bytes of it differ, wherever they are. |
| RdbDump.OneByteRejected | src/rdb_object.rs:842-859 | In particular once any one byte differs. |
| RdbIntegers.IntegerStrings | src/rdb_object.rs:197-236 | For every number of one, two or four bytes and whatever follows, its two's-complement bytes behind the tag decode to its decimal text, minus sign included, as a reader of digits reads it. |
| RdbIntegers.DecimalSpells | src/rdb_object.rs:197-236 | The text written for a number is its decimal text, without leading zeros. |
| RdbIntegers.SignedComplement | src/rdb_object.rs:197-236 | The signed value of a number's two's-complement bytes is the number. |
| RdbWire.ShortestLen | src/rdb_object.rs:137-155 | The encoder writes a length in one of the four forms, and no form of it is shorter. |
| RdbWire.TextForward | src/rdb_object.rs:197-236 | Every writing of a string, by length or as a small integer, decodes to it and leaves what follows unread. |
| RdbWire.TextBack | src/rdb_object.rs:197-236 | What decodes to a string began with a writing of it. |
| RdbWire.ScoredReads | src/rdb_object.rs:906-918 | A member is read before its score, and a score's bits lowest byte and lowest bit first; in both directions. |
| RdbWire.GroupReads | src/rdb_object.rs:793-831 | A group is read as name, last ID, pending entries and consumers, each in its order of fields; in both directions. |
| RdbWire.StreamIff | src/rdb_object.rs:736-837 | Bytes decode to a stream if and only if they are a head, and then the mark and everything, or nothing for an empty stream. |
| RdbWire.ObjectIff | src/rdb_object.rs:862-1034 | Bytes decode to an object if and only if they are its type byte (0, 1, 2, 4, 5 or 15) and a writing of the value. |
| RdbWire.DumpIff | src/rdb_object.rs:842-1034 | For every byte string and every object, decoding gives the object if and only if the bytes are a writing of it, two more bytes, and eight that bring the CRC to zero. |
| RdbWire.EncodedText | src/rdb_object.rs:583-642 | What is encoded is such a byte string, with version 9. |
| RdbCursor.Cursor.U8 | src/rdb_object.rs:112-117 | Reads one byte and moves past it, or fails at the end. |
| RdbCursor.Cursor.ReadRaw | src/rdb_object.rs:119-124 | Reads exactly the requested bytes, or fails. |
| RdbCursor.Cursor.ReadLen | src/rdb_object.rs:158-188 | Reads what the length decoder reads and stops where it stops. |
| RdbCursor.Cursor.ReadPlainLen | src/rdb_object.rs:728-734 | Refuses the special encodings of a length. |
| RdbCursor.Cursor.ReadString | src/rdb_object.rs:197-236 | Reads a string exactly when the unread bytes begin with a writing of it, by length or as a small integer with its sign, and stops behind it. |
| RdbCursor.Cursor.ReadStrings | src/rdb_object.rs:867-888 | The counted loop reads what the counted decoder reads. |
| RdbCursor.Cursor.ReadFields | src/rdb_object.rs:919-931 | The field loop reads what the counted decoder reads. |
| RdbCursor.Cursor.ReadScored | src/rdb_object.rs:906-918 | The member loop reads what the counted decoder reads. |
| RdbCursor.Cursor.ReadEntries | src/rdb_object.rs:779-792 | The entry loop reads what the counted decoder reads. |
| RdbCursor.Cursor.ReadPendings | src/rdb_object.rs:799-812 | The pending loop reads what the counted decoder reads. |
| RdbCursor.Cursor.ReadConsumers | src/rdb_object.rs:813-824 | The consumer loop reads what the counted decoder reads. |
| RdbCursor.Cursor.ReadGroups | src/rdb_object.rs:793-831 | The group loop reads what the counted decoder reads. |
| RdbCursor.Cursor.ReadStream | src/rdb_object.rs:736-837 | Reads a stream as the pure decoder does. |
| RdbCursor.Cursor.ReadTyped | src/rdb_object.rs:862-1034 | Reads an object as the pure decoder does. |
| RdbCursor.DecodeRedisDump | src/rdb_object.rs:842-860 | The cursor-driven decoder returns an object if and only if the bytes are a DUMP of it; it computes the pure decoder, so round trips and error detection hold of it. |
| StreamIds.NextIdIff | src/stream_type.rs:1365-1373 | An ID is at or after the successor if and only if it is strictly greater, except that the maximal ID is its own successor. |
| StreamIds.InOrderSorts | src/stream_type.rs:221-222 | The order of an ordered map is ascending and holds each key once. |
| StreamIds.AscendingUnique | src/stream_type.rs:221-222 | An ascending list is determined by its elements. |
| Streams.AutoIdGrowsIff | src/stream_type.rs:295-307 | A generated ID is strictly greater than the last one, as documented, if and only if the clock moved on or a sequence number is left. |
| ConsumerGroups.DropPendingCounts | src/stream_type.rs:489-507 | Dropping a pending entry debits its owner, so counters stay right. |
| ConsumerGroups.TransferCounts | src/stream_type.rs:708-728 | Moving a pending entry between consumers keeps every counter right. |
| ConsumerGroups.ClaimOneCounts | src/stream_type.rs:650-739 | One turn of the claim loop keeps owners registered and counters right. |
| ConsumerGroups.DeliverAllCounts | src/stream_type.rs:1128-1149 | Deliveries keep every counter but the reader's, which is recounted. |
| ConsumerGroups.RecountCounts | src/stream_type.rs:1150-1158 | The recount makes the reader's counter right. |
| ConsumerGroups.RemoveConsumerCounts | src/stream_type.rs:576-600 | Deleting a consumer with its entries keeps the other counters right. |
| ConsumerGroups.EvictCounts | src/stream_type.rs:381-397 | Trimming an entry from a group keeps its counters right if and only if the entry was not pending or its owner is the one debited. |
| ConsumerGroups.EvictCountsIff | src/stream_type.rs:381-397 | So it does in every walking order if and only if the entry is not pending or its owner is the only consumer with anything pending. |
| Streams.EvictedCounts | src/stream_type.rs:381-397 | Evicting an entry keeps all counters right if and only if every group that has it pending debits its owner. |
| Streams.EvictedCountsIff | src/stream_type.rs:381-397 | So it does in every walking order if and only if in every such group the owner is the only one with anything pending. |
| Streams.NextKeepsInv | src/stream_type.rs:311-1187 | Every operation, autoclaim and evictions included, keeps: no entry above the last generated ID, every pending ID live, every owner registered; and it keeps right counters right if and only if it is no eviction that debits another than the owner. |
| Streams.RunKeepsInv | src/stream_type.rs:311-1187 | Every run keeps the invariant, and the counters are right throughout if and only if every eviction of it debits the owners. |
| StreamTrims.TrimsCountIff | src/stream_type.rs:381-397 | The counters are right throughout a run in every order of walking the consumers if and only if every eviction comes while, in the groups that have the entry pending, nobody but its owner has anything pending. |
| StreamTrims.AloneCounts | src/stream_type.rs:381-397 | In such a run every walk debits the owners, so all walks lead to one state. |
| StreamDelivery.NewIdsAhead | src/stream_type.rs:1066-1078 | A read of new entries delivers, in order, a prefix of the entries ahead of the cursor, and what it leaves is still ahead. |
| StreamDelivery.CursorStays | src/stream_type.rs:311-1187 | No operation but a read of the group, autoclaim included, moves a group's cursor, setting it and destroying the group aside. |
| StreamDelivery.RedeliversIff | src/stream_type.rs:1066-1078 | A read delivers something not after the cursor if and only if the cursor is the maximal ID and it is an entry. |
| StreamDelivery.DeliveriesInTurnIff | src/stream_type.rs:1050-1168 | Over every run that does not rewind the cursor, the deliveries are strictly increasing from the first cursor on if and only if no read finds the cursor on a live entry with the maximal ID. |
| StreamMessages.ReachesIff | src/stream_type.rs:295-307 | An addition reaches a group if and only if its ID is new, or vacant and ahead of the group's cursor. |
| StreamMessages.ReachingLosesNothing | src/stream_type.rs:1050-1168 | Over every such run whose additions reach the group, every message added after the first cursor is delivered, was removed, or is still ahead. |
| StreamMessages.RepetitionLosesNothing | src/stream_type.rs:295-349 | An addition that repeats an ID loses nothing when what it overwrites was delivered or never owed, and its own message is ahead or not owed. |
| StreamMessages.OverwriteLoses | src/stream_type.rs:295-349 | Any addition that neither reaches the group nor is of this kind loses a message: the one it overwrites or its own. |
| StreamMessages.NothingLostIff | src/stream_type.rs:1050-1168 | Over every run that does not rewind the cursor, nothing is lost at any point if and only if every addition reaches the group, or has an ID of which the group is owed nothing, or has the maximal ID over a message already delivered; below the maximal ID, for a cursor within the stream, if and only if every addition reaches the group. |
| StreamExamples.SaturatedIdRepeats | src/stream_type.rs:295-307 | From an empty stream: at the end of a millisecond the generated ID repeats the last and overwrites its entry. |
| StreamExamples.OverwrittenIsLost | src/stream_type.rs:295-349 | From an empty stream: the message written over a delivered one is live and never delivered. |
| StreamExamples.MaxIsRedelivered | src/stream_type.rs:1066-1078 | From an empty stream: two reads deliver the entry with the maximal ID twice. |
| StreamExamples.TrimMiscounts | src/stream_type.rs:381-397 | From an empty stream: trimming an entry of one consumer debits another, and both counters are wrong. |
| StreamAutoClaim.XAutoClaim | src/stream_type.rs:769-852 | The loop computes the specified walk over the candidates. |
| AutoClaimWalks.WalkedKeeps | src/stream_type.rs:769-852 | A call keeps owners registered, counters right and pending entries live. |
| StreamAutoClaim.CallClaims | src/stream_type.rs:769-852 | With live entries, a call claims the lowest candidates up to the count and nothing else, and its cursor is the next pending ID. |
| StreamAutoClaim.CallSummary | src/stream_type.rs:769-852 | The candidates from the returned cursor are the old ones less those claimed, and fewer. |
| StreamAutoClaim.ScanClaimsAll | src/stream_type.rs:769-852 | Following cursors until zero terminates and claims every sufficiently idle entry exactly once, leaving every other pending entry alone. |
| StreamAutoClaim.StuckOnMax | src/stream_type.rs:769-852 | Outside the condition of that theorem (the maximal ID pending and no minimum idle time) zero never comes back. |
| RedisStreams.RedisStream.XAdd | src/stream_type.rs:311-349 | Adds exactly the entry and makes its ID the last; returns the ID it used, or nothing for an ID that is not greater or for no fields; it is the machine's step. |
| RedisStreams.RedisStream.XDel | src/stream_type.rs:489-507 | Takes out exactly the named entries, off every pending list too, debits their owners, and returns how many went; it is the machine's step. |
| RedisStreams.RedisStream.RemoveEntryAndPel | src/stream_type.rs:381-397 | One entry leaves the stream and every pending list, each group that had it debiting a consumer that had something pending if there was one; right counters stay right if and only if those were the owners. |
| RedisStreams.RedisStream.TrimMaxlen | src/stream_type.rs:405-420 | A run of exactly as many evictions as there are entries over the maximum, or as the limit allows; what went is below what stayed. |
| RedisStreams.RedisStream.TrimMinid | src/stream_type.rs:428-445 | A run of exactly as many evictions as there are IDs below the bound, or as the limit allows; what went is below the bound and below what stayed. |
| RedisStreams.RedisStream.GroupCreate | src/stream_type.rs:527-542 | The machine's step; says whether the group is new. |
| RedisStreams.RedisStream.GroupDestroy | src/stream_type.rs:544-546 | The machine's step; says whether the group existed. |
| RedisStreams.RedisStream.GroupCreateConsumer | src/stream_type.rs:550-572 | The machine's step; says whether the consumer is new. |
| RedisStreams.RedisStream.GroupDelConsumer | src/stream_type.rs:576-600 | Takes the consumer and exactly its pending entries away and returns how many those were, none for an unknown one; it is the machine's step. |
| RedisStreams.RedisStream.GroupSetId | src/stream_type.rs:604-619 | The machine's step; says whether the group exists. |
| RedisStreams.RedisStream.XSetId | src/stream_type.rs:623-644 | The machine's step; refused exactly when an entry is above the ID. |
| RedisStreams.RedisStream.XClaim | src/stream_type.rs:650-739 | Exactly the asked-for entries that are pending long enough, or forced, go to the consumer with the asked-for time and count, in request order; the rest stays; it is the machine's step. |
| RedisStreams.RedisStream.XAutoClaimFrom | src/stream_type.rs:769-852 | Hands over exactly the lowest sufficiently idle entries from the start on, up to the count, and returns them, the deleted ones and the next cursor; it is the machine's step. |
| RedisStreams.RedisStream.XReadGroupNew | src/stream_type.rs:1050-1168 | Returns in ascending order the lowest entries past the cursor, as many as asked for or as there are; moves the cursor to the last; each becomes pending for the reader with this time and one more delivery, unless no acknowledgement is wanted; and nothing else changes. |
| RedisStreams.RedisStream.XReadGroupHistory | src/stream_type.rs:1079-1168 | Returns in ascending order the lowest of the reader's own pending entries past the ID that still exist, as many as asked for or as there are; exactly those get this time and one more delivery; and nothing else changes. |
| RedisStreams.RedisStream.XAck | src/stream_type.rs:1172-1187 | Takes exactly the named entries off the list, debits their owners, and returns how many were pending; it is the machine's step. |
| StreamSpecs.NewIdsAnswer | src/stream_type.rs:1066-1078 | What a read of new entries returns are the lowest entries past the cursor, ascending, the lesser of the count and all there are; the maximal ID counts as past itself. |
| StreamSpecs.HistoryIdsAnswer | src/stream_type.rs:1079-1096 | What a history read returns are the lowest of the reader's own live pending entries past the ID, ascending, the lesser of the count and all there are. |
| StreamSpecs.ReadMeets | src/stream_type.rs:1050-1168 | The machine's read step does to cursor, pending list and consumers exactly what a read is described to do. |
| StreamSpecs.HistoryMeets | src/stream_type.rs:1079-1168 | So does the history step. |
| StreamSpecs.AckMeets | src/stream_type.rs:1172-1187 | So does the acknowledge step. |
| StreamSpecs.DeleteMeets | src/stream_type.rs:489-507 | So does the delete step, in every group. |
| StreamClaimSpecs.ClaimMeets | src/stream_type.rs:650-739 | The machine's claim step hands over exactly the entries a claim is described to, with their new owner, time and count. |
| StreamClaimSpecs.AutoClaimMeets | src/stream_type.rs:769-852 | One autoclaim call hands over exactly the lowest stale entries from the start on, up to the count. |
| StreamClaimSpecs.ScanHandsOver | src/stream_type.rs:769-852 | A full scan returns every stale entry from the start on, ascending, hands each over with the time and count asked for, and leaves every other pending entry as it was. |
| StreamClaimSpecs.EvictMeets | src/stream_type.rs:381-397 | An eviction takes the entry off the stream and every list that has it, with one debit in each such group. |
| RedisStreams.RedisStream.ExportState | src/stream_type.rs:1219-1254 | The snapshot lists every entry, group, consumer and pending entry once. |
| RedisStreams.RedisStream.ImportState | src/stream_type.rs:1257-1321 | The state of the snapshot, with right counters whatever it says; sound if and only if every pending ID is a live entry. |
| RedisStreams.EvictFromGroups | src/stream_type.rs:381-397 | The walk over the groups evicts the entry from each and says whom it debited. |
| GroupSteps.RemovePending | src/stream_type.rs:489-507 | Taking an entry off the list debits its owner, saturating. |
| GroupSteps.EvictFrom | src/stream_type.rs:381-397 | The walk over the consumers debits one that has something pending, if any has. |
| GroupSteps.ClaimTurn | src/stream_type.rs:670-737 | One turn of the claim loop in the source's steps is the specified claim. |
| GroupSteps.DeliverTurn | src/stream_type.rs:1128-1149 | One turn of the delivery loop in the source's steps is the specified delivery. |
| GroupSteps.RecountReader | src/stream_type.rs:1150-1158 | The counting loop gives the number of entries pending for the reader. |
| GroupSteps.RemoveWithPending | src/stream_type.rs:576-600 | The walk over the pending IDs removes exactly the consumer's entries and counts them. |
| GroupSteps.TouchTurn | src/stream_type.rs:1159-1166 | A history read touches time and count of one entry. |
| StreamSnapshots.LoadedIsSound | src/stream_type.rs:1257-1321 | Any snapshot loads with right counters, registered owners and a last ID no entry exceeds; soundly if and only if every pending ID is live. |
| StreamSnapshots.LoadRepairs | src/stream_type.rs:1219-1321 | A saved stream loads as itself with every counter recomputed, whatever order the hash maps were walked in. |
| StreamSnapshots.SavedComesBackIff | src/stream_type.rs:1219-1321 | Through the DUMP payload and back, a stream returns exactly if and only if its counters were right; otherwise only the counters change, and to the right ones. |
| StreamSnapshots.RunComesBack | src/stream_type.rs:1219-1321 | Every state a run reaches reloads soundly, and as it was if no eviction of the run debited another than the owner. |
| StreamSnapshots.SaveGroup | src/stream_type.rs:1222-1249 | A group's snapshot lists its consumers and pending entries once, pending entries in ascending order. |
| StreamSnapshots.Save | src/stream_type.rs:1219-1254 | A stream's snapshot lists everything once, entries in ascending order. |
| StreamSnapshots.LoadPending | src/stream_type.rs:1291-1309 | Pending entries are inserted, and their owners where missing. |
| StreamSnapshots.RecountAll | src/stream_type.rs:1310-1318 | The two loops leave every counter the number of entries pending for its consumer. |
| StreamSnapshots.LoadGroup | src/stream_type.rs:1279-1318 | The loops over one group's snapshot give the specified group. |
| StreamSnapshotLaws.SavesMeans | src/stream_type.rs:1219-1254 | Field by field, every entry, group, consumer and pending entry of a snapshot is the stream's, and there are as many. |
| StreamSnapshotLaws.LoadedEntry | src/stream_type.rs:1257-1277 | Of several entries with an ID in a snapshot the last is loaded. |
| StreamSnapshotLaws.LoadedPending | src/stream_type.rs:1291-1309 | Of several pending entries with an ID the last is loaded, with its consumer, time and count. |
| StreamSnapshotLaws.LoadedConsumer | src/stream_type.rs:1279-1290 | Of several consumers with a name the last says when it was seen. |
| StreamSnapshotLaws.LoadedOwner | src/stream_type.rs:1291-1309 | An owner the snapshot does not list was seen when its first entry was delivered. |
| StreamSnapshotLaws.LoadedCount | src/stream_type.rs:1310-1318 | A loaded consumer counts the pending entries it owns, whatever the snapshot says. |
| StreamSnapshotLaws.LoadedLast | src/stream_type.rs:1257-1277 | The loaded last ID is the highest of the one saved and those of the entries. |
| Postings.MirrorUnique | src/search_index.rs:475-487 | Only one text index belongs to given token lists, so any is the rebuilt one. |
| Postings.Frequencies | src/search_index.rs:534-537 | The counting loop counts each token's occurrences. |
| Postings.AddDocument | src/search_index.rs:529-544 | The document's terms get their counts and all other postings stay; so the index of some token lists becomes the index of those and the new document's, unless it was there with other tokens. |
| Postings.RemovedMirrors | src/search_index.rs:547-553 | Removal gives the index of the remaining documents, with no empty posting left. |
| Postings.SearchFinds | src/search_index.rs:556-562 | A search finds exactly the documents containing the term. |
| Postings.SearchAnd | src/search_index.rs:565-576 | Exactly the documents with all terms, and none for no terms. |
| Postings.SearchOr | src/search_index.rs:579-585 | Exactly the documents with some term. |
| Postings.TagMirrorUnique | src/search_index.rs:749-754 | Only one tag index belongs to given tag lists. |
| Postings.AddTags | src/search_index.rs:762-769 | Adding a document's tags to an index of tag lists. |
| Postings.RemovedTagMirrors | src/search_index.rs:771-776 | Removal gives the index of the remaining documents. |
| SearchSchema.SoFarNext | src/search_index.rs:858-927 | One field definition adds only its own kind of contribution to its own field. |
| SearchFields.AddText | src/search_index.rs:863-870 | The text branch keeps the text indices in step with the definitions done. |
| SearchFields.AddNumber | src/search_index.rs:871-884 | The numeric branch, with its parse of raw text, keeps the numeric indices in step. |
| SearchFields.AddTagField | src/search_index.rs:885-902 | The tag branch, with its split of raw text, keeps the tag indices in step. |
| SearchFields.InStepUnique | src/search_index.rs:846-974 | Indices in step with the same documents are equal field by field, however they were arrived at. |
| SearchIndexes.SearchIndex.IndexDocument | src/search_index.rs:846-930 | Indexing or re-indexing a document replaces it and leaves every index in step; says which text fields have an index afterwards. |
| SearchIndexes.SearchIndex.RemoveDocument | src/search_index.rs:933-957 | Removing a document leaves every index in step with the rest. |
| SearchIndexes.SearchIndex.ClearDocuments | src/search_index.rs:963-974 | Clearing leaves everything empty. |
| SearchIndexes.SearchIndex.TextMatches | src/query_engine.rs:250-267 | A text filter returns what a scan of the documents' own fields accepts. |
| SearchIndexes.SearchIndex.ApplyFilter | src/query_engine.rs:248-319 | Any nested text, numeric, tag and compound filter returns exactly the documents a scan accepts. |
| SearchIndexes.LiveIrrelevant | src/query_engine.rs:255-266 | A filter's answer depends on which text fields have an index only through its negated text fields. |
| SearchIndexes.ExpectedWhenLive | src/query_engine.rs:248-319 | When every negated text field has an index, the answer is the one read off the documents alone. |
| SearchIndexes.NegationIff | src/query_engine.rs:255-266 | A negated text filter gives the expected answer if and only if its field has an index or there are no documents. |
| SearchIndexes.NegationMisses | src/query_engine.rs:255-266 | From an empty index: one document without the field, and its negated filter finds nothing. |
| SearchIndexes.Query | src/query_engine.rs:248-319 | After any run of index, re-index, remove and clear, a filter returns exactly what the scan accepts. |
| SearchLaws.RangeLaw | src/query_engine.rs:269-275 | A number range finds exactly the documents whose numeric field shows a number, its own or parsed from its text, that is at least the minimum and at most the maximum; NaN is in no range. |
| SearchLaws.TagLaw | src/query_engine.rs:276-282 | A tag filter finds exactly the documents with the tag listed, or between separators of some definition of the field. |
| SearchLaws.TextLaw | src/query_engine.rs:250-267 | A text filter finds exactly the documents whose tokens in the field include all, some or none of the lower-cased terms. |
| SearchLaws.CompoundLaw | src/query_engine.rs:294-318 | Conjunction intersects the parts, disjunction unites them, and negation takes the others away from the first. |
| SearchLaws.DataLaw | src/search_index.rs:846-974 | After any run a document has given fields if and only if the last operation on it, clearing included, indexed it with them. |
| SearchLaws.LiveLaw | src/search_index.rs:846-974 | After any run a text field has an index if and only if some document indexed since the last clear had text in it. |
| KeyspaceReplace.StepKeepsLock | src/databases.rs:281-347 | The epoch lock has one writer or any readers. |
| KeyspaceReplace.StepKeepsData | src/databases.rs:281-347 | While the lock is free the databases are the published ones; a writer's retained databases are always enough to restore them. |
| KeyspaceReplace.StepKeepsHistory | src/databases.rs:281-347 | Every finished view is a published epoch and every attempt is in flight or counted once in the generation. |
| KeyspaceReplace.RunKeepsInv | src/databases.rs:281-347 | All three hold in every run of any number of processes. |
| KeyspaceReplace.ReadersSeeOneEpoch | src/databases.rs:176-182 | In every run a reader under the lock sees one published epoch, never a mix, and the generation has risen once per finished attempt. |
| KeyspaceReplace.InstalledWhole | src/databases.rs:281-345 | In every run, what a replacement installs is all of what it began with, one database for each target both sides have. |
| KeyspaceReplace.SoloPanic | src/databases.rs:281-345 | After any number of installs a replacement running alone can panic, roll back step by step and end, with every database as it was. |
| KeyspaceReplace.PanicLeavesTargets | src/databases.rs:312-347 | If nothing commits, panics while staging or after any installs leave every database as it was. |
| KeyspaceReplace.FlagStepIff | src/databases.rs:22-23 | The load flag stays right if and only if the step does not end one replacement while another is running. |
| KeyspaceReplace.FlagRunIff | src/databases.rs:22-23 | The load flag is right throughout a run if and only if no replacement in it ends while another is running. |
| KeyspaceReplace.OverlapLowersFlag | src/databases.rs:281-291 | Two overlapping replacements, the second running with the flag down. |
| KeyspaceReplace.SoloReplace | src/databases.rs:281-347 | A replacement running alone gets through all its steps and leaves the source's databases over the rest of the old ones, with the generation raised once. |
| DatabaseSets.Databases.StageAll | src/databases.rs:293-301 | Staging drains exactly the databases both sides have. |
| DatabaseSets.Databases.InstallAll | src/databases.rs:337-343 | Installing retains what it replaces and stops after the database at which it panics. |
| DatabaseSets.Databases.RollBack | src/databases.rs:319-330 | Rolling back puts the retained databases back. |
| DatabaseSets.Databases.ReplaceKeyspacesFrom | src/databases.rs:281-347 | All common databases are replaced, or after a panic none; the generation rises once; a set replaced from itself is the one case a panic loses. |
| AclText.WordsAfterSpace | src/acl.rs:619-619 | Splitting at white space is splitting each side of a space. |
| AclText.WordsOfPlainJoin | src/acl.rs:386-386 | Words joined by spaces are read back as they were. |
| AclText.WordsArePlain | src/acl.rs:619-619 | Words are not empty and free of white space. |
| AclText.LinesOfJoin | src/acl.rs:576-576 | Lines joined and ended by newlines are read back as they were. |
| AclUsers.RuleKeepsGood | src/acl.rs:160-346 | Every rule free of white space keeps the command state the replay of its description and the other descriptions those of the stored patterns. |
| AclUsers.RulesKeepGood | src/acl.rs:160-346 | So does every list of rules, up to the first error. |
| AclUsers.RuleDecides | src/acl.rs:281-344 | A command rule decides exactly the commands it names, for a category, one command or all, and leaves every other permission alone. |
| AclUsers.LastRuleWins | src/acl.rs:99-112 | After any command rules, a command is allowed if and only if the last rule that names it grants it. |
| AclUsers.ListedIsEnforced | src/acl.rs:99-112 | A user may run a command if and only if the listed description says so. |
| AclUsers.RulesReload | src/acl.rs:348-387 | The rules an entry spells out, applied to a new user, bring back every field. |
| AclUsers.EntryWords | src/acl.rs:348-387 | A printed entry is one line and reads as the user's name and those rules. |
| AclStores.EntryLoads | src/acl.rs:612-641 | Loading a printed line brings back its user. |
| AclStores.SaveThenLoadIff | src/acl.rs:547-651 | For every table, saving and loading the file brings it back if and only if it would be in good order once reloaded. |
| AclStores.RunSaveLoadIff | src/acl.rs:513-651 | After any run, with any characters in names, rules and loaded text, the file brings the table back if and only if no name, password or pattern has white space and the printed commands read back as the ones in force. |
| AclStores.SpacedStringLost | src/acl.rs:547-651 | White space in a name, password or pattern of any user keeps the file from bringing the table back. |
| AclStores.SpacedRuleLost | src/acl.rs:513-651 | After any run, any password, key or channel rule with white space makes a table that the file does not bring back. |
| AclStores.BadEntryFails | src/acl.rs:612-651 | One printed line that is no valid entry keeps the whole file from loading, whatever the other entries hold. |
| AclExamples.PhantomUser | src/acl.rs:513-651 | After one key pattern with line breaks is set, the saved file loads, and the loaded table has an enabled user with every command whom nobody set. |
| AclStores.SaveThenLoad | src/acl.rs:547-651 | Printing all users and loading the text back brings every user back, in any order of printing, and prints the same text again. |
| AclStores.RunSaveLoad | src/acl.rs:513-651 | After any run of SETUSER, DELUSER and LOAD without white space in rules, saving and loading brings every user back. |
| AclStores.SpacedPatternLost | src/acl.rs:612-651 | A table with one pattern whose second word is no rule makes a file that does not load at all. |
| AclStores.DeletedUsers | src/acl.rs:530-545 | Deletion is refused exactly when `default` is named, keeps every user not named, and counts the users gone. |
| AclStores.AclStore.SetUser | src/acl.rs:513-526 | Rules apply up to the first error and what was applied stays; the table stays in good order. |
| AclRules.AcceptedIff | src/acl.rs:160-345 | Exactly which rule words are accepted, character by character. |
| AclRules.LastRuleSettles | src/acl.rs:160-345 | For every list of accepted rules: the last rule that says anything about a command decides whether it may be run, and likewise for being enabled, needing no password, each password, all keys, each key pattern, all channels and each channel pattern; where none does, it stays. |
| AclRules.SetUserSettles | src/acl.rs:513-526 | After any run, setting a user with any accepted rules: what the user may run and with which passwords the user may log in is what the last rules on them say, and a new user may do nothing. |
| AclRules.SetUserPatterns | src/acl.rs:513-526 | And which keys and channels the user may use. |
| AclRules.RunOneListed | src/acl.rs:513-651 | After any run only the list that is in force has anything in it: the exceptions of a user who may run all commands, or the commands of one who may not. |
| AclRules.FirstTable | src/acl.rs:71-97 | A server starts with one user who may do everything, and who needs the configured password if there is one. |
| AclStores.AclStore.DelUser | src/acl.rs:530-545 | The deletions up to the name `default`, with their count. |
| AclStores.AclStore.LoadFromStr | src/acl.rs:612-651 | The table is replaced if and only if every line is right and there is a default user. |
| WaitingLine.InsertPosition | src/fair_queue.rs:200-204 | The first place with a strictly worse priority. |
| WaitingLine.InsertedOrdered | src/fair_queue.rs:200-206 | Inserting there keeps the line ordered by priority and then arrival. |
| WaitingLine.AliveOrdered | src/fair_queue.rs:396-412 | Cleaning keeps the order and leaves exactly those with now at most queued_at plus ttl. |
| WaitingLine.AheadIsBefore | src/fair_queue.rs:199-206 | In an ordered line those in front of a client are those with a better priority or the same and an earlier arrival. |
| WaitingLine.OvertakenByBetterOnly | src/fair_queue.rs:199-206 | If an ordered line changes by departures and new arrivals only, whoever newly stands in front of a waiting client has a strictly better priority. |
| WaitingLine.NextAverageOk | src/fair_queue.rs:313-315 | The floored running average of n waits is never above the mean and at most (n - 1) / 2 below it. |
| FairQueues.FairQueue.Enqueue | src/fair_queue.rs:189-213 | Refused exactly when the line is full; otherwise adds exactly the client, in order. |
| FairQueues.FairQueue.TryAcquire | src/fair_queue.rs:235-269 | The turn goes to the front of the line without those past their time to live, or to anyone when it is empty; the expired and the refusal are counted and no other figure changes. |
| FairQueues.FairQueue.DequeueClient | src/fair_queue.rs:275-319 | Takes the client's first place out of the line; the time since it was queued goes into the waits. |
| FairQueues.FairQueue.Dequeue | src/fair_queue.rs:322-352 | Takes the front of the line; the time since it was queued goes into the waits. |
| FairQueues.FairQueue.Remove | src/fair_queue.rs:355-376 | Takes the client's first place out and counts it as removed. |
| FairQueues.FairQueue.CleanupExpired | src/fair_queue.rs:396-423 | Leaves exactly those of whom the time to live is not over, in order, counts the others and changes no other figure. |
| FairQueues.FairQueue.CleanupAllExpired | src/fair_queue.rs:426-433 | Leaves in every line exactly those of whom the time to live is not over, and counts the others. |
| FairQueues.FairQueue.Clear | src/fair_queue.rs:467-474 | Empties every line and changes no statistics. |
| FairQueues.FairQueue.Run | src/fair_queue.rs:189-474 | Over every run the lines stay ordered and bounded, enqueued = dequeued + expired + removed + cleared + queued, and a waiting client is only overtaken by strictly better priorities. |
| FairQueueOrder.ByArrivalIff | src/fair_queue.rs:66-70 | A line is in the documented order of arrival if and only if nobody in it has a better priority than an earlier arrival. |
| FairQueueOrder.HighestKeepsPlace | src/fair_queue.rs:66-70 | A client with the highest priority is never overtaken. |
| FairQueueOrder.Starves | src/fair_queue.rs:66-70 | For every number of rounds, a client of any other priority waits on while better ones are served, against the documentation. |
| FairQueueOrder.TakenFromBehind | src/fair_queue.rs:271-293 | A client is dequeued by name from behind another, against the documentation. |

## Left out

Abstractions in the parts that are modelled:

- Scores are reals with the two infinities and one NaN value, which is what the score order can tell
  apart; on the wire they are 64-bit patterns. Rounding of score arithmetic does not occur in the
  operations modelled.
- Random heights, clocks and the text functions of the standard library (lower-casing beyond ASCII,
  tokenising, splitting tags, parsing numbers) are parameters, and ACL categories are a function from
  names to commands.
- Client IDs are taken to be valid UTF-8, for which the lossy conversion of a snapshot is the identity.
- Byte buffers that encoders append to, and the local arrays of the skiplist loops, are sequence
  values; aliasing between them does not arise in the source.
- Integers are unbounded except stream IDs, lengths and CRC words; overflow of statistics, delivery
  counts and `queued_at + ttl` is not modelled.
- Counters kept beside a stream (entries added, maximal deleted ID, entries read) are not modelled, so
  what an import does to them is not either, and IDs arrive parsed.
- The order in which ACL users are printed is any order, of which the sorted one is an instance.

Weaker or conditional statements:

- SortedSets.SortedSet.Range: stated over the normalised indices; a stop index below minus the length is clamped to 0 as the code does.
- SkipLists.SkipList.Run: insertions are of keys that are not there, as the sorted set around the list ensures.
- DeadlockDetectors.Detector.ExportSnapshot: holds are exported in full only while they have time left, because a merge ignores spent ones.
- TimedLocks.DetectAfter: a client that waits twice at once for one resource may have an edge as old as either wait, so with only the younger in time both answers are possible.
- DeadlockDetectors.Detector.ReleaseClientLocks: the released names are a set, not a list in iteration order.
- RdbDump.DumpRoundTrip: foreign encodings (LZF strings, listpack, ziplist, intset, textual sorted-set scores) are marked as outside, since nothing here encodes them.
- RdbWire.DumpIff: foreign encodings never give an object here, so no byte string writes one in them.
- RdbCursor.Cursor.ReadString: an LZF-compressed string is marked as outside; nothing here encodes one.
- RdbCursor.Cursor.ReadTyped: the ziplist, listpack, intset and quicklist types and textual scores are marked as outside.
- RdbCursor.DecodeRedisDump: those foreign encodings are outside here too.
- StreamMessages.NothingLostIff: for runs without operations that are meant to deliver again: setting the cursor, destroying the group, or setting the last ID.
- StreamDelivery.DeliveriesInTurnIff: for runs without operations that are meant to deliver again: setting the cursor, destroying the group, or setting the last ID.
- StreamSnapshots.SavedComesBackIff: for streams within the sizes a payload can hold (512 MiB strings, 64-bit lengths).
- KeyspaceReplace.ReadersSeeOneEpoch: databases change only by replacement; commands on single databases, which the load flag keeps out, are not modelled.
- DatabaseSets.Databases.ReplaceKeyspacesFrom: a panic comes between installs; one inside a single install is documented as not rolled back and is not modelled.
- FairQueues.FairQueue.Enqueue: the active-queue figure is right for a positive maximum; with maximum 0 a refused client leaves an empty line uncounted.

Not modelled:

- Ranges, counts and removals by score or by name, increments and random members of sorted sets: scans over the same sequence.
- Reports on long waits, statistics and rendering of the deadlock detector.
- Reading ranges of a stream and information commands.
- Vector fields, scoring and sorting of search results, and the schema parser.
- Swapping two databases, autosweep, and everything that rests on the cache internals.
- The category tables of the ACL, lookups that take a user for granted, and file access.
- The background cleaning thread of the fair queue, whose steps are those of the foreground cleaning.
- Hashes, sets, lists, geo data, persistence, replication, clustering, the wire protocol and all I/O.
