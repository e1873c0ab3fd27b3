# SODP in Dafny

SODP keeps versioned JSON values on a server and streams structural deltas to replicas.
This project models its servers and clients and proves what makes the replicas converge,
what the on-disk log recovers after a crash at any byte, that the write pool loses no wakeup and
always drains, and the laws of the smaller codecs and limiters around them.

## How the modules fit together

- `Json`, `Delta`, `Paths`, `Wire`: values, ops, path strings. A slot is "absent or a value",
  used alike for a state key and for a field of an object. `Delta.IsDiff` says when an op list
  is a structural diff, for any order of visiting map entries; `Delta.Deliver` is the central law.
- `DiffImpl`, `ApplyImpl`, `Addressing`, `Edits`: the server's differ, a replica's applier, what
  the applier does at a path, and the server's tree edits, with their loops.
- `Store`, `Schedule`, `Protocol`, `ProtocolExact`, `Client`, `Presence`: the in-memory store,
  which delivery orders converge, the WATCH/RESUME protocol as interleaved steps, exactly which
  of its runs converge, the client's frame handlers, and presence cleanup.
- `Fanout`, `Delivery`, `FanoutLink`: the broadcast loop, its runs, and its place in the protocol.
- `Segment`, `Recovery`, `Matching`, `DurableLog`, `CrashSafety`, `SegLog`, `LogRuns`, `Persist`,
  `Removals`: record format, rebuilding a store, the log as a machine of single file-system calls
  with crashes, the log's own methods, those methods as runs of the machine, the store's `apply`
  and `delete` on top of them, and failed removals.
- `WritePool`: the shared write pool as interleaved atomic steps.
- `GoDiff`, `GoStore`, `GoWal`, `GoRuns`, `GoExact`: the Go server's differ, ring log and store, its
  snapshot and write-ahead log, their runs across crashes and restarts, and exactly which of
  them restore what was written.
- `JsonPointer`, `MsgPack`, `RateLimit`: RFC 6901 pointers, MessagePack integers, the limiter.

## Where code and expectation part

- `apply` and the broadcast are separate calls, two broadcast loops may interleave, and a writer's
  own copy goes out after its broadcast, so deltas of one key may reach a session in any order.
  The protocol model allows every order. `Schedule.DeliveryExact` says which orders are safe:
  nothing the snapshot lacks is missing, and every delta is followed by all newer ones.
  `ProtocolExact.RunsExact` says the same of whole runs; for sends in version order it comes down
  to a snapshot that was not overtaken (`ProtocolExact.OrderedConvergence`).
- `subscribe_key` reads the value and sends STATE_INIT as two steps. A delta sent between them is
  queued ahead of STATE_INIT, so the client drops it and then installs the older snapshot.
  `ProtocolExact.OvertakenExact` is the exact condition.
- Both clients treat the empty state key as no key and drop every DELTA for it, while the server
  accepts it. Such a client stays with its snapshot: `Protocol.Convergence`, `ProtocolExact.RunsExact`.
- Clients learn a stream's key from STATE_INIT, which comes last, so they ignore the whole RESUME
  replay (`Protocol.ReplayIgnored`); only the STATE_INIT after it counts.
- Path strings are not escaped by the Rust server. `Wire.SafeAlphabetExact` gives the exact key
  names for which diff and apply are inverse: no `/` anywhere, no empty top-level key.
- SPECIFICATION.md section 9.4 and docs/architecture.md say that a RESUME older than the retained
  log gets no replay. The code replays what is retained, with a gap. `Store.GappedReplayExact`
  says exactly when that reply would be right for a receiver that applied it.
- A write that changes nothing advances the key's version but logs nothing, so replicas are
  compared by value and by whether the key exists, not by version.
- A deleted key is logged with value null and comes back as null after a restart, so stores are
  compared by visible value, where an absent key shows as null.
- A compaction of the Rust log goes on when a file cannot be removed. `Removals.FailedRemovalsExact`:
  a deleted key may come back exactly when a segment goes while an older one stays.
- The Go server never cuts a torn record off its log and appends behind it, while loading stops
  there. Records written after such a restart are lost at the next one (`GoExact.TornTailRun`).
- The Go server's `Compact` is documented as safe beside `Append`. It reads the entries first and
  empties the log last, so records written in between are lost (`GoExact.EmptiedTooFar`), and
  compactions may overlap. `GoExact.RunsExact` gives the exact condition on the files.
- The Go server evicts keys without a log record. `GoRuns.EvictExact`: such a key stays gone exactly
  when neither snapshot nor log still holds it.
- The Go server compares arrays by their printed form, where `["a b"]` and `["a", "b"]` look alike.
  Such a write is dropped or not sent (`GoDiff.PrintedAlike`); `GoDiff.GoRoundTrip` is exact.
- The Go server's `Append` emits one REMOVE however much it trims, and an append path also when the
  old value was an object. `GoStore.AppendExact` says exactly when replicas follow.
- The Go loader's delete does not advance the version counter. `GoWal.CounterExact` says exactly
  when the counter still covers every version issued.

## Model

| member | source | states |
|---|---|---|
| Delta.Deliver | src/delta.rs:53-89 | Deltas delivered with any repeats and reorderings on any value the key had end at the newest value, provided none the value lacks is missing and each is followed by all newer ones |
| Delta.Replay | src/delta.rs:53-89 | Folding consecutive deltas onto any value the key had during that run, the newest included, ends at the newest value, although the intermediate values may have the wrong shape |
| Delta.RoundTrip | src/delta.rs:53-89 | Applying a delta to the old slot gives the new slot, for every visiting order |
| Delta.EmptyIffSame | src/delta.rs:84-88 | The op list is empty exactly when nothing changed |
| Delta.FieldByField | sodp-py/src/sodp/delta.py:71-126 | Ops on an object act on each field independently of how they interleave, including fields that get materialised |
| Delta.ApplyOpsIsVisible | sodp-py/src/sodp/delta.py:57-59 | A replica's value is the visible part of the slot: root REMOVE reads as null |
| Paths.PathRoundTrip | src/delta.rs:91-97 | A path survives `join_path` and `_parse_path` if and only if no key holds a slash and the first key is not empty |
| Wire.WireRoundTrip | sodp-py/src/sodp/delta.py:33-43 | Through path strings, a replica that applies the delta holds the new value, and the frame is empty exactly when nothing changed |
| Wire.SafeAlphabetExact | src/delta.rs:91-97 | Diff and apply are inverse for all values over a key alphabet if and only if no key holds a slash and no top-level key is empty |
| DiffImpl.DiffAt | src/delta.rs:59-89 | The loops push, below the given path, exactly the printed ops of a structural diff |
| DiffImpl.Diff | src/delta.rs:53-57 | The result is a wire delta, empty exactly for equal values, and received on the old value gives the new one |
| ApplyImpl.ApplyOneOp | sodp-py/src/sodp/delta.py:46-126 | The descending cursor computes the recursive meaning of one op, arrays and early returns included; `Addressing.WriteReadExact`, `LeafLaw` and `ApplyFrameLaw` say what that meaning is |
| ApplyImpl.ApplyFrame | sodp-py/src/sodp/delta.py:33-52 | Fails exactly when some op kind is unknown; otherwise yields the fold of all ops over parsed paths |
| ApplyImpl.RawRoundTrip | sodp-py/src/sodp/delta.py:46-52 | Every op survives being written out by kind name and read back |
| Addressing.WriteReadExact | sodp-py/src/sodp/delta.py:71-126 | An ADD or UPDATE can be read back at its path if and only if every array on the way has the element and a final index is at most one past the end |
| Addressing.RemoveReads | sodp-py/src/sodp/delta.py:71-126 | REMOVE of an object field, however deep, leaves nothing at its path |
| Addressing.ArrayRemove | sodp-py/src/sodp/delta.py:97-116 | REMOVE of an array element moves exactly the later elements down by one |
| Addressing.RemoveAppended | sodp-py/src/sodp/delta.py:97-116 | REMOVE undoes an append, whether by `-` or by the next index |
| Addressing.LeafLaw | sodp-py/src/sodp/delta.py:97-116 | Element by element: a write to an existing index changes that element only and keeps the length, an append adds one at the end, a removal takes one out and moves the later ones down, anything else changes nothing |
| Addressing.ApplyFrameLaw | sodp-py/src/sodp/delta.py:71-126 | An op leaves everything alone that lies apart from its path, at any depth, through objects, arrays and containers made on the way |
| Addressing.ArrayChanges | sodp-py/src/sodp/delta.py:71-126 | At any depth the addressed array, already there or just made, keeps its length for a write, grows by one for an append and shrinks by one for a removal |
| Addressing.FreshContainer | sodp-py/src/sodp/delta.py:61-69 | A write to a replica without a container makes an array for `-` and for an index, an object for any other name |
| Schedule.LateDeltas | src/server.rs:690-730 | A snapshot of moment v followed by every delta after moment c, c at most v, ends at the newest value |
| Schedule.ConvergesExact | src/server.rs:690-730 | Snapshot v plus the deltas after c converges for every history if and only if c is at most v |
| Schedule.DeliveryExact | src/fanout.rs:82-124 | A delivery order, with repeats and reorderings, ends at the newest value for every history if and only if it misses nothing the snapshot lacks and every delta is followed by all newer ones |
| Schedule.OnceEachExact | src/server.rs:963-975 | If each delta is delivered at most once, the good orders are exactly the consecutive runs up to the newest that start no later than the snapshot |
| Store.StateStore.AppendLog | src/state.rs:45-53 | The key's log becomes the newest 1000 of itself plus the new delta, other keys unchanged |
| Store.StateStore.Apply | src/state.rs:152-196 | The version always advances; the delta leads from the old slot to the new; the past grows by it exactly when something changed, and the log stays the newest part of the past |
| Store.StateStore.Delete | src/state.rs:202-229 | Absent keys change nothing; otherwise the key goes, with a root REMOVE as the next logged delta |
| Store.StateStore.DeltasSince | src/state.rs:60-69 | The answer is the key's whole past from the first delta that is neither evicted nor already held |
| Store.ResumeReplay | src/state.rs:231-236 | If no evicted delta is newer than `since`, folding the answer onto the value held at `since` gives the current value |
| Store.GappedReplayExact | src/state.rs:60-69 | With older deltas evicted, the answer is right for every history if and only if nothing the replica lacks was evicted |
| Protocol.StepKeepsInv | src/server.rs:757-855 | Every write, broadcast, send in any order, subscription, read, delivery, overflow and disconnect keeps the invariant that ties each client to its snapshot and the deltas sent after it |
| Protocol.LiveShows | src/server.rs:690-730 | In every run a live client shows, once frames in flight arrive, exactly its snapshot plus the deltas sent after STATE_INIT in the order sent, each at most once |
| Protocol.Convergence | src/server.rs:690-730 | In every run and for every way the sends may go on, a live client ends with the store's value and existence if those deltas form a good order on top of the snapshot; a client of the empty key stays with the snapshot |
| Protocol.ReplayIgnored | src/server.rs:818-848 | In every run a client ignores everything sent before STATE_INIT, the whole RESUME replay included |
| Protocol.LiveVersion | client-ts/src/index.ts:362-377 | In every run a live, uncancelled client holds, once frames in flight have arrived, the version of the last delta sent after its snapshot, or the snapshot's own if there was none or the key is empty; that version separates the deltas up to it from those after it, so a later RESUME asks for the right ones |
| Protocol.ResumeReply | src/server.rs:818-848 | The whole answer to a RESUME, undisturbed: every retained delta that the client's version does not cover, in order, then STATE_INIT with the current value and version |
| Protocol.SnapshotVersion | src/state.rs:152-170 | In every run the version a STATE_INIT carries is that of the last write, whether or not it changed anything, and 0 for an absent key |
| Protocol.SentOrCancelled | src/write_pool.rs:56-86 | Nothing owed to a session disappears quietly: a replayed or broadcast delta or STATE_INIT that is no longer due is in its channel, or the session is cancelled |
| Protocol.OnlyDeliveryChanges | client-ts/src/index.ts:247-260 | Only a delivered frame changes what a client has cached; a lost connection forgets the stream binding and nothing else |
| ProtocolExact.RunsExact | src/server.rs:690-730 | For every key, snapshot moment and order of sends: all runs that end this way leave a drained client with the current value if and only if the order is good, or, for the empty key, nothing was written after the snapshot |
| ProtocolExact.OvertakenExact | src/server.rs:700-723 | With sends in version order, all runs converge if and only if no delta newer than the snapshot was sent before it |
| ProtocolExact.Reachable | src/server.rs:690-730 | Every order of sends after every snapshot moment, for every history, is the end of some run |
| ProtocolExact.EmptyKeyRun | client-ts/src/index.ts:362-365 | For the empty key a write after the snapshot is missing at the end of some run |
| ProtocolExact.OrderedConvergence | src/server.rs:963-975 | In every run whose broadcasts start and arrive in version order, cache plus frames in flight plus deltas not yet sent gives the current value exactly under the condition that the snapshot was not overtaken, and a drained client equals the server |
| Protocol.DeltaOnReplica | client-ts/src/index.ts:362-377 | A genuine delta moves a replica's value and its initialized flag exactly as it moves the slot |
| Client.SodpClient.OnStateInit | client-ts/src/index.ts:344-360 | Unknown keys are ignored; otherwise the stream is bound and the entry takes the snapshot's value, version and existence, other entries unchanged |
| Client.SodpClient.OnDelta | client-ts/src/index.ts:362-377 | Dropped on an unannounced stream and for the empty key; otherwise the entry takes the frame's version and the ops' result, other entries unchanged, or nothing at all happens when an op kind is unknown |
| Client.SodpClient.OnDisconnect | client-ts/src/index.ts:247-260 | Stream bindings are forgotten, cached values kept |
| Client.SodpClient.OnReady | client-ts/src/index.ts:318-331 | Exactly the keys with callbacks are requested, by RESUME from their version when one is known and by WATCH otherwise |
| Fanout.FanoutBus.Subscribe | src/fanout.rs:53-55 | One more subscriber at the end of the key's list |
| Fanout.FanoutBus.Unsubscribe | src/fanout.rs:57-61 | The session leaves that key's list, order kept, other keys unchanged |
| Fanout.FanoutBus.RemoveSession | src/fanout.rs:64-68 | The session leaves every list and nobody else does |
| Fanout.FanoutBus.Broadcast | src/fanout.rs:82-124 | Every channel accepts, in order and as far as it has room, exactly the frames of its session's subscriptions to the key, none for the excluded session; exactly the sessions without room are cancelled and dropped from the list; no queue exceeds its capacity |
| Fanout.AcceptSnoc | src/fanout.rs:106-116 | Sending frames one by one amounts to accepting the longest prefix that fits and cancelling when something is left over |
| Delivery.StepSeen | src/fanout.rs:53-124 | A step cancels a session exactly when it offers that session a frame that does not fit; otherwise the frame joins its queue, and only the session itself changes its subscriptions |
| Delivery.OwnSteps | src/fanout.rs:53-68 | A session's own subscription adds one frame per broadcast of that key at the end of its frames; leaving a key or all keys ends them |
| Delivery.NothingMissed | src/fanout.rs:53-124 | In every run of interleaved broadcast loops, direct sends, subscriptions and socket writes, what a session that is not cancelled has taken plus what is queued is exactly what was offered to it, in order |
| Delivery.LoopIsComplete | src/fanout.rs:88-116 | However loops interleave, each offers a session exactly its subscriptions in the list taken at the start, in order, and all of them before it ends |
| Delivery.AloneIsBroadcast | src/fanout.rs:82-124 | A loop that nothing interrupts is one broadcast |
| FanoutLink.BroadcastIsSteps | src/fanout.rs:82-124 | Seen from one subscription, a broadcast is the protocol's start of that delta's broadcast followed by its send, or its overflow when the channel is full |
| FanoutLink.SendIsStep | src/fanout.rs:108-116 | One send of one loop among others is one such protocol step |
| FanoutLink.OfferIsStep | src/server.rs:971-975 | The same for the writer's own copy |
| Segment.ReplaySegment | src/log.rs:89-122 | Returns the complete records and truncates the file to exactly them |
| Segment.TornTail | src/log.rs:42-54 | Complete records plus any strict prefix of one more replay to exactly the complete ones |
| Segment.LeastFirst | src/log.rs:35-40 | The record length is written least significant byte first |
| Segment.TruncationKeeps | src/log.rs:111-119 | Truncating any file, whatever it holds, keeps its complete records, and a second truncation does nothing |
| Segment.CutBatch | src/log.rs:245-253 | A batch write cut at any byte leaves its first records, whole |
| Recovery.Rebuild | src/state.rs:106-138 | Sorting by version and inserting in order yields a memory that `open` may build from these entries |
| Recovery.InsertedEntry | src/state.rs:117-125 | A rebuilt key holds a newest entry of that key, and exactly the keys with entries are rebuilt |
| Recovery.CounterIsNewest | src/state.rs:111-125 | The rebuilt counter is the newest version among the entries, 0 without entries |
| Recovery.SortKeepsOps | src/state.rs:109-111 | The unstable sort leaves each key's deltas in log order |
| Matching.WriteMatches | src/state.rs:172-192 | Appending a write's record keeps the replayed entries standing for the memory |
| Matching.SnapshotMatches | src/state.rs:269-283 | Any number of snapshot entries, after older records, changes neither what is shown nor the delta log |
| Matching.DropMatches | src/log.rs:267-273 | Dropping oldest entries is harmless while every visible key keeps one |
| Matching.ReopenVisible | src/state.rs:106-138 | What is rebuilt shows every key as before, and the counter is a replayed version, 0 for none, that covers all of them |
| DurableLog.HealRecords | src/log.rs:111-119 | Truncating one segment changes no replayed record and leaves that segment whole |
| CrashSafety.StepKeepsInv | src/log.rs:148-282 | Every file-system call, the truncations inside `open` included, every crash at any byte and every reopening keeps the durability invariant |
| CrashSafety.CrashStep | src/log.rs:234-282 | Wherever the process stops, in mid record, mid snapshot or between any two calls of a compaction, the disk still stands for what was saved |
| CrashSafety.CrashSafe | src/log.rs:148-282 | After any run, reopening shows every key as of the last record wholly on disk, deleted keys stay null, replay is a suffix of everything written and all of it if nothing was pruned, each key's delta log is a suffix of the live one and equal without compaction |
| CrashSafety.CrashShowsMemory | src/log.rs:234-282 | A crash at any byte with nothing but a compaction under way is invisible: what is rebuilt shows every key as live memory did |
| CrashSafety.IdleIsSaved | src/log.rs:204-217 | Unless a record is being written, what is saved is what memory holds; the next segment number is always free |
| CrashSafety.FilesBounded | src/log.rs:192-222 | In every run without a crash from any moment of rest: no segment gets more than 100000 records, the directory never has more than three files over the larger of what it had and three, and after an append the process never rests with more than three segments |
| SegLog.ListSegments | src/log.rs:70-83 | Exactly the numbers present, ascending |
| SegLog.SegmentedLog.Append | src/log.rs:192-202 | Replay gains exactly this entry at the end, rotating first when the segment is full; the directory, call by call, and the counters are given |
| SegLog.SegmentedLog.Rotate | src/log.rs:204-217 | A fresh segment with the next, unused number; replay unchanged |
| SegLog.SegmentedLog.Compact | src/log.rs:234-282 | Leaves one snapshot and one empty live segment, and touches the directory in the order snapshot, live, then old segments ascending |
| LogRuns.CompactionIsRun | src/log.rs:234-282 | A compaction, call by call, is a run of the crash machine whose directory states are exactly the trail of `Compact`, every removal included |
| LogRuns.CompactIsCrashSafe | src/log.rs:234-282 | `Compact` may stop after any of its calls: what is rebuilt from the directory then shows every key as live memory did |
| LogRuns.OpenIsRun | src/log.rs:148-189 | Opening, truncation by truncation, is a run of the crash machine that ends with the directory `Open` leaves |
| Removals.FailedRemovalsExact | src/log.rs:267-273 | If some removals fail, every visible value is kept for all segment contents if and only if no segment goes while an older one stays |
| SegLog.Open | src/log.rs:148-189 | Heals every segment and returns the records of all segments in ascending order, with the counters of the last one |
| SegLog.OpenStore | src/state.rs:106-138 | Opening loses nothing: the directory replays to the same records as before, healed and ready for appending, and the memory is one that those records allow |
| SegLog.OpenKeepsRecords | src/log.rs:148-189 | Opening loses no record, whatever the files hold, and leaves only whole records if all segments held whole records and a torn tail |
| Persist.Apply | src/state.rs:152-196 | In persistent mode: memory takes the write, only versions moving if it changes nothing; afterwards the records on disk stand for the new memory and at most three segments are left, by compaction if need be |
| Persist.Delete | src/state.rs:202-229 | Nothing for an absent key; otherwise the key goes, its null record is logged, and the same holds |
| Persist.CompactLog | src/state.rs:269-292 | The log becomes one snapshot entry per live key and still stands for memory |
| Persist.RestartShowsMemory | src/state.rs:106-138 | After any such call, whatever a restart rebuilds shows every key as memory had it, with a recent part of each delta log |
| WritePool.StepKeepsInv | src/write_pool.rs:56-86 | Each atomic step of `send` and `pool_drain` keeps one owner, exact `pending`, order and an observer for queued messages |
| WritePool.NoLostWakeup | src/write_pool.rs:172-195 | In every interleaving, with nobody inside `send` or `pool_drain` and an empty work queue, the outbound queue is empty, `pending` is 0 and `in_pool` is false |
| WritePool.PoolSafety | src/write_pool.rs:172-195 | At most one worker holds a session; `pending` is never negative and equals queued plus mid-step messages; without errors the socket was fed a prefix of the accepted messages |
| WritePool.DrainsBeforeFlush | src/write_pool.rs:172-195 | One flush per batch: a worker flushes only once it has seen the queue empty or the socket failed |
| WritePool.StepIsProgress | src/write_pool.rs:172-195 | With nobody inside `send`, every step of a worker, errors included, lowers `pending` or keeps it and shortens the way left; no step adds a worker or a handle |
| WritePool.SchedulesEnd | src/write_pool.rs:172-195 | From then on every schedule of the workers ends within a bound fixed beforehand, whichever goes next |
| WritePool.StuckIsDone | src/write_pool.rs:172-195 | A schedule that cannot go on has drained the session: nothing queued, every accepted message taken, and fed if nothing failed |
| WritePool.CanDrain | src/write_pool.rs:56-195 | From the end of every run the sends already begun and the workers can go on, without errors, until everybody has left; then every accepted message has been taken, and fed to the socket in order if nothing had failed before |
| Edits.RequestRoundTrip | src/server.rs:1345-1360 | The server reads a printed op path back as the same path if and only if a replica does: no slash in a key, first key not empty |
| Edits.RequestExact | src/server.rs:1345-1360 | Exactly the paths that start with a slash are understood; an empty path is the root for a removal and an error for a write, and a removal by any other path changes nothing |
| Edits.SetThenLookup | src/server.rs:1345-1384 | The written value is found at its path |
| Edits.SetFrame | src/server.rs:1362-1384 | Incomparable paths keep what they had, even where a non-object is replaced |
| Edits.SetInLocal | src/server.rs:1362-1384 | Every op of the resulting delta lies on the written path, below it, or above it where a non-object gave way |
| Edits.DiffOpMeaning | src/delta.rs:59-89 | Every op names a real change at its own path: ADD where nothing was, REMOVE where nothing is left, UPDATE otherwise, with the new value, and never one object for another |
| Edits.DiffOpsApart | src/delta.rs:59-89 | No two ops of a delta lie on or below one another |
| Edits.JsonMerge | src/server.rs:1417-1429 | The loop computes the recursive field-by-field merge |
| Edits.MergeWins | src/server.rs:1417-1429 | Where the patch holds something other than an object the merge holds exactly that, and an object where it holds an object |
| Edits.MergeKeeps | src/server.rs:1417-1429 | Where the patch says nothing, neither at a path nor by a non-object above it, the merge keeps what was there |
| Edits.MergeIdempotent | src/server.rs:1417-1429 | Merging the same patch twice equals merging it once |
| Edits.MergeLocal | src/server.rs:1417-1429 | The delta of a patch has no REMOVE and touches only paths that occur in the patch |
| Edits.RemoveGone | src/server.rs:1400-1413 | Nothing is found at a removed path |
| Edits.RemoveFrame | src/server.rs:1400-1413 | Incomparable paths are unchanged by a removal |
| Edits.RemoveCreatesNothing | src/server.rs:1400-1413 | A removal brings nothing into being anywhere |
| Edits.RemoveExact | src/server.rs:1400-1413 | A removal changes nothing exactly when there is nothing at the path; on the way to it objects stay objects and anything else stays as it was |
| Presence.Cleanup | src/server.rs:445-459 | After the disconnect loop every registered path is gone, a root path reads as null, objects that no registered path reaches stay objects, the set of state keys is the same, and everything incomparable with all registered paths is unchanged |
| Presence.Announce | src/server.rs:1208-1299 | A malformed path changes nothing; otherwise the value is at its path, incomparable paths are unchanged and the path is registered once |
| GoDiff.Diff | sodp-go/delta.go:39-76 | The loops produce a structural diff of two objects, blind to values that print alike, and one root UPDATE for anything else |
| GoDiff.GoRoundTrip | sodp-go/delta.go:149-170 | A replica that receives what `Apply` logs holds the new value if and only if no two different values that were compared print alike |
| GoDiff.PrintedAlike | sodp-go/delta.go:149-170 | Writing one of two arrays that print alike over the other inside an object leaves nothing to send |
| GoDiff.ComparedExactly | sodp-go/delta.go:149-170 | A field that held a scalar is always compared exactly, however values print; a container is taken for anything that prints like it, unless both are objects |
| GoDiff.GoPathRoundTrip | sodp-go/delta.go:52-62 | A Go path survives printing and parsing if and only if no key holds a slash and it is not the lone empty key |
| GoStore.RingLog.Push | sodp-go/state.go:43-49 | Across wrap-around the ring holds exactly the newest `cap` pushed entries in order |
| GoStore.PushContents | sodp-go/state.go:43-49 | Pushing appends to what the circular buffer holds and drops the oldest entry of a full one |
| GoStore.Scan | sodp-go/state.go:58-65 | The walk around the circular buffer yields the held entries newer than a version, oldest first |
| GoStore.RingCovers | sodp-go/state.go:240-242 | When the oldest held version is at most `since`+1, the held entries newer than `since` are all ever logged |
| GoStore.StateStore.Apply | sodp-go/state.go:87-107 | Nothing on a full key table or when the new object differs from the old only by values that print alike; otherwise the next version, the new entry, one more logged delta, which is the diff from the old value to the new, and that delta in the key's ring, other rings unchanged |
| GoStore.StateStore.Append | sodp-go/state.go:113-140 | The array gains the element and keeps at most `maxLen` newest ones; one more delta is logged and held in the ring, with one append and at most one removal |
| GoStore.AppendExact | sodp-go/state.go:124-131 | The emitted ops take a replica to the stored array if and only if the old value was not an object and at most one element was trimmed |
| GoStore.StateStore.Delete | sodp-go/state.go:144-162 | Nothing for an absent key; otherwise the key goes and a root REMOVE is logged and held in the ring |
| GoStore.StateStore.EvictIf | sodp-go/state.go:214-227 | Exactly the chosen keys lose their entry and their ring, and their number is returned |
| GoStore.StateStore.DeltasSince | sodp-go/state.go:232-252 | If the ring goes back to the version after `since`, the answer is every delta ever logged for the key after `since`, in order, otherwise nil; folded onto the value held at `since` it gives the current value, unless the key was evicted, appended to or written with values that print alike |
| GoStore.GoResume | sodp-go/state.go:87-107 | Over any past of writes and deletes, everything logged after `since` folded onto the value held then gives the newest value, whole-value updates included |
| GoWal.LoadAll | sodp-go/persist.go:117-170 | Loading a snapshot of i records and replaying a log whose readable part starts at any j up to i gives exactly the final keys, values and versions, empty key aside, also when versions repeat across a restart; the counter is the newest version among snapshot entries and replayed Puts, 0 for none |
| GoWal.Overlap | sodp-go/state.go:268-292 | Replaying records the snapshot already covers changes nothing |
| GoWal.LoadSnapshot | sodp-go/persist.go:118-132 | The loaded entries are the snapshot without an empty key, and the counter its newest version |
| GoWal.ReplayWal | sodp-go/persist.go:134-168 | Replays exactly the records before the first that cannot be decoded |
| GoWal.CounterExact | sodp-go/state.go:274-292 | Through deletes and evictions: after loading, the counter covers the newest version issued if and only if a snapshot entry or a Put of the readable log still carries it |
| GoWal.CounterOfLog | sodp-go/state.go:274-292 | Without evictions, between two restarts, that is the case if and only if the last record is not a delete |
| GoRuns.GapExact | sodp-go/persist.go:79-113 | Loading is exact for all records if and only if the log starts no later than the snapshot; records written between reading the entries and truncating the log are lost |
| GoRuns.StepKeepsInv | sodp-go/persist.go:36-170 | Every write, eviction, compaction step of any number of compactions, crash in mid record or not, and restart keeps what ties each copy of the entries and the log to memory |
| GoRuns.LoadsWhatWasWritten | sodp-go/persist.go:36-170 | In every such run, if no record stands behind a torn piece unless a snapshot covers it and nothing before it is read, and the log was emptied no later than the snapshot, loading restores every key that was not evicted |
| GoRuns.EvictExact | sodp-go/state.go:214-227 | In every such run an evicted key stays gone after a restart if and only if the files no longer hold it: the log's last record of it is not a Put, and no snapshot entry is left that the log does not override; without a torn piece, if and only if neither mentions it |
| GoRuns.RestartLoads | sodp-go/persist.go:117-170 | Restarting gives a key what memory had exactly when the files restore it, and the counter is the newest version on file, 0 for none |
| GoExact.RunsExact | sodp-go/persist.go:36-170 | For every shape of the files: all runs that leave it restore every key that was not evicted if and only if the shape is the one above |
| GoExact.TornTailRun | sodp-go/persist.go:36-46 | A record written behind a torn piece, after the snapshot, is lost in some run |
| GoExact.StaleLogRun | sodp-go/persist.go:79-113 | With a torn log, even a snapshot of everything fails in some run while older records before the torn piece are still read |
| GoExact.EmptiedTooFar | sodp-go/persist.go:79-113 | Records written between reading the entries and emptying the log are lost in some run |
| JsonPointer.EscapeRoundTrip | server-ts/src/jsonpointer.ts:11-13 | The two-pass unescape inverts the two-pass escape for every string |
| JsonPointer.EscapeCons | server-ts/src/jsonpointer.ts:11-13 | Character by character, `~` becomes `~0` and `/` becomes `~1`, although the two are replaced in separate passes |
| JsonPointer.EscapeSlashFree | server-ts/src/jsonpointer.ts:116 | Escaped segments contain no slash |
| JsonPointer.PointerRoundTrip | server-ts/src/jsonpointer.ts:7-14 | Parsing inverts printing for every path except the lone empty key |
| JsonPointer.DiffShallow | server-ts/src/jsonpointer.ts:105-124 | Nothing for identical values, one op per changed key for two objects, of the right kind, and one root UPDATE otherwise; for values without an empty top-level key, applying the diff gives the new value, whatever the key order and object identities |
| JsonPointer.InsertExact | server-ts/src/jsonpointer.ts:116-117 | Adding one key to any object round-trips if and only if the key is not empty |
| MsgPack.WriteUint | src/frame.rs:34-60 | The branches and the shift loop push the minimal big-endian unsigned form |
| MsgPack.UintBytes | src/frame.rs:34-60 | Byte by byte the prescribed form: the value itself below 128, otherwise the marker of the first width that suffices and the value, most significant byte first |
| MsgPack.UintRoundTrip | src/frame.rs:34-60 | A reader recovers every 64-bit value and the bytes that follow it |
| MsgPack.UintShortest | src/frame.rs:33-60 | No unsigned form of the same value is shorter |
| MsgPack.UintPrefixFree | src/frame.rs:34-60 | No encoding is a prefix of another |
| MsgPack.DeltaBytes | src/frame.rs:23-31 | The buffer is the four-element header followed by the body |
| MsgPack.DeltaFrameRoundTrip | src/frame.rs:23-31 | The bytes determine stream id, sequence number and body |
| RateLimit.RateLimiter.Allow | src/session.rs:53-64 | Allowed exactly when the window in force has room; the window moves exactly when a second has passed, a refused call changes nothing else |
| RateLimit.WindowBound | src/session.rs:53-64 | Within one window at most the unused part of the limit is allowed |
| RateLimit.WindowExact | src/session.rs:53-64 | Within one window the first calls are allowed until the limit is used up and no others, and refused calls do not move the window |
| RateLimit.Reopens | src/session.rs:53-64 | A call at or past the end of the window opens a new one at its own time with only itself counted, whatever happened before |
| RateLimit.TwiceTheLimit | src/session.rs:30-35 | In every run with a non-decreasing clock, any half-open second sees at most twice the limit |
| RateLimit.TwiceIsReached | src/session.rs:30-35 | For every limit some run reaches that bound |

## Left out

- Sockets, WebSocket frames, timers, heartbeats, metrics, JWT, ACL and schema checks: no hard property in the code itself.
- Redis clustering: fire and forget over an external system; `load_entries` belongs to it.
- The TypeScript client's applier inside arrays (`client-ts/src/delta.ts`): JavaScript holes and non-index array properties are not JSON values; outside arrays, and for keys other than `__proto__`, it makes the same steps as the Python applier modelled here.
- Python's Unicode digits in path segments: only '0' to '9' count as digits.
- Concurrent writers of one key inside Rust `apply`, appends racing a compaction, and file-system errors other than a crash: `apply` and each file-system call are single steps of one writer.
- Weak memory in the write pool: steps are sequentially consistent, and the two mutexes are not modelled because only the exclusive worker takes them.
- Protocol.Convergence: no UNWATCH and no second subscription of one session to one key (`Delivery` has both); the protocol has one subscription per session and key. The TypeScript client's `watchMany` can ask for a second one (`client-ts/src/index.ts`, lines 500 to 505), which then repeats every delta.
- Integer overflow of versions and counters, and log records of 4 GiB or more: excluded by `Fits` for records, unbounded naturals elsewhere.
- The payload codec of the log (rmp_serde) and of DELTA bodies: an abstract inverse pair.
- ApplyImpl.ApplyOneOp: the cursor rebuilds the tree from the nodes it passed instead of updating a deep copy in place; aliasing inside the copy is not modelled.
- GoStore.StateStore.DeltasSince: a key's ring is a value, which `GoStore.RingLog` updates in place; sharing of ring objects is not modelled.
- GoDiff.Diff: how Go prints maps is left open, and a number's type is part of its representation.
- JsonPointer.DiffShallow: keys that JavaScript objects inherit, such as `toString`, are not modelled; `applyOne` is modelled for root pointers and one-segment pointers on objects, which is all the differ emits for objects.
- GoRuns.LoadsWhatWasWritten: a mutation and its log record are one step, in the order of the mutations; two writers of one key whose records swap are not modelled. Writing the temporary snapshot file is one step, so two overlapping compactions overwrite but never mix it. Behind a torn piece the decoder is taken to stop; it may also misread what follows. The msgpack decoding of the files is abstract.
