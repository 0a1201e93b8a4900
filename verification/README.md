# Verified model of the broker's message store and user authentication

This project models, in Dafny, the two stateful cores of the clustered MQTT broker `ciqadamq`,
and proves what they are for.

**Message store** (`src/msgstore.rs`, `src/topic.rs`). Messages live in memory in one map with
three redundant views of it (an arrival queue, a topic index, a byte count) and two change sets
that drive a delayed write to a table on disk.

- `Topic.dfy`: splitting on `/`, the matching loop, and what a filter means.
- `MemModel.dfy`: the memory state as a value, its operations, the invariant tying its six parts
  together, and the laws of eviction.
- `StoreModel.dfy`: ids, disk rows, the write transaction, and what `open` builds.
- `MsgStore.dfy`: the running store, classes updated in place. Each method is proved against
  `MemModel`, and against the step of `StoreRuns` that it is (`Took`; the ghost parameter `w` is
  the run the object is part of).
- `StoreRuns.dfy`: runs that interleave issuing, storing, receiving, getting, draining,
  committing, failing to commit, and crashing with a reopen, in any order; crash recovery.
- `StoreHistory.dfy`: what further holds of runs, layer by layer: the queue in every run; the
  invariant and the limits when an id stored again keeps its topic (`SteadyRun`); ids, residency and
  single delivery when each issued id is used for at most one message (`DisciplinedRun`).
- `StoreExpiry.dfy`: complete expiry, up to the lag with which stores reach the channel.
- `StoreAnswers.dfy`: what `get` returns over whole runs, in terms of the stores and gets of the run.
- `StoreReopen.dfy`: what carries over a crash: ids that come back, deliveries that do not.

**Users and authentication** (`src/api.rs`, `src/db.rs`). A record table and an argon2 check are
the truth; a record cache, a cache of successful credentials and a table of HMAC verifiers make it
fast; every change is fanned out to the other nodes.

- `AuthModel.dfy`: one node as a value, the requests, and the proof that fast answers equal slow
  ones.
- `AuthRequests.dfy`: what each request means to those who make it, in terms of its own fields and of
  what the next login is told.
- `AuthHistory.dfy`: runs of one node: how old a cached answer can be, and exact answers.
- `AuthService.dfy`: the caches, tables and handlers as classes, each method proved against
  `AuthModel`.
- `Cluster.dfy`: runs of all nodes: convergence of the tables, and exact answers on every node.

`Options.dfy` holds the option type both parts use.

Reading notes.

- Text is modelled by its UTF-8 bytes, one `char` each. Ids, times and sizes are integers with the
  64-bit wrap-around or saturation of the source written out where the code has it.
- Times are parameters of the steps. In store runs each step carries the time its caller read before
  it took the lock or sent to the channel, and these may come in any order; only a reopening does not
  read a time before the latest one read. In runs of one node (`AuthHistory`) moments are in time order.
- Hashes are parameters too: SHA-256 and HMAC are assumed to have no collisions wherever a lemma says
  `CollisionFree` (`CollisionFreeCrypto` shows that the assumption can be met); the argon2 check is an
  arbitrary relation of which only this is assumed, that a fresh hash accepts its own password.
- Six properties one might expect do not always hold of the code: the topic index after an id is
  stored again under another topic, recovery after a failed commit, complete expiry with mixed
  intervals, ids that are new even after a crash, convergence when a node catches up during a
  deletion, and truthful answers after an upsert over another record. Each has a lemma with a concrete
  failing input (`RetopicExample`, `FailedCommitForgets`, `HiddenExpiryExample`, `IdComesBack`,
  `CatchUpRevives`, `UpsertExample`) and a lemma that says exactly when the property does hold
  (`InsertKeepsValidIff`, `FailedCommitHarmlessIff`, `ExpiryCompleteIffSorted`,
  `PreviousIdsComeBackIff`, `CatchUpSafeIff`, `UpsertAgreesIff`).
- In `StoreRuns.World` the fields from the clock on are memories of the observer, not of the program:
  `snap`, for one, is set from the drain in flight when its commit succeeds.

## Model

| member | source | states |
|---|---|---|
| Topic.JoinSplit | src/topic.rs:2-3 | splitting on `/` loses nothing: joining the levels gives the text back |
| Topic.SplitJoin | src/topic.rs:2-3 | every non-empty list of slash-free levels is the split of its joined text |
| Topic.SplitConcat | src/topic.rs:2-3 | joining two texts by `/` concatenates their levels |
| Topic.SplitInjective | src/topic.rs:2-3 | different texts have different levels |
| Topic.TopicMatches | src/topic.rs:1-13 | the loop over two iterators decides the declarative meaning of a filter: its levels before the first `#` match one by one, and only a `#` allows the topic to be longer (sections 4.7.1.2 and 4.7.1.3 of MQTT 3.1.1) |
| Topic.WildcardFreeIsEquality | src/topic.rs:15-17 | a filter without `+` and `#` bytes matches a topic if and only if they are the same text |
| Topic.TransitiveIffHashFree | src/topic.rs:1-13 | matching may be chained through a filter, for all topics and filters, if and only if none of its levels is `#` |
| Topic.HashBreaksTransitivity | src/topic.rs:1-13 | for every filter with a `#` level, a topic and a filter on which chaining fails |
| Topic.HashExample | src/topic.rs:1-13 | chaining fails for `a/b`, `#`, `+` |
| Topic.PersonalFilterMeaning | src/api.rs:536 | the filter built from an accepted userid matches exactly the topics with at least two levels whose second level is the userid |
| Topic.PersonalFiltersDisjoint | src/api.rs:221-226 | personal filters of two different accepted userids share no topic |
| MemModel.SumRemove | src/msgstore.rs:39-41 | the total size is the same whichever message is counted first |
| MemModel.IndexAfterPut | src/msgstore.rs:185 | adding an id to its topic's entry gives the index of the enlarged map, for a new id or an unchanged topic |
| MemModel.IndexAfterRemove | src/msgstore.rs:70-75 | taking an id out, and its entry if that becomes empty, gives the index of the reduced map |
| MemModel.PopKeepsValid | src/msgstore.rs:65-76 | one turn of the eviction loop keeps queue, index, byte count and change sets in agreement |
| MemModel.EvictKeepsValid | src/msgstore.rs:53-78 | so does the whole loop; the saturating subtraction never clips |
| MemModel.InsertKeepsValidIff | src/msgstore.rs:171-186 | storing keeps the six parts in agreement if and only if the id is new or keeps its topic |
| MemModel.RetopicExample | src/msgstore.rs:173-185 | a message stored again under another topic stays listed under the old one |
| MemModel.MarkKeepsValid | src/msgstore.rs:322-327 | recording deliveries keeps the parts in agreement |
| MemModel.EvictIsCut | src/msgstore.rs:53-78 | eviction removes a prefix of the queue and nothing else: each removed message was expired or at the front of an over-limit store, and it stops at the first point within limits with a live front; every part equals its recomputation from what is left |
| MemModel.StopIsUnique | src/msgstore.rs:53-64 | there is only one such stopping point, so the previous row determines the result |
| MemModel.EvictMeetsCaps | src/msgstore.rs:55-56 | afterwards a positive message limit bounds the count, a positive byte limit bounds the true total size and, at 384 bytes a message, the count; the index has at most as many topics as there are messages |
| MemModel.EvictionRule | src/msgstore.rs:53-78 | eviction takes a message if and only if it and every message before it has expired, or with those after it exceeds a positive limit on number or on bytes, counted at payload plus topic plus 384; every other message stays as it is |
| MemModel.WithinLimitsNothingGoes | src/msgstore.rs:53-64 | a store within its limits whose oldest message is live loses nothing |
| MemModel.EvictFits | src/msgstore.rs:39-41 | what is left is within both limits, counted the same way |
| MemModel.EvictAbsorbs | src/msgstore.rs:53-78 | evicting at an earlier time and then at a later one equals evicting at the later one |
| MemModel.EvictThenInsert | src/msgstore.rs:171-187 | evicting before a new message arrives is subsumed by evicting after it |
| MemModel.EagerEqualsLazy | src/msgstore.rs:167-188 | for any batch of new messages in time order, evicting after each insertion ends in the very same state, all six parts, as inserting all and evicting once |
| MemModel.SortedEvictsExpired | src/msgstore.rs:54-64 | with the queue in expiry order up to a slack, eviction leaves nothing that had expired by that much earlier |
| MemModel.ExpiryCompleteIffSorted | src/msgstore.rs:54-64 | for every slack, zero included: eviction leaves nothing that had expired by that much earlier, for all times and limits, if and only if the queue is in expiry order up to that slack |
| MemModel.HiddenExpiryExample | src/msgstore.rs:62-64 | an expired message behind a live one survives eviction |
| StoreModel.IdParts | src/msgstore.rs:262-265 | an issued id gives back its 48-bit counter, and its node if and only if that is below 2^16 |
| StoreModel.OpenedIsValid | src/msgstore.rs:131-162 | the state rebuilt at open satisfies the invariant and its queue is in expiry order |
| StoreModel.OpenedOrder | src/msgstore.rs:131-133 | earlier expiry comes first, and among equals the smaller id |
| MsgStore.SortEntries | src/msgstore.rs:131-133 | the queue lists every loaded id once, ordered by expiry time and then id |
| MsgStore.LoadRows | src/msgstore.rs:110-130 | exactly the decodable rows that have not expired are loaded, and the counter starts one past the largest of this node's ids among all rows, readable or not |
| MsgStore.Summarize | src/msgstore.rs:134-141 | the rebuilt byte count and index are those of the loaded messages |
| MsgStore.CollectDirty | src/msgstore.rs:211-220 | the batch holds exactly the dirty messages still in memory, as they are |
| MsgStore.DeleteRows | src/msgstore.rs:232-234 | the transaction's deletions |
| MsgStore.InsertRows | src/msgstore.rs:235-237 | the transaction's insertions |
| MsgStore.MemState.PopFront | src/msgstore.rs:65-76 | the loop body in place |
| MsgStore.MemState.Evict | src/msgstore.rs:53-78 | the loop in place computes the function the eviction laws are about |
| MsgStore.RedbMessageStore.Open | src/msgstore.rs:93-201 | the store built by open shows the starting state of a run |
| MsgStore.RedbMessageStore.NextMsgId | src/msgstore.rs:262-265 | the id is made from the old counter, which moves on by one modulo 2^64 |
| MsgStore.RedbMessageStore.Store | src/msgstore.rs:267-286 | storing only appends to the channel; the message expires at the time of the store plus its interval, at most 2^63 - 1, and has no recipients |
| MsgStore.RedbMessageStore.Receive | src/msgstore.rs:167-188 | one turn of the receiving task is the insertion followed by eviction |
| MsgStore.RedbMessageStore.Drain | src/msgstore.rs:204-223 | draining evicts, takes the whole change record and empties it |
| MsgStore.RedbMessageStore.Commit | src/msgstore.rs:228-242 | one transaction turns the old table into the table with the batch applied |
| MsgStore.RedbMessageStore.Flush | src/msgstore.rs:203-246 | an undisturbed flush, early return included, leaves memory drained and the batch on disk, and is the two steps of a run, drain and commit (or the drain alone) |
| MsgStore.RedbMessageStore.Candidates | src/msgstore.rs:298-311 | the index walk and the exact lookup both yield exactly the messages whose topic matches, each once |
| MsgStore.RedbMessageStore.Scan | src/msgstore.rs:312-321 | from any candidates, exactly the live ones not yet delivered to the client are taken, each with its id, sender and publish |
| MsgStore.RedbMessageStore.Mark | src/msgstore.rs:322-327 | exactly those gain the client and become dirty |
| MsgStore.RedbMessageStore.Get | src/msgstore.rs:288-330 | after its eviction, `get` returns exactly the matching, live, undelivered messages of a naive scan, each once, with its sender and publish, and exactly these gain the client and become dirty; in a run the list is the `Answer` the rows of `StoreAnswers` are about |
| StoreRuns.DrainSynced | src/msgstore.rs:211-237 | a drained batch makes the disk show exactly the unexpired memory; its rows to write and to delete are disjoint |
| StoreRuns.SecondFlushIsEmpty | src/msgstore.rs:208-227 | a second flush at the same moment has nothing to write |
| StoreRuns.FailedCommitHarmlessIff | src/msgstore.rs:228-245 | after a failed commit and any stores and deliveries that follow it, the next flush leaves a disk from which every later reopening loads exactly the unexpired memory, if and only if every change of the lost batch that a reader could see was on record again |
| StoreRuns.FailedCommitForgets | src/msgstore.rs:228-245 | a run from an empty disk - issue, store, receive, drain, failed commit, drain - after which a live message is in memory and in the last flush's snapshot, nothing is left to flush, and the disk is empty |
| StoreRuns.StepRecoverable | src/msgstore.rs:109-330 | every step, but for a failed commit that loses a visible change (`FailureHarmless`), keeps: what a reader finds different in memory and on disk, counting the batch in flight, is recorded in `dirty` or `removed` |
| StoreRuns.CrashRecovery | src/msgstore.rs:109-130 | after any run in which no failed commit lost a visible change (`Reliable`), reopening loads exactly the messages of the last committed drain that have not expired, with the recipients they had then |
| StoreHistory.RunFifo | src/msgstore.rs:173-187 | in every run the queue is a suffix of the arrivals since the open |
| StoreHistory.StepFifo | src/msgstore.rs:53-78 | between opens arrivals only grow and the point where residency begins never moves back |
| StoreHistory.FifoResidency | src/msgstore.rs:173-187 | in a disciplined run a message is in memory if and only if it is among the latest arrivals |
| StoreHistory.MemoryStaysValid | src/msgstore.rs:43-50 | the six parts of the memory state agree after every run in which an id received again keeps its topic (`SteadyRun`) |
| StoreHistory.LimitsHold | src/msgstore.rs:53-64 | in such runs, from the first eviction after an open on, the limits hold at every moment |
| StoreHistory.DisciplinedIsSteady | src/msgstore.rs:262-286 | runs that use each issued id for at most one message (`DisciplinedRun`) are among them |
| StoreHistory.IssuedIdsAreFresh | src/msgstore.rs:262-265 | in a disciplined run the next id is none that was issued since the open, is not in the channel or among the arrivals, and is on no row of the disk |
| StoreHistory.NothingIsOverwritten | src/msgstore.rs:173-183 | no message received in a disciplined run replaces one in memory |
| StoreHistory.AtMostOnce | src/msgstore.rs:312-327 | between two opens of a disciplined run each message is handed to each client at most once, across overlapping filters, evictions and flushes |
| StoreExpiry.ExpiryIsComplete | src/msgstore.rs:131-133 | when all stores of a disciplined run use one interval and read the clock at most `lag` before they reach the channel, every eviction leaves nothing that had expired by `lag` earlier |
| StoreAnswers.ContentSurvives | src/msgstore.rs:109-330 | through channel, memory, disk and crashes of a disciplined run, every message has the sender, publish and expiry time (store time plus interval, at most 2^63 - 1) of the latest store of its id, or of the row it had when the run began |
| StoreAnswers.RunRecorded | src/msgstore.rs:322-327 | in a disciplined run a message in memory names as recipients exactly the clients it was handed to since the open and those it was loaded with |
| StoreAnswers.AnswerIff | src/msgstore.rs:288-330 | at any moment of a disciplined run `get` hands a client exactly the messages still in memory after the eviction, as they were stored, that match, have not expired and that the client has not had |
| StoreAnswers.StoredIsAnswered | src/msgstore.rs:267-330 | a message stored at `t` is in the answer to a matching get of a client that has not had it, as it was stored, exactly until `t + interval` or 2^63 - 1, while it is in memory |
| StoreAnswers.UnlimitedAnswer | src/msgstore.rs:53-330 | without limits, exactly until then, once it has been received |
| StoreAnswers.AnswerIsHanded | src/msgstore.rs:318-327 | what a get answers, and nothing else, counts as handed to the client |
| StoreAnswers.ReceivedReplaces | src/msgstore.rs:171-187 | in any run, a received message replaces what was in memory under its id, in its old place, or goes to the end of the queue; other messages stay as they are or are evicted |
| StoreReopen.PreviousIdsComeBackIff | src/msgstore.rs:115-123 | after a crash the node can issue an id of its previous life again if and only if it had issued some and the last one is on no row of the disk |
| StoreReopen.IdComesBack | src/msgstore.rs:115-123 | on an empty disk: an id is issued, the store reopens, the same id is issued |
| StoreReopen.RecordedDeliveriesLast | src/msgstore.rs:109-130 | a delivery made before the last committed drain is not made again after a crash: the same id goes to the same client only if the new life issued it afresh, no row of it being on disk |
| AuthModel.FramedInjective | src/api.rs:331-339 | name, zero byte, password determine name and password when the names hold no zero byte |
| AuthModel.LookupTrue | src/api.rs:341-353 | on a coherent node, lookup returns the table's record and keeps the node coherent |
| AuthModel.CheckTrue | src/api.rs:430-456 | the check through cache, verifier and argon2 succeeds if and only if the stored hash accepts the password |
| AuthModel.FastEqualsSlow | src/api.rs:403-468 | on a coherent node, authentication gives the answer of the slow check, record and flags included, and leaves the node coherent and its table unchanged |
| AuthModel.CreateKeeps | src/api.rs:232-286 | creating a user keeps the node coherent and, with a pepper, makes the fast check accept the new password |
| AuthModel.DropKeeps | src/api.rs:288-309 | deleting a user keeps the node coherent |
| AuthModel.ReplicateKeeps | src/api.rs:610-636 | so does a replicated operation whose upsert meets an absent or identical record |
| AuthModel.CatchUpKeeps | src/api.rs:645-683 | so does a snapshot that changes no existing record, although no cache is purged |
| AuthModel.CollisionFreeCrypto | src/api.rs:331-339 | primitives that meet the no-collision assumption exist |
| AuthModel.UpsertAgreesIff | src/db.rs:196-215 | after an upsert over any record, fast and slow answers agree if and only if no verifier is in force for the name (none stored, or no pepper) or the password behind the stored one passes the new hash |
| AuthModel.UpsertWithoutVerifier | src/db.rs:196-215 | so with no verifier stored, or no pepper, replacing a record is safe whatever it says |
| AuthModel.UpsertMisleads | src/api.rs:610-636 | otherwise that password is let in against the table |
| AuthModel.UpsertExample | src/api.rs:610-636 | one such case, for any collision-free primitives: a user created on an empty node, then replaced by a peer |
| AuthModel.SuccessIsRemembered | src/api.rs:436-452 | a success puts the record and the credentials into the caches and, with a pepper, leaves a verifier that accepts them |
| AuthModel.SweepIsInvisible | src/api.rs:115-120 | sweeping changes no later answer of either cache and no later authentication |
| AuthRequests.CreateAnswers | src/api.rs:232-286 | a user is created if and only if name, userid and password meet their bounds and the name is free; the record has the fields of the request and the hash, nobody else's record or verifier changes, and a request turned down changes nothing |
| AuthRequests.CreatedLogsIn | src/api.rs:232-286 | from then on the user logs in with that password, as who and with the flags the request said, and with no password the hash rejects |
| AuthRequests.DeleteAnswers | src/api.rs:288-309 | deletion answers whether the user existed; afterwards record and verifier are gone, nobody else's have changed, and the caches have forgotten a user that existed |
| AuthRequests.DeletedIsOut | src/api.rs:288-309 | the next login under that name is denied, and everybody else is answered as before |
| AuthRequests.DeleteUndoesCreate | src/db.rs:170-259 | creating a user and deleting it again leaves both tables as they were |
| AuthRequests.ReplicateAnswers | src/api.rs:610-636 | a peer's operation is applied whatever the table held; an upsert leaves the verifiers alone, a deletion takes the verifier along, the caches forget |
| AuthRequests.SnapshotLeavesOthers | src/db.rs:217-241 | a snapshot leaves the names it does not list alone |
| AuthRequests.SnapshotLastWins | src/db.rs:217-241 | and puts the last record it lists for a name |
| AuthRequests.CatchUpIsHidden | src/api.rs:660-675 | a record cached before a catch-up hides the one it brought |
| AuthRequests.SweepClears | src/api.rs:115-166 | after a sweep each cache holds exactly its live entries, unchanged |
| AuthRequests.RestartForgets | src/api.rs:77-134 | after a restart lookups and logins are answered from the tables alone, which are as they were |
| AuthRequests.RememberedForLifetime | src/api.rs:90-153 | what a login looked up or checked anew is remembered for the whole lifetime and no longer |
| AuthRequests.CachedIsAnswered | src/api.rs:421-456 | while both entries live, a login is answered from them alone, whatever tables and argon2 would say, and changes nothing |
| AuthRequests.NoSecondSlowCheck | src/api.rs:432-452 | with a pepper, a password checked anew never needs argon2 again while the user stays |
| AuthHistory.LookupIsRecent | src/api.rs:341-353 | over any run, a record returned by lookup is the database's now or was at a moment less than the lifetime ago |
| AuthHistory.CachedLoginIsRecent | src/api.rs:430-431 | over any run, credentials found in the cache were put through a real check, the cache having no entry for them, and passed it less than the lifetime ago |
| AuthHistory.RunAnswersTruly | src/api.rs:403-468 | over any run whose upserts meet absent or identical records, every authentication equals the slow check |
| AuthService.CtEq | src/db.rs:109-118 | the constant-time comparison is equality |
| AuthService.VerifyFast | src/db.rs:105-107 | the fast check is equality with the stored verifier |
| AuthService.AuthCache.Get | src/api.rs:90-98 | an entry is returned only before its expiry |
| AuthService.AuthCache.Insert | src/api.rs:100-107 | with a zero lifetime nothing is cached |
| AuthService.AuthCache.PurgeUser | src/api.rs:109-113 | purging one user empties the cache |
| AuthService.AuthCache.Sweep | src/api.rs:115-120 | only live entries stay |
| AuthService.UserCache.Get | src/api.rs:136-144 | an entry is returned only before its expiry |
| AuthService.UserCache.Insert | src/api.rs:146-153 | with a zero lifetime nothing is cached |
| AuthService.UserCache.Purge | src/api.rs:155-159 | purging removes this user only |
| AuthService.UserCache.Sweep | src/api.rs:161-166 | only live entries stay |
| AuthService.RedbStore.InsertUser | src/db.rs:170-194 | an existing record is reported and kept |
| AuthService.RedbStore.UpsertUser | src/db.rs:196-215 | the record is replaced and no verifier is touched |
| AuthService.RedbStore.UpsertMany | src/db.rs:217-241 | the records are put in order, in one change of the table |
| AuthService.RedbStore.DeleteUser | src/db.rs:243-259 | record and verifier go together |
| AuthService.RedbStore.SetVerifier | src/db.rs:303-316 | writes one verifier and no record |
| AuthService.AppState.LookupUser | src/api.rs:341-353 | the cached lookup in place |
| AuthService.AppState.Verify | src/api.rs:430-456 | the three-stage check in place |
| AuthService.AppState.Authenticate | src/api.rs:403-468 | the handler in place computes the function shown equal to the slow check |
| AuthService.AppState.CreateUser | src/api.rs:232-286 | the handler in place, with its three rejections |
| AuthService.AppState.DeleteUser | src/api.rs:288-309 | the handler in place: caches are purged only when the user existed |
| AuthService.AppState.Replicate | src/api.rs:610-636 | the handler in place |
| AuthService.AppState.CatchUp | src/api.rs:660-675 | applying a snapshot in place |
| AuthService.AppState.Sweep | src/api.rs:115-166 | both sweeps in place |
| Cluster.ListedValue | src/api.rs:638-643 | applying a peer's listing puts the peer's records over one's own |
| Cluster.RemovePends | src/api.rs:288-300 | removing a user the node holds leaves the deletion to be delivered to every other node |
| Cluster.CreatePends | src/api.rs:261-274 | creating a user leaves the record, field by field that of the request, to be delivered to every other node |
| Cluster.DeliverGood | src/api.rs:582-636 | delivering an operation, once or again, keeps tables converging and nodes coherent |
| Cluster.CatchUpSafeIff | src/api.rs:645-683 | a catch-up is safe - every continuation without another one that leaves nothing pending leaves all tables equal - if and only if the peer lists no user whose pending deletion has already reached this node |
| Cluster.CatchUpRevives | src/api.rs:645-683 | a run from equal tables - delete, catch up, deliver, finish - that ends with nothing pending and the deleted user on one node only |
| Cluster.StepGood | src/api.rs:232-683 | every step of the cluster keeps convergence and coherence, but for a catch-up that brings back a user whose deletion is under way (`Careful`) |
| Cluster.QuietMeansEqual | src/api.rs:582-636 | in a run without such catch-ups (`CarefulRun`), whenever no operation is pending all nodes hold the same table |
| Cluster.OldOrNew | src/api.rs:582-636 | in such a run, while an operation is pending each node holds the old or the new value of that user |
| Cluster.EveryNodeAnswersTruly | src/api.rs:403-468 | in such a run, on every node at every moment authentication equals the slow check on that node's table |
| Cluster.NodesAgree | src/api.rs:403-468 | in such a run, with nothing pending, all nodes answer the same credentials alike whatever their caches and clocks |
| Cluster.DeletedIsDenied | src/api.rs:288-309 | in such a run a deletion that has reached a node denies that user there at once |

## Left out

- Preemption inside a handler: each handler of `src/api.rs` is one atomic step. Two handlers whose database and cache accesses interleave are not modelled; nor is a change at the peer between `catch_up` reading a snapshot and applying it.
- Cluster.DeletedIsDenied: does not cover a login that has read the record before a concurrent deletion purges it and caches it afterwards, because a login is one step.
- Lost fanout messages: `fanout` gives up on a peer that does not answer and the operation ends anyway. The cluster runs end an operation only when every node has it, and allow one operation per username at a time.
- Overlapping flushes: the flusher is serial, and the flush at shutdown (`src/main.rs:304-306`) is taken not to overlap one of its commits.
- Failures other than a failed commit: database errors, encoding errors, poisoned locks and JSON or HTTP errors do not occur in the model.
- Encoding: messages that were encoded decode to themselves; rows that do not decode are modelled, how they come about is not.
- Arithmetic limits: an expiry interval is below 2^63 milliseconds (the source truncates it with `as i64`); the sum of sizes at open and the running total stay below 2^64 where the invariant is claimed (the saturating addition itself is modelled).
- Hash collisions: SHA-256 and HMAC values are byte strings without the 32-byte bound, so that the no-collision assumption can be met.
- `$` topics: section 4.7.2 of MQTT 3.1.1 is not implemented by the matching loop and not part of the specification.
- The pepper is the same on every node and does not change; a verifier written under another pepper is not modelled.
- Sessions, access rules, raft, gRPC, vault, configuration, token refresh, `src/fanout.rs`, benchmarks and drivers are not part of the two cores.
