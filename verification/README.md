# IM server verification

A Dafny model of the parts of the instant-messaging servers where correctness rests on several pieces working
together: the event pipeline from the outbox to the database, the id generator, the registry of routes, the
life of tokens, the fan-out of pushes with its caches, and the merge of user settings. Redis and MySQL commands
are atomic steps; pipelines that are not transactions are cut between commands; every process may stop at any
step. `dafny verify dfyconfig.toml` checks the whole project.

## How it is laid out

- `Events`, `EventLaws`, `BackgroundDb`, `WriterTransaction`: events and what their fields ask for, the upserts as
  functions on tables, coalescing, and the methods that carry the upserts out in chunks.
- `WriterMachine`, `WriterRuns`, `WriterCursors`, `WriterOvertaking`, `WriterProgress`, `WriterTables`: the consumer of
  one stream as a state machine, and what holds over all its runs: nothing forgotten, nothing acknowledged too early,
  each effect as if applied once and in order; what the tables hold, told by the fields of the committed events;
  exactly which streams allow a run that applies one twice, and when delivery goes on.
- `BackgroundWriter`: the consumer's own code as methods. A ghost trace records every state, and the class
  invariant says that the trace is a run of the machine, so the theorems about runs hold of the code at each step.
  Any command may fail, before or after it took effect.
- `Outbox`, `BackgroundPublisher`, `Pipeline`: producers and racing publishers, the publisher's code, and all
  machines put together, from enqueueing to the table row.
- `Snowflake`: the word that all threads exchange, ids in 63 bits, and the retry loop.
- `Routes`, `RouteMachine`, `RouteRegistry`: the leased snapshot, many servers rewriting it under an expiring lock,
  and the registry's code.
- `Tokens`, `RefreshTokens`, `TokenService`: revocation in milliseconds against claims in seconds, rotation of
  refresh tokens, and the code of both.
- `Fanout`, `PushDispatcher`: which deliveries an event must come to, and the loops that schedule them.
- `LocalCache`, `GroupMembers`: the cache against the map of last writes, and member lists through two caches.
- `SettingsMerge`: the recursive merge of JSON objects.

## What does not hold

Each of these has a lemma that shows it fail and, where a condition is named, one that says exactly when it holds.

- A recall that precedes its create in the stream can be applied by a re-read (`RecallBeforeCreateIsNotAppliedOnce`);
  `AppliedOnceIff` says for which streams that can happen.
- Coalescing group cursors can lose the latest time (`CoalescingCanLoseTheLatestTime`, `CoalesceGroupExactIff`).
- Two events with equal clocks are published in the order of their members (`OrderIsKeptIff`).
- A malformed entry stops the delivery of everything behind it (`ReceiptWithoutReaderBlocks`), and nothing else does
  (`DeliveryGoesOnIff`); `StuckIff` says which entries can.
- A task that outlives its 3000 ms lock can undo another server's lease (`LeasesAreKeptIff`), and so can one whose
  read of the snapshot fails (`LeaseLostIff`).
- A 32-bit sum of session counts can hide a user who has routes (`LargeCountsHideAUser`, `OnlineIffRouted`).
- A login or refresh under way survives a revocation (`RevocationIsFinalIff`); with the default lifetimes a check
  that straddles the expiry of the record accepts a revoked token (`SlowCheckAcceptsARevokedToken`); two
  revocations stored out of order bring one back (`LateStoreBringsATokenBack`); `RefusedForGoodIff` has the exact
  condition. A token issued after a revocation but in the same second is refused (`RevokedIffNoLaterSecond`), where
  the comments of the source speak only of tokens issued earlier.
- A NUL in a server id sends pushes to the wrong server (`NulMixesServers`, `TargetIsAloneIff`).

## Model

| member | source | states |
|---|---|---|
| Pipeline.NoEventLost | rust/apps/api-server/src/background_publisher.rs:197-236 | No event is lost over any run with crashes at any step: an enqueued event is whole in the outbox, or is an entry of the stream of its kind whose effect is applied, still to be read or re-read, or trimmed by MAXLEN |
| Pipeline.MessageAppliedOnceEndToEnd | rust/apps/api-server/src/background_writer/mod.rs:93-137 | From enqueueing to the table row: with one create event, enqueued first and sorted first in its hot Redis, the stored message is what applying every committed event once, in stream order, gives, however many publishers race and repeat themselves |
| Pipeline.ScoresOrderTheStream | rust/apps/api-server/src/background_publisher.rs:156-163 | The order of the pending set, by score and then by member, puts the create of a message before its recalls and deletes in the stream |
| Pipeline.StreamsAgree | rust/apps/api-server/src/redis_streams.rs:43-64 | The writers read exactly what the publishers appended |
| Pipeline.ConsumerRunIsRun | rust/apps/api-server/src/background_writer/mod.rs:66-138 | Seen from one stream, every run of the whole system is a run of the writer machine |
| Pipeline.OutboxRunIsRun | rust/apps/api-server/src/background_publisher.rs:149-236 | Seen from the outbox, every run of the whole system is a run of the outbox machine |
| WriterMachine.RunKeepsInv | rust/apps/api-server/src/background_writer/mod.rs:93-138 | One invariant of batches, pending list, tables and acknowledgement lists holds at every moment of every run, crashes included |
| WriterMachine.StepKeepsInv | rust/apps/api-server/src/background_writer/mod.rs:173-207 | Every step (append, trim, read, process, commit, clear, acknowledge, crash) keeps that invariant |
| WriterRuns.NoEntryForgotten | rust/apps/api-server/src/redis_streams.rs:66-91 | An entry with an effect is unread, pending and readable, trimmed, or applied |
| WriterRuns.AcknowledgedIsSettled | rust/apps/api-server/src/background_writer/mod.rs:118-136 | An entry leaves the pending list only when its effect has been committed, it has none, or MAXLEN removed it; also when one flush commits and the next fails |
| WriterRuns.StatusRunsAfterEverythingBefore | rust/apps/api-server/src/background_writer/mod.rs:199-202 | When a recall or delete is applied, the effect of every earlier entry is committed, but for what MAXLEN removed |
| WriterRuns.PendingWithinOneReply | rust/apps/api-server/src/redis_streams.rs:74-90 | Unacknowledged entries never exceed one reply, and new entries are fetched only when none are pending |
| WriterProgress.DeliveryGoesOnIff | rust/apps/api-server/src/redis_streams.rs:74-90 | With entries waiting, every run has a continuation on the stream as it stands that hands on more of it, exactly when no entry that is never acknowledged is pending and untrimmed |
| WriterProgress.StuckIff | rust/apps/api-server/src/redis_streams.rs:74-90 | The entries at which some run on a stream gets stuck are exactly the malformed ones that can be read: earlier malformed ones that would have to be in an earlier reply can be trimmed first |
| WriterProgress.ReceiptWithoutReaderBlocks | rust/apps/api-server/src/background_writer/mod.rs:369-375 | A run on a concrete stream, a read receipt without a reader and a message behind it, after which no continuation hands on the message before the receipt is trimmed |
| WriterRuns.MalformedEntryBlocksDelivery | rust/apps/api-server/src/background_writer/mod.rs:114 | An entry that cannot be parsed, or a receipt that names nobody, is never acknowledged: nothing new is delivered until MAXLEN removes it |
| WriterRuns.RowsOnlyRise | rust/apps/api-server/src/background_writer/background_db.rs:151-156 | No step lowers a stored status, read time or read sequence, and none removes a row |
| WriterRuns.MessageRowIsExact | rust/apps/api-server/src/background_writer/background_db.rs:151-156 | In every run the stored row of a message has the greatest code among its committed events that come behind a create, and exists exactly when a create is committed |
| WriterRuns.MessagesAppliedOnceInOrder | rust/apps/api-server/src/background_writer/mod.rs:173-207 | Exactly-once effect: after any mix of re-reads, duplicates in a batch and crashes, a message that nothing overtakes equals one in-order application of its committed events |
| WriterCursors.CursorsAreExact | rust/apps/api-server/src/background_writer/background_db.rs:219-253 | Private read times and group read sequences are at every moment the greatest among the committed receipts |
| WriterCursors.CursorsAppliedOnceInOrder | rust/apps/api-server/src/background_writer/mod.rs:313-343 | Batched, coalesced and replayed, cursors still equal one application of each committed receipt in stream order |
| EventLaws.CreateEffect | rust/apps/api-server/src/background_writer/mod.rs:175-190 | A create event inserts its own message, with the code of the status it carries: 1 sent, 2 delivered, 3 read, 4 recalled, 5 deleted |
| EventLaws.StatusEffect | rust/apps/api-server/src/background_writer/mod.rs:345-362 | A recall or delete sets the status it names, and otherwise 4 for a recall and 5 for a delete, at the time of the event |
| EventLaws.PrivateEffect | rust/apps/api-server/src/background_writer/mod.rs:392-411 | A receipt without a parsed group is that of its reader for the target of the event, or for the addressee of the receipt if the event has no target |
| EventLaws.GroupEffect | rust/apps/api-server/src/background_writer/mod.rs:369-390 | A receipt with a parsed group is that of its reader in the group, with its own time, sequence (0 if absent) and message id |
| EventLaws.NoEffect | rust/apps/api-server/src/background_writer/mod.rs:369-398 | Exactly which events are never acknowledged, and which are acknowledged without an effect, by their fields |
| WriterTables.PrivateCursorsAre | rust/apps/api-server/src/background_writer/background_db.rs:219-223 | In every run the private cursors are those of the readers and peers that committed receipts name, each with the latest time of these |
| WriterTables.GroupCursorsAre | rust/apps/api-server/src/background_writer/background_db.rs:248-253 | In every run the group cursors are those of the groups and readers that committed receipts name, with the greatest sequence of these, and the time of one |
| WriterTables.RisingGroupCursorsAre | rust/apps/api-server/src/background_writer/background_db.rs:248-253 | When those receipts rise together in sequence, time and message id, all three stored fields are the greatest, in every run and whatever the batches |
| WriterTables.MessagesAre | rust/apps/api-server/src/background_writer/background_db.rs:151-156 | In every run a message that nothing overtakes is stored exactly when a create of it is committed, with the body and sequence of the create and the greatest code that committed events offer, told by their fields |
| WriterTables.RecallAndDeleteLeave | rust/apps/api-server/src/background_writer/mod.rs:345-367 | A recall leaves a lower status at 4, a delete at 5, and both in either order at 5 |
| WriterTables.CreateStores | rust/crates/im-common/src/event.rs:91-98 | A create stores the code of its own status and its own columns |
| WriterOvertaking.AppliedOnceIff | rust/apps/api-server/src/background_writer/mod.rs:173-207 | For a stream with one create event of a message: every run that loses no copy of the create applies each committed event once, in order, at every moment, exactly when no recall or delete stands before the first create, within one reply of it that can be read, with a code above the code of the create |
| WriterOvertaking.OvertakenRun | rust/apps/api-server/src/background_writer/mod.rs:199-202 | For every stream with such a recall or delete, a run, past malformed entries and trimming, that crashes and re-reads it onto the stored row |
| WriterRuns.CreatedFirstNeverOvertaken | rust/apps/api-server/src/background_writer/mod.rs:345-367 | With a create ahead of every change of status there is none |
| WriterRuns.HandledBehindCreate | rust/apps/api-server/src/redis_streams.rs:74-90 | A change of status is handled behind a committed create only where it comes after a create in the stream or carries no higher code |
| WriterRuns.RunKeepsOneReply | rust/apps/api-server/src/redis_streams.rs:74-90 | Everything pending or in hand lies within one reply of what was delivered last, and a malformed entry stays pending until it is trimmed |
| WriterOvertaking.RecallBeforeCreateIsNotAppliedOnce | rust/apps/api-server/src/background_writer/mod.rs:345-367 | The shortest such stream: a recall just before its create, replies of two entries, nothing lost |
| BackgroundWriter.Processor.ReadGroupEvents | rust/apps/api-server/src/redis_streams.rs:66-91 | Re-reads what is pending before new entries; the drain loop terminates because each extra round acknowledges an entry; new entries come only behind a pending list that is empty or all trimmed, and then do come if there are any |
| BackgroundWriter.Processor.ReadPendingEvents | rust/apps/api-server/src/redis_streams.rs:111-140 | The reply to a read from id 0: the first pending entries in order, trimmed ones without payload |
| BackgroundWriter.Processor.SplitStaleEvents | rust/apps/api-server/src/redis_streams.rs:142-153 | Separates entries without payload from the rest, which keep their order |
| BackgroundWriter.Processor.ReadPendingRound | rust/apps/api-server/src/redis_streams.rs:74-89 | One round shrinks the pending list strictly when nothing in it can be read |
| BackgroundWriter.Processor.ReadNewEvents | rust/apps/api-server/src/redis_streams.rs:90 | What is read is the next reply, whole, and becomes exactly the pending list; nothing is read only when nothing waits |
| BackgroundWriter.Processor.FlushMessages | rust/apps/api-server/src/background_writer/mod.rs:238-311 | All or nothing: the table after the whole batch, batch and acknowledgements moved only behind the commit |
| BackgroundWriter.Processor.FlushReadCursors | rust/apps/api-server/src/background_writer/mod.rs:313-343 | The tables equal one-by-one upserts of the private receipts and the coalesced upserts of the group receipts |
| BackgroundWriter.Processor.FlushPending | rust/apps/api-server/src/background_writer/mod.rs:219-226 | Afterwards both batches are empty and everything batched awaits acknowledgement |
| BackgroundWriter.Processor.ApplyStatusEvent | rust/apps/api-server/src/background_writer/mod.rs:345-367 | The update of one row, behind empty batches |
| BackgroundWriter.Processor.ProcessStatus | rust/apps/api-server/src/background_writer/mod.rs:199-202 | A recall or delete flushes both batches first; a stored message then has at least the code that the event asks for, and its time |
| BackgroundWriter.Processor.EnqueueRead | rust/apps/api-server/src/background_writer/mod.rs:369-413 | A receipt goes to the group batch, the private batch, or nowhere at all, with the reader, peer, group, time, sequence and message id that its fields name |
| BackgroundWriter.Processor.ProcessEvent | rust/apps/api-server/src/background_writer/mod.rs:173-207 | Every event ends batched, applied or without effect, and the batches stay below the flush size between events |
| BackgroundWriter.Processor.HandleNext | rust/apps/api-server/src/background_writer/mod.rs:104-116 | Each entry handled is accounted for: still held, to be acknowledged, or malformed |
| BackgroundWriter.Processor.FlushIfDue | rust/apps/api-server/src/background_writer/mod.rs:209-217 | Flushes when something is pending and the interval has passed |
| BackgroundWriter.Processor.ConsumeTurn | rust/apps/api-server/src/background_writer/mod.rs:93-137 | A turn without errors that ends with a flush leaves nothing pending but malformed entries, and one that begins with nothing pending hands on new entries if there are any; only a failing command ends it with an error; every state on the way is a step of the machine |
| BackgroundWriter.Processor.Run | rust/apps/api-server/src/background_writer/mod.rs:42-64 | Any number of turns, restarted after errors, is a run of the machine |
| BackgroundDb.InsertedStatusIsMax | rust/apps/api-server/src/background_writer/background_db.rs:151-156 | After a batch of inserts a status is the greatest of the old one and those inserted under the id |
| BackgroundDb.InsertedColumnsAgree | rust/apps/api-server/src/background_writer/background_db.rs:151-156 | Repeated inserts that agree on the updatable columns leave them fixed |
| BackgroundDb.InsertStorableOnly | rust/apps/api-server/src/background_writer/background_db.rs:32-47 | Dropping messages with invalid ids first changes nothing |
| BackgroundDb.InsertIs | rust/apps/api-server/src/background_writer/background_db.rs:151-156 | A first insert stores its columns; a later one keeps the body, the later time, and a sequence where it brings none |
| BackgroundDb.InsertedTimeIsLatest | rust/apps/api-server/src/background_writer/background_db.rs:151-156 | After a batch the time of update is the latest of the old one and those offered |
| BackgroundDb.InsertedBodyIsFirst | rust/apps/api-server/src/background_writer/background_db.rs:151-156 | The body is the one stored first |
| BackgroundDb.InsertedSeqIsLast | rust/apps/api-server/src/background_writer/background_db.rs:151-156 | The sequence is the last one brought, or the old one if none was |
| BackgroundDb.StatusUpdateIs | rust/apps/api-server/src/background_writer/mod.rs:355-366 | The update writes the greater code and its own time to one row, and nothing else |
| BackgroundDb.CoalescePrivateRefinesOneByOne | rust/apps/api-server/src/background_writer/background_db.rs:260-277 | Coalesced private cursors leave the table as one-by-one upserts do |
| BackgroundDb.UpsertPrivatesIsMax | rust/apps/api-server/src/background_writer/background_db.rs:219-223 | One-by-one private upserts store the latest time offered for the key |
| BackgroundDb.CoalesceGroupKeepsNewest | rust/apps/api-server/src/background_writer/background_db.rs:279-294 | Every key keeps a cursor that has the greatest sequence of the key, and the latest time for that sequence |
| BackgroundDb.UpsertGroupsIsMax | rust/apps/api-server/src/background_writer/background_db.rs:248-253 | One-by-one group upserts store the largest sequence, time and message id offered |
| BackgroundDb.CoalesceGroupIsBelowOneByOne | rust/apps/api-server/src/background_writer/background_db.rs:279-302 | Coalesced group cursors store the same sequence, and never a larger time or message id |
| BackgroundDb.CoalesceGroupExactIff | rust/apps/api-server/src/background_writer/background_db.rs:279-302 | They agree with one-by-one upserts on every table exactly when, for each key, the first cursor that none is newer than is also the latest in time and in message id |
| BackgroundDb.FirstNewestIsKept | rust/apps/api-server/src/background_writer/background_db.rs:279-302 | Coalescing keeps for each key the first cursor that none of the key is newer than |
| BackgroundDb.RisingCursorsCoalesceExactly | rust/apps/api-server/src/background_writer/background_db.rs:279-302 | In particular when sequence, time and message id rise together |
| BackgroundDb.CoalescingCanLoseTheLatestTime | rust/apps/api-server/src/background_writer/mod.rs:421-456 | For the batch of the repository's own coalescing test the table ends with time 0, and with 60 one by one |
| BackgroundDb.ReplayedGroupCursorIff | rust/apps/api-server/src/background_writer/background_db.rs:248-253 | A second upsert of a group cursor changes the row exactly when its message id is zero |
| WriterTransaction.MaxRowsPerStatement | rust/apps/api-server/src/background_writer/background_db.rs:304-306 | As many rows as fit the limit of bound values, and never none |
| WriterTransaction.CoalescePrivateReadCursors | rust/apps/api-server/src/background_writer/background_db.rs:260-277 | The loop over the hash map yields one cursor for each key, the one the specification keeps |
| WriterTransaction.CoalesceGroupReadCursors | rust/apps/api-server/src/background_writer/background_db.rs:279-294 | The same for group cursors |
| WriterTransaction.Transaction.InsertMessageRows | rust/apps/api-server/src/background_writer/background_db.rs:103-160 | Inserting in chunks equals inserting every storable message in order, and each statement binds 60000 values, but for the last, which may bind fewer |
| WriterTransaction.Transaction.UpsertPrivateReadCursors | rust/apps/api-server/src/background_writer/background_db.rs:202-227 | Upserting in chunks equals upserting one by one, and each statement binds 60000 values, but for the last, which may bind fewer |
| WriterTransaction.Transaction.UpsertGroupReadCursors | rust/apps/api-server/src/background_writer/background_db.rs:229-258 | Upserting in chunks equals upserting one by one, and each statement binds 60000 values, but for the last, which may bind fewer |
| Outbox.RunKeepsInv | rust/apps/api-server/src/background_publisher.rs:149-236 | The outbox invariant holds in every run of any number of publishers, cut at every Redis command |
| Outbox.PlanIsSafe | rust/apps/api-server/src/background_publisher.rs:201-235 | The commands of a turn append before they remove, in order, and remove only what was published or was never an event |
| Outbox.EnqueuedIsKept | rust/apps/api-server/src/social_helpers.rs:254-290 | An enqueued event is whole in the outbox or is an entry of its stream |
| Outbox.StagedIsEnqueued | rust/apps/api-server/src/message/message_redis.rs:207-225 | The two commands that enqueue a state event leave what the one atomic step leaves |
| Outbox.LeavesPendingAfterAppend | rust/apps/api-server/src/background_publisher.rs:309-341 | An event leaves the pending set only once it is in its stream |
| Outbox.StaleMemberWasPublished | rust/apps/api-server/src/background_publisher.rs:201-205 | A pending member whose payload is gone is already in a stream |
| Outbox.FirstAppendsFollowScores | rust/apps/api-server/src/background_publisher.rs:156-163 | Events of one hot Redis and one stream first appear there in the order of the pending set |
| Outbox.OrderIsKeptIff | rust/apps/api-server/src/background_publisher.rs:156-163 | Two events of one stream keep their order in every run exactly when they share a hot Redis and the first has the lower score, or an equal one and the lesser member |
| Outbox.StreamHoldsOnlyBirths | rust/apps/api-server/src/background_publisher.rs:309-341 | A stream holds only enqueued events of its kind, with the payload they were enqueued with |
| Outbox.StreamsAreSeparate | rust/apps/api-server/src/background_publisher.rs:238-250 | In every run the group stream holds only events marked for a group, naming a group, or carrying a group message, and the private stream none of them |
| Outbox.TextBeforeIff | rust/apps/api-server/src/background_publisher.rs:156-163 | Equal scores are ordered by the first character in which the members differ, or by which ends first |
| Outbox.MemberRoundTripIff | rust/apps/api-server/src/message/message_redis.rs:42-44 | A pending member leads back to its event id exactly when the id has no separator in it |
| BackgroundPublisher.PendingEventSources | rust/apps/api-server/src/background_publisher.rs:55-91 | Every configured hot Redis is polled exactly once, as shared exactly when both lists name it |
| BackgroundPublisher.Publisher.RemoveStaleEvents | rust/apps/api-server/src/background_publisher.rs:252-271 | The two removals, carried out up to some command when the pipeline fails |
| BackgroundPublisher.Publisher.Publish | rust/apps/api-server/src/background_publisher.rs:309-341 | Appends first and removals only after the appends have succeeded |
| BackgroundPublisher.Publisher.Query | rust/apps/api-server/src/background_publisher.rs:309-341 | A pipeline, or a prefix of it when it fails, is a sequence of steps of the outbox machine, among those of other publishers |
| BackgroundPublisher.Publisher.CarryOut | rust/apps/api-server/src/background_publisher.rs:197-236 | What is sent is a prefix of the safe plan, and the whole of it on success |
| BackgroundPublisher.Publisher.PublishDueEvents | rust/apps/api-server/src/background_publisher.rs:149-236 | A whole turn is part of a run of the outbox; when it succeeds every member fetched has left the pending set, its payload is gone, and every event among them is in the group or the private stream as its fields say; only a failing command keeps it from succeeding |
| Snowflake.PackIsNextWord | rust/crates/im-common/src/ids.rs:20 | Packing a time and sequence gives max(current + 1, now * 4096) in 64 bits, also where the shift drops bits |
| Snowflake.PackingBits | rust/crates/im-common/src/ids.rs:10-20 | The shift, mask and or of the packed word in 64-bit arithmetic |
| Snowflake.IdBits | rust/crates/im-common/src/ids.rs:25-27 | The fields of an id do not overlap and fit 63 bits, in 64-bit arithmetic |
| Snowflake.IdFits | rust/crates/im-common/src/ids.rs:25-31 | Every id fits a positive i64, so the conversion never fails |
| Snowflake.IdDecodes | rust/crates/im-common/src/ids.rs:25-27 | An id decodes to (ms mod 2^41, node, seq) |
| Snowflake.IdsEqualIff | rust/crates/im-common/src/ids.rs:25-27 | Two ids are equal exactly when those parts are |
| Snowflake.IdsRiseWithWords | rust/crates/im-common/src/ids.rs:25-27 | For one node and times below 2^41 ids are ordered as the packed words |
| Snowflake.PackedPartsSuffice | rust/crates/im-common/src/ids.rs:20-27 | Bits lost in packing are not bits of the id |
| Snowflake.WordsRise | rust/crates/im-common/src/ids.rs:7-33 | Under every interleaving, stale relaxed loads included, the words strictly rise and after n ids are at most 4096 * T + n |
| Snowflake.IssuedPairsDiffer | rust/crates/im-common/src/ids.rs:7-33 | The (ms, seq) pairs issued strictly increase in the order of the exchanges |
| Snowflake.IssuedIdsDiffer | rust/crates/im-common/src/ids.rs:7-33 | While ms < 2^41 the ids of one process are distinct, also across nodes, and rise for each node |
| Snowflake.FailureMeansProgress | rust/crates/im-common/src/ids.rs:21-24 | In any run, a failed exchange means that another thread's succeeded since the loaded value was installed, and since the load itself unless the load was stale |
| Snowflake.Generator.ChooseParts | rust/crates/im-common/src/ids.rs:10-19 | The three branches together: time * 4096 + sequence is max(current + 1, now * 4096), for every word and clock |
| Snowflake.Generator.NextId | rust/crates/im-common/src/ids.rs:5-35 | The retry loop, stale loads included, returns the id of the word it has just installed, which is one past the word replaced or the clock read in that turn; it retries only when its load was stale or others got ids in between |
| Snowflake.IdNotBeforeClock | rust/crates/im-common/src/ids.rs:9-27 | Until the word wraps, the time in that id is never before the clock read, and is the clock with sequence 0 when that is ahead |
| Snowflake.IdHasParts | rust/crates/im-common/src/ids.rs:25-28 | The id of a word and a node: the time of the word in 41 bits, the node in 10 bits, its sequence in 12 bits |
| Snowflake.IssuedNotBeforeClock | rust/crates/im-common/src/ids.rs:7-33 | In every run no thread installs a time before the clock it read |
| RouteMachine.RunKeepsInv | rust/apps/im-server/src/route.rs:44-69 | The invariant of lock, tokens, snapshot and log holds in every run whose sections finish within their 3000 ms |
| RouteMachine.OneAtATime | rust/apps/im-server/src/route.rs:211-241 | At most one task of all servers is in its critical section, and the lock is its own |
| RouteMachine.SectionsAreSerial | rust/apps/im-server/src/route.rs:44-69 | Any interleaving leaves the snapshot that the sections leave one after another in lock order, failing commands and crashes included |
| RouteMachine.SectionReadsTheLast | rust/apps/im-server/src/route.rs:146-177 | A section works on what the sections before it left |
| RouteMachine.LateReleaseSparesOthers | rust/apps/im-server/src/route.rs:249-267 | A late release script never deletes the lock of a section still going on |
| RouteMachine.LeaseSurvives | rust/apps/im-server/src/route.rs:44-69 | No server's unexpired lease is lost to another's section whose read succeeded, in any run |
| RouteMachine.LeasesAreKeptIff | rust/apps/im-server/src/route.rs:211-241 | Every run whose sections last at most d keeps every lease that the sections after it should spare, exactly when d is below 3000 ms |
| RouteMachine.LateHolderLosesALease | rust/apps/im-server/src/route.rs:211-241 | For every longer d a run, no command failing, in which another server loses its lease |
| Routes.ServersDoNotInterfere | rust/apps/im-server/src/route.rs:146-209 | Rewriting the whole snapshot is the same as updating each lease on its own |
| Routes.UnexpiredLeaseKept | rust/apps/im-server/src/route.rs:44-69 | The last thing a server wrote is what the snapshot says of it |
| Routes.LeaseLostIff | rust/apps/im-server/src/route.rs:146-160 | A section keeps another server's live lease exactly when its read succeeded, or its write did not |
| Routes.ReadersAgreeIff | rust/apps/api-server/src/route.rs:71-95 | parse_user_routes and get_instance_session_counts name the same servers exactly when no blank server id is live |
| Routes.RoutesSay | rust/apps/api-server/src/route.rs:78-93 | A server has a route exactly when its lease has sessions and has not expired; the route has the lease's own address, or the configured one when that is missing or blank |
| Routes.LeaseIsReadBack | rust/apps/im-server/src/route.rs:55-66 | What a server registers is what both readers find up to the instant it expires, and no longer: its address, its sessions up to 2147483647, and max(ttl, 1000) ms |
| Routes.LongestLease | rust/apps/im-server/src/route.rs:60-62 | A lease that would last beyond 64 bits lasts to the last instant |
| Routes.LeaseIsRemoved | rust/apps/im-server/src/route.rs:53-54 | A server without sessions takes its lease away |
| Routes.FieldIsDeletedIff | rust/apps/im-server/src/route.rs:171-209 | A write leaves leases, and takes the field away exactly when none is left; a section that only loads takes away what it cannot parse |
| Routes.BlankIs | rust/apps/im-server/src/route.rs:165 | A text is blank exactly when every character is white space |
| Routes.WrittenIdsAreNotBlank | rust/apps/im-server/src/route.rs:163-170 | Servers with names never write a blank id |
| Routes.OnlineIffRouted | rust/apps/im-server/src/route.rs:114-125 | A user is online exactly when a route exists, exactly when the wrapped 32-bit sum is positive or nothing is counted |
| Routes.LargeCountsHideAUser | rust/apps/im-server/src/route.rs:118-125 | Any two servers with the largest counts: two routes, and offline |
| Routes.ObjectRecovered | rust/apps/api-server/src/route.rs:110-118 | An object is recovered from anything in front that opens no brace and anything behind that closes none |
| Routes.ObjectIsAround | rust/apps/im-server/src/route.rs:274-282 | What is found is always such an object |
| RouteRegistry.Registry.AcquireLock | rust/apps/im-server/src/route.rs:211-241 | Up to twenty attempts, any of which may take the lock and lose its reply; success means holding the section; unless a command fails, it gives up only when each of the twenty found the lock taken |
| RouteRegistry.Registry.LoadSnapshot | rust/apps/im-server/src/route.rs:146-177 | What is loaded, and the deletion of what cannot be parsed |
| RouteRegistry.Registry.PersistSnapshot | rust/apps/im-server/src/route.rs:179-209 | The section ends with the serial snapshot stored |
| RouteRegistry.Registry.UpsertLocalRoute | rust/apps/im-server/src/route.rs:44-69 | One call is one section of this server's request; the snapshot is then the serial one, and the section read and wrote unless a command failed |
| RouteRegistry.Registry.GetInstanceSessionCounts | rust/apps/im-server/src/route.rs:127-144 | The counts are those of the snapshot that the sections before left; none without the lock |
| RefreshTokens.RefreshesAtMostOnce | rust/apps/api-server/src/auth_token.rs:236-255 | A refresh token succeeds at most once over all interleavings of refreshes, logins and revocations |
| RefreshTokens.ConsumedStaysOut | rust/apps/api-server/src/auth_token.rs:198-208 | A consumed jti is never stored again |
| RefreshTokens.RevocationIsFinalIff | rust/apps/api-server/src/auth_token.rs:144-146 | After the key is deleted no older login ever refreshes again, exactly when no login or refresh is under way |
| RefreshTokens.RevocationInRunIsFinalIff | rust/apps/api-server/src/auth_token.rs:127-152 | The same for each revocation in a run |
| RefreshTokens.RevokedForGoodInRuns | rust/apps/api-server/src/auth_token.rs:135-143 | In runs, tokens issued before a recorded revocation are refused for good, by checks that take time |
| RefreshTokens.RunKeepsInv | rust/apps/api-server/src/auth_token.rs:158-272 | Fresh uuids, the stored jti and tasks under way stay apart from consumed tokens in every run |
| TokenService.Service.IssueTokenPair | rust/apps/api-server/src/auth_token.rs:158-209 | A pair handed out was stored under a jti never used before, for the longer time when the client is to be remembered; only a failing command keeps it back |
| TokenService.Service.Swap | rust/apps/api-server/src/auth_token.rs:236-255 | The compare-and-set consumes a token not consumed before, or leaves the caller without a pair |
| TokenService.Service.RefreshTokenPair | rust/apps/api-server/src/auth_token.rs:211-272 | Tells forged, expired and non-refresh tokens apart without a step; a pair continues the same login, consumes the token and is stored for the time its token asks; unless a command fails, a good token is refused only if it was not current at some moment of the call |
| TokenService.Service.RevokeUserTokens | rust/apps/api-server/src/auth_token.rs:127-152 | The record, of the clock read when the call began, is stored before the key is deleted, and then refreshing is over exactly when nothing is under way |
| Tokens.RevokedForGood | rust/apps/api-server/src/auth_token.rs:346-368 | A token issued at or before a revocation is refused at every later instant, if records outlive tokens by the time a check takes and revocations are stored in the order of their clocks |
| Tokens.ListedForGood | rust/apps/api-server/src/auth_token.rs:304-344 | A token revoked by itself is refused at every later instant, on the same condition |
| Tokens.LaterTokenNotRevoked | rust/apps/api-server/src/auth_token.rs:362-367 | A token issued 1000 ms or more after every revocation is never refused by that check |
| Tokens.RevokedIffNoLaterSecond | rust/apps/api-server/src/auth_token.rs:392 | A revocation hits a token exactly when it was issued no later than the second of the revocation |
| Tokens.VerdictIs | rust/apps/api-server/src/auth_token.rs:274-302 | Expired comes before revoked, and a record counts from when it was stored for its time to live |
| Tokens.QuotientDropsFraction | rust/apps/api-server/src/auth_token.rs:392-393 | Seconds drop the fraction on either side of zero |
| RefreshTokens.PairLasts | rust/apps/api-server/src/auth_token.rs:200-208 | A stored pair is current for exactly the time it was stored for, if nothing else happens |
| Tokens.ExpiryWithinASecond | rust/apps/api-server/src/auth_token.rs:385-393 | Truncation shortens a lifetime by less than a second and never lengthens it |
| Tokens.RefusedForGoodIff | rust/apps/api-server/src/auth_token.rs:274-302 | For any sequence of revocations, any token and any duration of a check: refused from an instant on exactly when expired by then, or the records in force up to the last check that could find it unexpired leave no gap and none is older than the token |
| Tokens.RevokedThroughoutIff | rust/apps/api-server/src/auth_token.rs:346-368 | Refused throughout an interval exactly when every record that reigns in it hits the token and lives until it is replaced |
| Tokens.RefusedByEitherIff | rust/apps/api-server/src/auth_token.rs:274-302 | The exact condition with revocations of the user and of the single token together |
| Tokens.RefusedByOneIff | rust/apps/api-server/src/auth_token.rs:346-368 | With one record: expired already, or of no later second and outlived by the record, the duration of a check included |
| Tokens.ListedForGoodIff | rust/apps/api-server/src/auth_token.rs:304-344 | The same condition for a token revoked by itself |
| Tokens.SlowCheckAcceptsARevokedToken | rust/apps/api-server/src/auth_token.rs:274-302 | With records that live exactly as long as tokens, a check that reads its record 1 ms late accepts a revoked token |
| Tokens.LateStoreBringsATokenBack | rust/apps/api-server/src/auth_token.rs:135-143 | Two revocations stored out of order bring a revoked token back |
| PushDispatcher.Dispatcher.DispatchEvent | rust/apps/api-server/src/push_dispatcher.rs:117-196 | Every recipient occurrence with each of its routes is scheduled exactly once, in requests of 1 to 500 recipients, with no route that had expired when the call began; the routes are those of the routes hash or of valid cache entries, and every recipient of a request has a route to where it goes; offline recipients are counted |
| PushDispatcher.Dispatcher.RoutesForUsers | rust/apps/api-server/src/push_dispatcher.rs:364-413 | Every user gets the routes of its valid cache entry, and otherwise those the routes hash holds, parsed within the call; all unexpired at the start; the cache afterwards holds what was read or what it held; what has been answered and what is valid stays in it, and an oversized one keeps only valid entries; only an unanswered pipeline fails the call |
| PushDispatcher.Dispatcher.LookUp | rust/apps/api-server/src/push_dispatcher.rs:375-384 | The hits and the misses of the cache |
| PushDispatcher.Dispatcher.ReadMisses | rust/apps/api-server/src/push_dispatcher.rs:386-407 | Every miss is answered by the routes hash and cached, or removed when empty |
| PushDispatcher.Dispatcher.ReadOne | rust/apps/api-server/src/push_dispatcher.rs:391-406 | A miss is parsed at a later clock and cached, or removed when empty |
| PushDispatcher.ParseUserRoutes | rust/apps/api-server/src/route.rs:71-95 | One route for each live lease, with the address, server and expiry of that lease |
| PushDispatcher.GroupByRoute | rust/apps/api-server/src/push_dispatcher.rs:131-152 | The batches hold exactly the pairs of recipient and route |
| PushDispatcher.Dispatcher.HitIff | rust/apps/api-server/src/push_dispatcher.rs:484-491 | A cache entry counts while it is no older than configured, or than 100 ms, and all its routes are live |
| PushDispatcher.RoutedServersAre | rust/apps/api-server/src/route.rs:71-95 | The servers routed to are the keys of the filtered snapshot |
| PushDispatcher.SendBatches | rust/apps/api-server/src/push_dispatcher.rs:160-189 | Cutting the batches into chunks loses and repeats nothing |
| PushDispatcher.DistinctValues | rust/apps/api-server/src/push_dispatcher.rs:463-470 | The loop over the set yields the specified list |
| Fanout.EachRecipientOnceIff | rust/apps/api-server/src/push_dispatcher.rs:131-189 | To an address of a server a recipient is scheduled once for every time it is named if a route leads there, and not at all otherwise, exactly when none of its other routes shares the batch of that address |
| Fanout.EachRecipientOnce | rust/apps/api-server/src/push_dispatcher.rs:131-189 | So it is wherever server ids are free of NUL |
| Fanout.SendFollowsRoutes | rust/apps/api-server/src/push_dispatcher.rs:131-189 | Every user of a request was named and has a route to where the request goes |
| Fanout.SendGoesToATarget | rust/apps/api-server/src/push_dispatcher.rs:140 | Without NUL in server ids that is the same address of the same server |
| Fanout.PairsCount | rust/apps/api-server/src/push_dispatcher.rs:133-151 | How often a pair of recipient and target occurs |
| Fanout.OneMoreKey | rust/apps/api-server/src/push_dispatcher.rs:141-150 | The pairs of one more batch are its users |
| Fanout.KeysEqualIffSameTarget | rust/apps/api-server/src/push_dispatcher.rs:140 | With server ids free of NUL, two routes share a batch exactly when they lead to the same place |
| Fanout.TargetIsAloneIff | rust/apps/api-server/src/push_dispatcher.rs:140 | No other target shares the batch of a route exactly when neither its server id nor its address holds a NUL |
| Fanout.NulMixesServers | rust/apps/api-server/src/push_dispatcher.rs:140 | A NUL in a server id mixes two servers |
| Fanout.DistinctHasAll | rust/apps/api-server/src/social_helpers.rs:246-252 | Distinct values are all values, each once |
| Fanout.DistinctKeepsOrder | rust/apps/api-server/src/social_helpers.rs:246-252 | in the order in which they first occur |
| Fanout.DistinctTwice | rust/apps/api-server/src/social_helpers.rs:246-252 | and taking them again changes nothing |
| LocalCache.Cache.GetValue | rust/apps/api-server/src/local_cache.rs:80-90 | A hit is the value last set for the key, unexpired; a live value is missed only when a full cache was cleared since |
| LocalCache.Cache.SetValue | rust/apps/api-server/src/local_cache.rs:92-111 | The whole new state; the size never exceeds 100000 |
| LocalCache.MadeRoom | rust/apps/api-server/src/local_cache.rs:98-103 | What a full cache keeps is part of what it held and leaves room |
| LocalCache.RoomSpares | rust/apps/api-server/src/local_cache.rs:98-103 | A full cache drops an unexpired entry exactly when it holds 100000 of them |
| LocalCache.Cache.GetBool | rust/apps/api-server/src/local_cache.rs:41-46 | A typed hit is the last value set, of that type |
| LocalCache.Cache.SetBool | rust/apps/api-server/src/local_cache.rs:48-51 | The last value set, kept 60 s or 10 s; nothing unexpired is dropped unless the cache holds 100000 unexpired entries |
| LocalCache.Cache.GetIdOption | rust/apps/api-server/src/local_cache.rs:53-58 | A typed hit is the last value set, of that type |
| LocalCache.Cache.SetIdOption | rust/apps/api-server/src/local_cache.rs:60-67 | The last value set, kept 60 s or 10 s; nothing unexpired is dropped unless the cache holds 100000 unexpired entries |
| LocalCache.Cache.GetIds | rust/apps/api-server/src/local_cache.rs:69-74 | A typed hit is the last value set, of that type |
| LocalCache.Cache.SetIds | rust/apps/api-server/src/local_cache.rs:76-78 | The last value set, kept 60 s; nothing unexpired is dropped unless the cache holds 100000 unexpired entries |
| LocalCache.Cache.KeyLock | rust/apps/api-server/src/local_cache.rs:25-39 | Callers of a key share its lock until the table is cleared, no two keys share one, and at most 10000 are held |
| GroupMembers.MemberLists.LoadGroupMembersCached | rust/apps/api-server/src/push_dispatcher.rs:425-457 | The list served is what the database held for the group at some instant at most 360 s, plus twice the time between a read and the write of what was read, before the last read, and not after it; only an unreachable database leaves the call without one |
| GroupMembers.MembersAreActiveOnce | rust/apps/api-server/src/push_dispatcher.rs:415-423 | The members are the users with an active row, each once |
| GroupMembers.MemberLists.LoadGroupMembers | rust/apps/api-server/src/push_dispatcher.rs:415-423 | The users with an active row at that instant, each once |
| SettingsMerge.MergeJson | rust/apps/api-server/src/user_handlers.rs:529-541 | The recursive update with its loop over the fields of the patch terminates and computes the specified merge |
| SettingsMerge.LeafIff | rust/apps/api-server/src/user_handlers.rs:529-541 | A value that is not an object is in the result exactly when the patch has it there, or the base has it and the patch leaves the path |
| SettingsMerge.UntouchedIsKept | rust/apps/api-server/src/user_handlers.rs:529-541 | What the patch neither reaches nor replaces is as it was, whole objects too |
| SettingsMerge.MergeTwice | rust/apps/api-server/src/user_handlers.rs:529-541 | Merging the same patch twice equals merging it once |

## Left out

- Device envelopes: `insert_message_device_envelopes` shares the transaction of the messages; its table is not modelled.
- Database watermarks: they are set unconditionally after a commit, so a replay can lower them; nothing is claimed of them.
- Row ids, `created_time` and `updated_time`: a replay can give other values; only the columns named in the table above are exact.
- WriterCursors.CursorsAreExact: of a group's `last_read_at` it says only that it is that of a committed receipt, because coalescing makes the exact value depend on where batches end; the stored message id is not mentioned for the same reason.
- WriterCursors.CursorsAppliedOnceInOrder: of a group's row it compares the read sequence only, for the same reason.
- WriterRuns.MessageRowIsExact: leaves `updated_time` out, because the UPDATE of a recall sets it unconditionally and a replay can lower it.
- WriterRuns.MessagesAppliedOnceInOrder: leaves `updated_time` out, for the same reason.
- Pipeline.MessageAppliedOnceEndToEnd: leaves `updated_time` out, for the same reason.
- The unique key on sender and client message id, which can merge two messages into one row: message ids are taken to be the only key.
- Dates that do not parse and fall back to the current time: receipts and messages carry dates that parse.
- Expiry of outbox payloads and of the pending set after seven days, eviction, failover and loss of Redis data: a stored payload stays until it is deleted.
- Entries with an empty payload field, which the reader takes for trimmed ones: publishers append JSON only.
- Several writers sharing one consumer name: each stream has one consumer.
- The tables of the two streams are modelled apart: each stream's writer carries the rows that its own events touch.
- A command that Redis refuses inside a pipeline whose later commands it carries out: a failing pipeline is carried out up to some command.
- `last_flush` and the flush interval: whether the interval has passed is a free choice at each turn.
- BackgroundWriter.Processor.ConsumeTurn: the vectors of `Processor` are kept in one record field rather than one field each.
- Hash map order: where the source iterates one, any order is allowed; where it iterates a sorted map, so is any.
- JSON text: a payload or snapshot is either its value or text that does not parse; decimal ids are numbers.
- `internal_ws_url` of a lease, the server node records and their TTL, and `server_nodes`: single writes and a plain filter.
- RouteMachine.SectionsAreSerial: sections must finish within the 3000 ms of their lock; `RouteMachine.LeasesAreKeptIff` shows that they must.
- How long a reply that never comes is waited for, and retries inside the Redis client.
- Signatures, encryption, hashing, cookies and the HTTP layer of the token endpoints: a token that was not issued cannot be presented as valid, uuids are fresh, and a lifetime never overflows 64 bits.
- User resources and permissions kept beside tokens, and the single-token record outside `Tokens`.
- The choice of recipients by event kind and the sending of the HTTP requests: `DispatchEvent` starts from the recipients and ends with the requests scheduled.
- A poisoned mutex in the local cache, which makes it forget everything.
- GroupMembers.MemberLists.LoadGroupMembersCached: other writers of the same keys are taken to follow the same code.
- Payloads that the conversation caches and hot-message scripts write besides the outbox entry: `crate::message` is part of this model only as the producer of events.
- Ratchet encryption, administration, configuration, deployment scripts and user interfaces.
