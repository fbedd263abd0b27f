/**
 The writer's own code (background_writer/mod.rs and the reading half of redis_streams.rs): methods that
 change the fields of `Processor`, with every command to Redis or MySQL allowed to fail, before or after it
 took effect, and with other processes appending and trimming between any two commands.

 The ghost field `run` records the states gone through; `Valid` says they form a run of the state machine.
 So all that WriterRuns proves of runs holds of this code at each of its steps, and when it fails half way.
 */
module BackgroundWriter {
  import opened Options
  import opened Events
  import opened EventLaws
  import opened BackgroundDb
  import opened WriterTransaction
  import opened WriterMachine
  import opened WriterRuns

  /** A stream entry as XREADGROUP returns it; the payload is absent when the entry has been trimmed. */
  datatype StreamEvent = StreamEvent(streamId: nat, payload: Option<Payload>)

  /** `anyhow::Result<bool>`. */
  datatype Outcome = Done(value: bool) | Failed

  class Processor {
    const batchSize: nat
    const limits: Limits
    /** No command to Redis or MySQL fails. */
    const reliable: bool

    // the event stream and its consumer group
    var log: seq<Entry>
    var trimmed: nat
    var delivered: nat
    var pel: set<nat>
    // the database
    var db: Tables
    ghost var committed: set<nat>
    // the process: its vectors in one record
    var memory: Memory

    ghost var run: seq<Consumer>

    ghost function State(): Consumer
      reads this
    {
      Consumer(log, trimmed, delivered, pel, db, committed, memory)
    }

    ghost predicate Valid()
      reads this
    {
      && limits.count == Max(1, batchSize)
      && IsRun(run, limits)
      && Last(run) == State()
    }

    /** What other processes may have done since the run `before`: only the stream differs. */
    ghost predicate OnlyStreamMoved(s: Consumer)
      reads this
    {
      && s.log <= log && s.trimmed <= trimmed
      && State() == s.(log := log, trimmed := trimmed)
    }

    constructor (batchSize: nat, maxLen: nat, reliable: bool)
      requires maxLen >= 1
      ensures Valid() && memory == FRESH_MEMORY && this.batchSize == batchSize && this.reliable == reliable
    {
      this.batchSize, this.reliable := batchSize, reliable;
      limits := Limits(Max(1, batchSize), maxLen);
      log, trimmed, delivered, pel := [], 0, 0, {};
      db, committed := EMPTY_TABLES, {};
      memory := FRESH_MEMORY;
      run := [Consumer([], 0, 0, {}, EMPTY_TABLES, {}, FRESH_MEMORY)];
    }

    /** Records a step that has just changed the fields. */
    ghost method Record(action: Action)
      requires limits.count == Max(1, batchSize) && IsRun(run, limits) && StepBy(Last(run), State(), limits, action)
      modifies `run
      ensures Valid() && old(run) <= run
    {
      Extend(run, State(), limits);
      run := run + [State()];
    }

    /** Other processes append to the stream, which may trim its head. */
    method Others()
      requires Valid()
      modifies `log, `trimmed, `run
      ensures Valid() && old(run) <= run && OnlyStreamMoved(old(State()))
    {
      var appends :| 0 <= appends;
      for i := 0 to appends
        invariant Valid() && old(run) <= run && OnlyStreamMoved(old(State()))
      {
        var entry: Entry := *;
        var cut :| 0 <= cut;
        ghost var before := State();
        log := log + [entry];
        if trimmed <= cut && cut + limits.maxLen <= |log| {
          trimmed := cut;
        }
        assert trimmed <= |log| by {
          RunKeepsInv(run, limits, |run| - 1);
        }
        assert log == before.log + [log[|before.log|]];
        Record(Appending);
      }
    }

    // ---------- redis_streams.rs ----------

    /** The reply of the server: the first ids of the pending list. */
    method PendingIds() returns (ids: seq<nat>)
      requires Valid()
      ensures PendingReply(ids, pel, limits.count)
    {
      RunKeepsInv(run, limits, |run| - 1);
      ids := [];
      var id := 0;
      while id < delivered && |ids| < limits.count
        invariant id <= delivered && |ids| <= limits.count && Ascending(ids)
        invariant forall k :: 0 <= k < |ids| ==> ids[k] < id && ids[k] in pel
        invariant forall q: nat :: q in pel && q < id ==> q in ids
      {
        if id in pel {
          ids := ids + [id];
        }
        id := id + 1;
      }
    }

    /** `read_group_events_from` with start id 0: the head of this consumer's pending list. */
    method ReadPendingEvents() returns (ok: bool, events: seq<StreamEvent>)
      requires Valid()
      modifies `log, `trimmed, `run
      ensures Valid() && old(run) <= run && OnlyStreamMoved(old(State()))
      ensures ok ==> PendingReply(IdsOf(events), pel, limits.count)
      ensures ok ==> forall e :: e in events ==> (e.payload.None? <==> e.streamId < trimmed)
      ensures ok ==> forall e :: e in events && e.payload.Some? ==> e.streamId < |log| && e.payload.value == log[e.streamId].payload
      ensures reliable ==> ok
    {
      Others();
      ok := *;
      ok := ok || reliable;
      events := [];
      var ids := PendingIds();
      PendingInLog();
      for i := 0 to |ids|
        invariant IdsOf(events) == ids[..i]
        invariant forall e :: e in events ==> (e.payload.None? <==> e.streamId < trimmed)
        invariant forall e :: e in events && e.payload.Some? ==>
          e.streamId < |log| && e.payload.value == log[e.streamId].payload
      {
        assert ids[i] in pel;
        ghost var before := IdsOf(events);
        events := events + [StreamEvent(ids[i], if ids[i] < trimmed then None else Some(log[ids[i]].payload))];
        assert IdsOf(events) == before + [ids[i]];
      }
      assert ids[..|ids|] == ids;
    }

    /** `read_group_events`: what is pending first, then, with nothing pending, new entries. */
    method ReadGroupEvents() returns (ok: bool)
      requires Valid() && memory.todo == [] && memory.immediateAckIds == []
      modifies `log, `trimmed, `run, `pel, `delivered, `memory
      ensures Valid() && old(run) <= run
      ensures memory == old(memory).(todo := memory.todo) && db == old(db) && committed == old(committed)
      ensures old(trimmed) <= trimmed
      ensures delivered != old(delivered) ==> forall q :: q in old(pel) ==> q < trimmed
      ensures ok ==> pel == Ids(memory.todo)
      ensures ok && (forall q :: q in old(pel) ==> q < old(trimmed)) ==> HandedOn(old(delivered), |old(log)|)
      ensures ok && memory.todo == [] ==> delivered == old(delivered) && |log| <= Max(delivered, trimmed)
      ensures reliable ==> ok
    {
      while true
        invariant Valid() && old(run) <= run && memory.todo == [] && pel <= old(pel)
        invariant memory == old(memory) && db == old(db) && committed == old(committed) && delivered == old(delivered)
        invariant |old(log)| <= |log|
        invariant old(trimmed) <= trimmed && forall q :: q in old(pel) && q !in pel ==> q < trimmed
        decreases |pel|
      {
        var nonePending;
        ghost var pending := pel;
        ok, nonePending := ReadPendingRound();
        assert memory.todo != [] ==> memory.todo[0] in memory.todo;
        if !ok || memory.todo != [] {
          return;
        }
        if nonePending {
          break;
        }
        ProperSubsetCardinality(pel, pending);
      }
      ok := ReadNewEvents();
    }

    /** One turn of that loop: the pending list is read, its trimmed entries acknowledged, the rest kept in `todo`. */
    method ReadPendingRound() returns (ok: bool, nonePending: bool)
      requires Valid() && memory.todo == [] && memory.immediateAckIds == []
      modifies `log, `trimmed, `run, `pel, `memory
      ensures Valid() && old(run) <= run
      ensures memory == old(memory).(todo := memory.todo) && db == old(db) && committed == old(committed)
      ensures old(trimmed) <= trimmed && pel <= old(pel) && forall q :: q in old(pel) && q !in pel ==> q < trimmed
      ensures ok && nonePending ==> pel == {} && memory.todo == []
      ensures ok && !nonePending && memory.todo == [] ==> pel < old(pel)
      ensures ok && memory.todo != [] ==> pel == Ids(memory.todo) && forall id :: id in memory.todo ==> id in old(pel) && old(trimmed) <= id
      ensures |old(log)| <= |log|
      ensures reliable ==> ok
    {
      var events;
      nonePending := false;
      ok, events := ReadPendingEvents();
      if !ok {
        return;
      }
      PendingFitsReply();
      WholePendingListRead(IdsOf(events), pel, limits.count);
      if events == [] {
        nonePending := true;
        return;
      }
      var staleIds, ready := SplitStaleEvents(events);
      SplitIsReady(events, trimmed);
      SplitCovers(events, staleIds, trimmed);
      ok := TakeReply(IdsOf(events), staleIds, IdsOf(ready));
    }

    lemma PendingFitsReply()
      requires Valid()
      ensures |pel| <= limits.count
    {
      RunKeepsInv(run, limits, |run| - 1);
    }

    /** Keeps the readable part of a reply and acknowledges the trimmed part. */
    method TakeReply(ghost ids: seq<nat>, staleIds: seq<nat>, ready: seq<nat>) returns (ok: bool)
      requires Valid() && memory.todo == [] && memory.immediateAckIds == []
      requires ids != [] && PendingReply(ids, pel, limits.count) && Ids(ids) == pel
      requires ready == Ready(ids, trimmed)
      requires forall id :: id in staleIds <==> id in ids && id < trimmed
      modifies `log, `trimmed, `run, `pel, `memory
      ensures Valid() && old(run) <= run
      ensures memory == old(memory).(todo := ready) && db == old(db) && committed == old(committed)
      ensures old(trimmed) <= trimmed && pel <= old(pel) && forall q :: q in old(pel) && q !in pel ==> q < trimmed
      ensures ok ==> pel == Ids(ready) && (ready == [] ==> pel < old(pel))
      ensures |old(log)| <= |log|
      ensures reliable ==> ok
    {
      ok := true;
      if ready != [] {
        memory := memory.(todo := ready);
        Record(ReadingPending(ids));
      }
      assert ids[0] in pel;
      if staleIds != [] {
        ok := Ack(staleIds);
      }
    }

    /** `split_stale_events`. */
    method SplitStaleEvents(events: seq<StreamEvent>) returns (staleIds: seq<nat>, ready: seq<StreamEvent>)
      ensures ready == WithPayload(events)
      ensures forall id :: id in staleIds <==> exists e :: e in events && e.payload.None? && e.streamId == id
      ensures staleIds == [] && ready == [] ==> events == []
    {
      staleIds, ready := [], [];
      for i := 0 to |events|
        invariant ready == WithPayload(events[..i]) && staleIds == WithoutPayload(events[..i])
        invariant |staleIds| + |ready| == i
      {
        SplitNext(events, i);
        if events[i].payload.None? {
          staleIds := staleIds + [events[i].streamId];
        } else {
          ready := ready + [events[i]];
        }
      }
      assert events[..|events|] == events;
      WithoutPayloadAre(events);
    }

    /** XACK of entries that MAXLEN removed. */
    method Ack(ids: seq<nat>) returns (ok: bool)
      requires Valid() && forall id :: id in ids ==> id < trimmed
      modifies `log, `trimmed, `run, `pel
      ensures Valid() && old(run) <= run
      ensures State() == old(State()).(log := log, trimmed := trimmed, pel := pel)
      ensures old(trimmed) <= trimmed && |old(log)| <= |log|
      ensures pel == old(pel) || pel == old(pel) - Ids(ids)
      ensures ok ==> pel == old(pel) - Ids(ids)
      ensures reliable ==> ok
    {
      Others();
      ok := *;
      ok := ok || reliable;
      var applied: bool := *;
      if ok || applied {
        pel := pel - Ids(ids);
        Record(AckingStale);
      }
    }

    /** With entries beyond `from` in a stream of `length`, some have been handed on. */
    predicate HandedOn(from: nat, length: nat)
      reads this
    {
      from < length ==> from < delivered
    }

    /** The entries handed on begin behind those delivered or trimmed before, and stop at `count` or the end of the stream. */
    predicate WholeReply(from: nat)
      reads this
    {
      var start: nat := Max(from, trimmed);
      && start < delivered && memory.todo == Span(start, delivered)
      && delivered == if start + limits.count <= |log| then start + limits.count else |log|
    }

    /** `read_group_events_from` with `>`: new entries, if there are any. */
    method ReadNewEvents() returns (ok: bool)
      requires Valid() && memory.todo == [] && memory.immediateAckIds == [] && pel == {}
      modifies `log, `trimmed, `run, `pel, `delivered, `memory
      ensures Valid() && old(run) <= run
      ensures memory == old(memory).(todo := memory.todo) && db == old(db) && committed == old(committed)
      ensures old(trimmed) <= trimmed && (pel == {} || pel == Ids(memory.todo))
      ensures ok ==> pel == Ids(memory.todo)
      ensures ok ==> HandedOn(old(delivered), |old(log)|)
      ensures ok ==> if memory.todo == [] then delivered == old(delivered) && |log| <= Max(delivered, trimmed) else WholeReply(old(delivered))
      ensures reliable ==> ok
    {
      Others();
      TrimmedBelowEnd();
      ok := *;
      ok := ok || reliable;
      var start := if delivered >= trimmed then delivered else trimmed;
      if start < |log| {
        var applied: bool := *;
        if ok || applied {
          HandOn(start);
        }
      } else {
        assert pel == Ids(memory.todo);
      }
    }

    method HandOn(start: nat)
      requires Valid() && memory.todo == [] && memory.immediateAckIds == [] && pel == {}
      requires start == Max(delivered, trimmed) < |log|
      modifies `run, `pel, `delivered, `memory
      ensures Valid() && old(run) <= run
      ensures memory == old(memory).(todo := memory.todo) && memory.todo != [] && pel == Ids(memory.todo)
      ensures WholeReply(old(delivered))
    {
      var end := if start + limits.count <= |log| then start + limits.count else |log|;
      delivered := end;
      pel := Ids(Span(start, end));
      memory := memory.(todo := Span(start, end));
      Record(ReadingNew);
    }

    /** MAXLEN never removes the newest entry. */
    lemma TrimmedBelowEnd()
      requires Valid()
      ensures |log| > 0 ==> trimmed < |log|
    {
      RunKeepsOneReply(run, limits, |run| - 1);
    }

  // ---------- background_writer/mod.rs ----------

    /** Between events the batches stay below the size at which they are flushed. */
    ghost predicate BatchesBounded()
      reads this
    {
      |memory.messageBatch| < limits.count && |memory.privateReadBatch| + |memory.groupReadBatch| < limits.count
    }

    /** Opens a transaction on the current tables, unless the database cannot be reached. */
    method Begin() returns (tx: Transaction?)
      requires Valid()
      modifies `log, `trimmed, `run
      ensures Valid() && old(run) <= run && OnlyStreamMoved(old(State()))
      ensures tx != null ==> fresh(tx) && tx.tables == db
      ensures reliable ==> tx != null
    {
      Others();
      var reached: bool := *;
      if reached || reliable {
        tx := new Transaction(db);
      } else {
        tx := null;
      }
    }

    /** The transaction of `flush_messages`. It may commit and still be reported as failed. */
    method CommitMessageBatch() returns (ok: bool)
      requires Valid()
      modifies `log, `trimmed, `run, `db, `committed
      ensures Valid() && old(run) <= run && old(log) <= log && old(committed) <= committed
      ensures ok ==> Ids(memory.messageAckIds) <= committed
      ensures ok ==> db == old(db).(messages := InsertMessages(old(db).messages, memory.messageBatch))
      ensures reliable ==> ok
    {
      var tx := Begin();
      if tx == null {
        return false;
      }
      tx.InsertMessageRows(memory.messageBatch);
      ok := *;
      ok := ok || reliable;
      var applied: bool := *;
      if ok || applied {
        db := tx.tables;
        committed := committed + Ids(memory.messageAckIds);
        Record(CommittingMessages);
      }
    }

    /** `flush_messages`: one transaction, then the acknowledgements move to the flushed list. */
    method FlushMessages() returns (r: Outcome)
      requires Valid()
      modifies `log, `trimmed, `run, `db, `committed, `memory
      ensures Valid() && old(run) <= run && old(log) <= log && old(committed) <= committed
      ensures r.Done? ==>
        && r.value == (old(memory.messageBatch) != [])
        && memory == (if r.value then ClearedMessages(old(memory)) else old(memory))
        && db == old(db).(messages := InsertMessages(old(db).messages, old(memory.messageBatch)))
      ensures reliable ==> r.Done?
    {
      if memory.messageBatch == [] {
        return Done(false);
      }
      var ok := CommitMessageBatch();
      if !ok {
        return Failed;
      }
      memory := memory.(messageBatch := []);
      memory := memory.(flushedAckIds := memory.flushedAckIds + memory.messageAckIds, messageAckIds := []);
      Record(ClearingMessages);
      return Done(true);
    }

    method RunUpserts(tx: Transaction, private: seq<PrivateCursor>, group: seq<GroupCursor>,
                      ghost privates: map<(int, int), PrivateCursor>, ghost groups: map<(int, int), GroupCursor>)
      requires ListsPrivate(private, privates) && ListsGroup(group, groups)
      modifies tx
      ensures tx.tables == old(tx.tables).(
        privates := UpsertPrivateMap(old(tx.tables).privates, privates),
        groups := UpsertGroupMap(old(tx.tables).groups, groups))
    {
      UpsertListedPrivates(tx.tables.privates, private, privates);
      UpsertListedGroups(tx.tables.groups, group, groups);
      tx.UpsertPrivateReadCursors(private);
      tx.UpsertGroupReadCursors(group);
    }

    /** The transaction of `flush_read_cursors`, over the coalesced batches. */
    method CommitReadBatches() returns (ok: bool)
      requires Valid()
      modifies `log, `trimmed, `run, `db, `committed
      ensures Valid() && old(run) <= run && old(log) <= log && old(committed) <= committed
      ensures ok ==> Ids(memory.privateReadAckIds + memory.groupReadAckIds) <= committed
      ensures ok ==> db == old(db).(
        privates := UpsertPrivateMap(old(db).privates, CoalescePrivate(memory.privateReadBatch)),
        groups := UpsertGroupMap(old(db).groups, CoalesceGroup(memory.groupReadBatch)))
      ensures reliable ==> ok
    {
      var private := CoalescePrivateReadCursors(memory.privateReadBatch);
      var group := CoalesceGroupReadCursors(memory.groupReadBatch);
      var tx := Begin();
      if tx == null {
        return false;
      }
      RunUpserts(tx, private, group, CoalescePrivate(memory.privateReadBatch), CoalesceGroup(memory.groupReadBatch));
      ok := *;
      ok := ok || reliable;
      var applied: bool := *;
      if ok || applied {
        db := tx.tables;
        committed := committed + Ids(memory.privateReadAckIds + memory.groupReadAckIds);
        Record(CommittingReads);
      }
    }

    /** `flush_read_cursors`: both batches are coalesced and upserted in one transaction. */
    method FlushReadCursors() returns (r: Outcome)
      requires Valid()
      modifies `log, `trimmed, `run, `db, `committed, `memory
      ensures Valid() && old(run) <= run && old(log) <= log && old(committed) <= committed
      ensures r.Done? ==>
        && r.value == (old(memory.privateReadBatch) != [] || old(memory.groupReadBatch) != [])
        && memory == (if r.value then ClearedReads(old(memory)) else old(memory))
      ensures r.Done? ==> db == old(db).(
        privates := UpsertPrivates(old(db).privates, old(memory.privateReadBatch)),
        groups := UpsertGroupMap(old(db).groups, CoalesceGroup(old(memory.groupReadBatch))))
      ensures reliable ==> r.Done?
    {
      CoalescePrivateRefinesOneByOne(db.privates, memory.privateReadBatch);
      if memory.privateReadBatch == [] && memory.groupReadBatch == [] {
        assert UpsertGroupMap(db.groups, map[]) == db.groups;
        return Done(false);
      }
      var ok := CommitReadBatches();
      if !ok {
        return Failed;
      }
      ClearReadBatches();
      return Done(true);
    }

    method ClearReadBatches()
      requires Valid() && Ids(memory.privateReadAckIds + memory.groupReadAckIds) <= committed
      modifies `run, `memory
      ensures Valid() && old(run) <= run && memory == ClearedReads(old(memory))
    {
      memory := memory.(privateReadBatch := [], groupReadBatch := []);
      memory := memory.(flushedAckIds := memory.flushedAckIds + memory.privateReadAckIds, privateReadAckIds := []);
      memory := memory.(flushedAckIds := memory.flushedAckIds + memory.groupReadAckIds, groupReadAckIds := []);
      Record(ClearingReads);
    }

    /** `flush_pending`. */
    method FlushPending() returns (r: Outcome)
      requires Valid()
      modifies `log, `trimmed, `run, `db, `committed, `memory
      ensures Valid() && old(run) <= run && old(log) <= log && old(committed) <= committed
      ensures r.Done? ==> memory.todo == old(memory.todo) && NoBatch(memory) && Settled(old(memory), memory)
      ensures reliable ==> r.Done?
    {
      BatchesParallel();
      r := FlushMessages();
      if r.Failed? {
        return;
      }
      ghost var between := memory;
      BatchesParallel();
      r := FlushReadCursors();
      FlushSettles(old(memory));
      FlushSettles(between);
    }

    /** Parallel lists: an empty batch has no ids waiting to be acknowledged. */
    lemma BatchesParallel()
      requires Valid()
      ensures |memory.messageBatch| == |memory.messageAckIds| && |memory.privateReadBatch| == |memory.privateReadAckIds|
      ensures |memory.groupReadBatch| == |memory.groupReadAckIds|
    {
      RunKeepsInv(run, limits, |run| - 1);
    }

    /** `apply_status`: the UPDATE behind a recall or delete. */
    method ApplyStatusEvent(id: int, code: int, at: int) returns (ok: bool)
      requires Valid() && memory.todo != [] && NoBatch(memory)
      requires EffectAt(log, memory.todo[0]) == SetStatus(id, code, at)
      modifies `log, `trimmed, `run, `db, `committed
      ensures Valid() && old(run) <= run && old(committed) <= committed && old(log) <= log
      ensures ok ==> memory.todo[0] in committed
      ensures ok ==> db == old(db).(messages := UpdateStatus(old(db).messages, id, code, at))
      ensures reliable ==> ok
    {
      RunKeepsInv(run, limits, |run| - 1);
      assert memory.todo[0] in memory.todo;
      Others();
      ok := *;
      ok := ok || reliable;
      var applied: bool := *;
      if ok || applied {
        db := db.(messages := UpdateStatus(db.messages, id, code, at));
        committed := committed + {memory.todo[0]};
        Record(ApplyingStatus);
      }
    }

    /** `enqueue_read`: a receipt that names no reader, or no group and no peer, is left unacknowledged. */
    method EnqueueRead(event: ImEvent)
      requires Valid() && memory.todo != [] && memory.todo[0] < |log| && log[memory.todo[0]].payload == Json(event)
      requires event.eventType.MessageRead?
      modifies `run, `memory
      ensures Valid() && old(run) <= run
      ensures memory == Enqueue(old(memory).(todo := old(memory.todo)[1..]), old(memory.todo)[0], EffectAt(log, old(memory.todo)[0]))
      ensures forall user, peer, at :: PrivateReceipt(Json(event), user, peer, at) ==>
        memory.privateReadBatch == old(memory.privateReadBatch) + [PrivateCursor(user, peer, at)]
      ensures forall group, reader, at, readSeq, messageId :: GroupReceipt(Json(event), group, reader, at, readSeq, messageId) ==>
        memory.groupReadBatch == old(memory.groupReadBatch) + [GroupCursor(group, reader, at, readSeq, messageId)]
      ensures NeverAcknowledged(Json(event)) ==> memory == old(memory).(todo := old(memory.todo)[1..])
    {
      var streamId := memory.todo[0];
      memory := memory.(todo := memory.todo[1..]);
      if event.readReceipt.Some? && event.readReceipt.value.readerId.Some? {
        var receipt := event.readReceipt.value;
        var readerId := receipt.readerId.value;
        if GroupIdOf(event).Some? {
          var cursor := GroupCursor(
            GroupIdOf(event).value, readerId, receipt.readAt, receipt.lastReadSeq.GetOr(0), receipt.lastReadMessageId);
          memory := memory.(groupReadBatch := memory.groupReadBatch + [cursor]);
          memory := memory.(groupReadAckIds := memory.groupReadAckIds + [streamId]);
        } else {
          var peerId := if event.targetUserId.Some? then event.targetUserId else receipt.toUserId;
          if peerId.Some? {
            var cursor := PrivateCursor(readerId, peerId.value, receipt.readAt);
            memory := memory.(privateReadBatch := memory.privateReadBatch + [cursor]);
            memory := memory.(privateReadAckIds := memory.privateReadAckIds + [streamId]);
          }
        }
      }
      Record(Processing);
    }

    /** The branch of `process` for a created message. */
    method ProcessCreated(message: Message) returns (r: Outcome)
      requires Valid() && BatchesBounded()
      requires memory.todo != [] && EffectAt(log, memory.todo[0]) == Insert(message)
      modifies `log, `trimmed, `run, `db, `committed, `memory
      ensures Valid() && old(run) <= run && old(log) <= log && old(committed) <= committed
      ensures r.Failed? || r == Done(true)
      ensures r.Done? ==> BatchesBounded() && memory.todo == old(memory.todo)[1..] && Settled(old(memory), memory)
      ensures r.Done? ==> Batched(memory, old(memory.todo)[0]) || old(memory.todo)[0] in memory.flushedAckIds
      ensures reliable ==> r.Done?
    {
      memory := memory.(messageBatch := memory.messageBatch + [message]);
      memory := memory.(messageAckIds := memory.messageAckIds + [memory.todo[0]]);
      memory := memory.(todo := memory.todo[1..]);
      Record(Processing);
      ghost var batched := memory;
      BatchesParallel();
      if |memory.messageBatch| >= batchSize {
        r := FlushMessages();
        if r.Failed? {
          return;
        }
      }
      FlushSettles(batched);
      return Done(true);
    }

    /** A full batch of receipts is flushed. */
    method FlushFullReads() returns (r: Outcome)
      requires Valid() && |memory.messageBatch| < limits.count
      modifies `log, `trimmed, `run, `db, `committed, `memory
      ensures Valid() && old(run) <= run && old(log) <= log && old(committed) <= committed
      ensures r.Failed? || r == Done(true)
      ensures r.Done? ==> BatchesBounded() && memory.todo == old(memory.todo) && Settled(old(memory), memory)
      ensures reliable ==> r.Done?
    {
      FlushSettles(memory);
      BatchesParallel();
      if |memory.privateReadBatch| + |memory.groupReadBatch| >= batchSize {
        r := FlushReadCursors();
        if r.Failed? {
          return;
        }
      }
      return Done(true);
    }

    /** The branch of `process` for a read receipt. */
    method ProcessRead(event: ImEvent) returns (r: Outcome)
      requires Valid() && BatchesBounded() && event.eventType.MessageRead?
      requires memory.todo != [] && memory.todo[0] < |log| && log[memory.todo[0]].payload == Json(event)
      modifies `log, `trimmed, `run, `db, `committed, `memory
      ensures Valid() && old(run) <= run && old(log) <= log && old(committed) <= committed
      ensures r.Failed? || r == Done(true)
      ensures r.Done? ==> BatchesBounded() && memory.todo == old(memory.todo)[1..] && Settled(old(memory), memory)
      ensures r.Done? ==>
        var id := old(memory.todo)[0];
        EffectAt(log, id).Malformed? || Batched(memory, id) || id in memory.flushedAckIds
      ensures reliable ==> r.Done?
    {
      ghost var effect := EffectAt(log, memory.todo[0]);
      ReceiptSettles(memory, memory.todo[0], effect);
      EnqueueRead(event);
      r := FlushFullReads();
    }

    /** The branch of `process` for a recall or delete: everything batched is committed before the UPDATE. */
    method ProcessStatus(event: ImEvent) returns (r: Outcome)
      requires Valid() && BatchesBounded() && (event.eventType.MessageRecalled? || event.eventType.MessageDeleted?)
      requires memory.todo != [] && memory.todo[0] < |log| && log[memory.todo[0]].payload == Json(event)
      modifies `log, `trimmed, `run, `db, `committed, `memory
      ensures Valid() && old(run) <= run && old(log) <= log && old(committed) <= committed
      ensures r.Failed? || r == Done(false)
      ensures r.Done? ==> memory.todo == old(memory.todo) && NoBatch(memory) && Settled(old(memory), memory)
      ensures r.Done? ==> var id := old(memory.todo)[0];
        EffectAt(log, id).Nothing? || (EffectAt(log, id).SetStatus? && id in committed)
      ensures r.Done? ==> forall m, code :: SetsStatus(Json(event), m, code) && m in db.messages ==>
        code <= db.messages[m].status && db.messages[m].updatedAt == event.timestamp
      ensures reliable ==> r.Done?
    {
      r := FlushPending();
      if r.Failed? {
        return;
      }
      if event.messageId.Some? {
        var ok := ApplyStatusEvent(event.messageId.value, StatusCodeOf(event), event.timestamp);
        if !ok {
          return Failed;
        }
      }
      return Done(false);
    }

    /** `process`, for the entry at the head of `todo`; `Done(true)` means that its acknowledgement is deferred. */
    method ProcessEvent(event: ImEvent) returns (r: Outcome)
      requires Valid() && BatchesBounded()
      requires memory.todo != [] && memory.todo[0] < |log| && log[memory.todo[0]].payload == Json(event)
      modifies `log, `trimmed, `run, `db, `committed, `memory
      ensures Valid() && old(run) <= run && old(log) <= log && old(committed) <= committed
      ensures r.Done? ==> BatchesBounded() && Settled(old(memory), memory)
      ensures r.Done? && r.value ==>
        && memory.todo == old(memory.todo)[1..]
        && var id := old(memory.todo)[0];
           EffectAt(log, id).Malformed? || Batched(memory, id) || id in memory.flushedAckIds
      ensures r.Done? && !r.value ==>
        && memory.todo == old(memory.todo)
        && (EffectAt(log, memory.todo[0]).Nothing? || (EffectAt(log, memory.todo[0]).SetStatus? && memory.todo[0] in committed))
      ensures reliable ==> r.Done?
    {
      match event.eventType {
      case MessageCreated =>
        if event.payload.Some? {
          r := ProcessCreated(event.payload.value);
          return;
        }
      case MessageRead =>
        r := ProcessRead(event);
        return;
      case MessageRecalled | MessageDeleted =>
        r := ProcessStatus(event);
        return;
      case _ =>
      }
      return Done(false);
    }

    /** The entry will be acknowledged, is still to be handled, or never will be. */
    ghost predicate Accounted(id: nat)
      reads this
    {
      AccountedIn(memory, log, id)
    }

    /** `serde_json::from_str` succeeded: the event is processed, and acknowledged at the end of the turn unless it was batched. */
    method HandleEvent(event: ImEvent) returns (ok: bool)
      requires Valid() && BatchesBounded()
      requires memory.todo != [] && memory.todo[0] < |log| && log[memory.todo[0]].payload == Json(event)
      modifies `log, `trimmed, `run, `db, `committed, `memory
      ensures Valid() && old(run) <= run && old(log) <= log
      ensures ok ==> memory.todo == old(memory.todo)[1..] && BatchesBounded()
      ensures ok ==> HandledFrom(old(memory), memory, log, old(memory.todo)[0])
      ensures reliable ==> ok
    {
      var id := memory.todo[0];
      var r := ProcessEvent(event);
      if r.Failed? {
        return false;
      }
      if !r.value {
        memory := memory.(todo := memory.todo[1..], immediateAckIds := memory.immediateAckIds + [id]);
        Record(Processing);
      }
      ok := true;
    }

    /** One iteration over the events of a reply. */
    method HandleNext() returns (ok: bool)
      requires Valid() && BatchesBounded() && memory.todo != []
      modifies `log, `trimmed, `run, `db, `committed, `memory
      ensures Valid() && old(run) <= run && old(log) <= log
      ensures ok ==> memory.todo == old(memory.todo)[1..] && BatchesBounded()
      ensures ok ==> forall id: nat :: id < |old(log)| && old(Accounted(id)) ==> Accounted(id)
      ensures reliable ==> ok
    {
      RunKeepsInv(run, limits, |run| - 1);
      var id := memory.todo[0];
      assert id in memory.todo;
      ghost var before, entries := memory, log;
      match log[id].payload {
      case Json(event) =>
        ok := HandleEvent(event);
      case NotJson =>
        memory := memory.(todo := memory.todo[1..]);
        Record(Processing);
        ok := true;
      }
      if ok {
        HandlingAccounts(before, memory, entries, log, id);
      }
    }

    /** `flush_if_due`; `elapsed` tells whether the flush interval has passed. */
    method FlushIfDue(elapsed: bool) returns (ok: bool)
      requires Valid() && BatchesBounded()
      modifies `log, `trimmed, `run, `db, `committed, `memory
      ensures Valid() && old(run) <= run && old(log) <= log
      ensures ok ==> memory.todo == old(memory.todo) && BatchesBounded() && Settled(old(memory), memory)
      ensures ok && elapsed ==> NoBatch(memory)
      ensures reliable ==> ok
    {
      ok := true;
      FlushSettles(memory);
      if (memory.messageBatch != [] || memory.privateReadBatch != [] || memory.groupReadBatch != []) && elapsed {
        var r := FlushPending();
        ok := r.Done?;
      }
    }

    /** The two acknowledgements that end a turn of the loop. */
    method AckImmediateIds() returns (ok: bool)
      requires Valid() && memory.todo == []
      modifies `log, `trimmed, `run, `pel, `memory
      ensures Valid() && old(run) <= run && old(log) <= log
      ensures ok ==> pel == old(pel) - Ids(old(memory.immediateAckIds)) && memory == old(memory).(immediateAckIds := [])
      ensures reliable ==> ok
    {
      ok := true;
      if memory.immediateAckIds != [] {
        Others();
        ok := *;
        ok := ok || reliable;
      ok := ok || reliable;
        var applied: bool := *;
        if ok || applied {
          pel := pel - Ids(memory.immediateAckIds);
          memory := memory.(immediateAckIds := []);
          Record(AckingImmediate);
        }
      }
    }

    method AckFlushedIds() returns (ok: bool)
      requires Valid() && memory.todo == []
      modifies `log, `trimmed, `run, `pel, `memory
      ensures Valid() && old(run) <= run && old(log) <= log
      ensures ok ==> pel == old(pel) - Ids(old(memory.flushedAckIds)) && memory == old(memory).(flushedAckIds := [])
      ensures reliable ==> ok
    {
      ok := true;
      if memory.flushedAckIds != [] {
        Others();
        ok := *;
        ok := ok || reliable;
      ok := ok || reliable;
        var applied: bool := *;
        if ok || applied {
          pel := pel - Ids(memory.flushedAckIds);
          memory := memory.(flushedAckIds := []);
          Record(AckingFlushed);
        }
      }
    }

    /** The loop over the events of a reply. */
    method HandleAll() returns (ok: bool)
      requires Valid() && BatchesBounded()
      requires forall id :: id in pel ==> id < |log| && Accounted(id)
      modifies `log, `trimmed, `run, `db, `committed, `memory
      ensures Valid() && old(run) <= run
      ensures ok ==> memory.todo == [] && BatchesBounded() && forall id :: id in pel ==> id < |log| && Accounted(id)
      ensures reliable ==> ok
    {
      ok := true;
      while memory.todo != []
        invariant Valid() && old(run) <= run && BatchesBounded()
        invariant forall id :: id in pel ==> id < |log| && Accounted(id)
        decreases |memory.todo|
      {
        ok := HandleNext();
        if !ok {
          return;
        }
      }
    }

    /** The end of a turn: the flush if it is due, then both acknowledgements. */
    method FinishTurn(elapsed: bool) returns (ok: bool)
      requires Valid() && BatchesBounded() && memory.todo == []
      requires forall id :: id in pel ==> id < |log| && Accounted(id)
      modifies `log, `trimmed, `run, `pel, `db, `committed, `memory
      ensures Valid() && old(run) <= run
      ensures ok ==>
        BatchesBounded() && memory.todo == [] && memory.immediateAckIds == [] && memory.flushedAckIds == []
      ensures ok && elapsed ==> NoBatch(memory) && forall id :: id in pel ==> EffectAt(log, id).Malformed?
      ensures reliable ==> ok
    {
      ok := FlushIfDue(elapsed);
      if !ok {
        return;
      }
      BatchesParallel();
      ghost var accounted := log;
      ok := AckImmediateIds();
      if !ok {
        return;
      }
      ok := AckFlushedIds();
      assert forall id: nat :: id < |accounted| ==> EffectAt(log, id) == EffectAt(accounted, id);
    }

    /**
     One turn of `connect_and_consume`. A turn that meets no error and ends with a flush leaves nothing
     pending but entries that are never acknowledged. One that finds nothing pending, or only what MAXLEN has
     removed, hands on new entries if there are any.
     */
    method ConsumeTurn(elapsed: bool) returns (ok: bool)
      requires Valid() && BatchesBounded()
      requires memory.todo == [] && memory.immediateAckIds == [] && memory.flushedAckIds == []
      modifies `log, `trimmed, `delivered, `run, `pel, `db, `committed, `memory
      ensures Valid() && old(run) <= run
      ensures ok ==> BatchesBounded() && memory.todo == [] && memory.immediateAckIds == [] && memory.flushedAckIds == []
      ensures ok && elapsed ==> NoBatch(memory) && forall id :: id in pel ==> EffectAt(log, id).Malformed?
      ensures ok && (forall q :: q in old(pel) ==> q < old(trimmed)) ==> HandedOn(old(delivered), |old(log)|)
      ensures reliable ==> ok
    {
      ok := ReadGroupEvents();
      if !ok {
        return;
      }
      PendingInLog();
      ok := HandleAll();
      if !ok {
        return;
      }
      ok := FinishTurn(elapsed);
    }

    lemma PendingInLog()
      requires Valid()
      ensures forall id :: id in pel ==> id < |log|
    {
      RunKeepsInv(run, limits, |run| - 1);
    }

    /** After an error `run` starts again with an empty `Processor`. */
    method Restart()
      requires Valid()
      modifies `run, `memory
      ensures Valid() && old(run) <= run && memory == FRESH_MEMORY
    {
      memory := FRESH_MEMORY;
      Record(Crashing);
    }

    /** `run`: any number of turns, with a restart after each error. */
    method Run(turns: nat)
      requires Valid() && memory == FRESH_MEMORY
      modifies this
      ensures Valid() && old(run) <= run && Inv(State(), limits)
    {
      for i := 0 to turns
        invariant Valid() && old(run) <= run && BatchesBounded()
        invariant memory.todo == [] && memory.immediateAckIds == [] && memory.flushedAckIds == []
      {
        var elapsed: bool := *;
        var ok := ConsumeTurn(elapsed);
        if !ok {
          Restart();
        }
      }
      RunKeepsInv(run, limits, |run| - 1);
    }
  }

  function IdsOf(events: seq<StreamEvent>): (ids: seq<nat>)
    ensures |ids| == |events| && forall k :: 0 <= k < |ids| ==> ids[k] == events[k].streamId
  {
    seq(|events|, k requires 0 <= k < |events| => events[k].streamId)
  }

  function WithPayload(events: seq<StreamEvent>): (ready: seq<StreamEvent>)
  {
    if events == [] then []
    else
      var init := WithPayload(events[..|events| - 1]);
      if events[|events| - 1].payload.Some? then init + [events[|events| - 1]] else init
  }

  ghost predicate AccountedIn(m: Memory, log: seq<Entry>, id: nat) {
    InMemory(m, id) || id in m.immediateAckIds || id in m.flushedAckIds || EffectAt(log, id).Malformed?
  }

  /** The head of the reply has been handled, and nothing else that waited is forgotten. */
  ghost predicate HandledFrom(before: Memory, after: Memory, log: seq<Entry>, id: nat) {
    && before.todo != [] && before.todo[0] == id && after.todo == before.todo[1..]
    && AccountedIn(after, log, id)
    && (forall q :: q in before.immediateAckIds ==> q in after.immediateAckIds)
    && (forall q :: q in before.flushedAckIds ==> q in after.flushedAckIds)
    && (forall q :: Batched(before, q) ==> Batched(after, q) || q in after.flushedAckIds)
  }

  lemma HandlingAccounts(before: Memory, after: Memory, log: seq<Entry>, longer: seq<Entry>, id: nat)
    requires log <= longer && HandledFrom(before, after, longer, id)
    ensures forall q: nat :: q < |log| && AccountedIn(before, log, q) ==> AccountedIn(after, longer, q)
  {
    forall q: nat | q < |log| && AccountedIn(before, log, q)
      ensures AccountedIn(after, longer, q)
    {
      assert EffectAt(longer, q) == EffectAt(log, q);
      assert before.todo == [id] + after.todo;
    }
  }

  function WithoutPayload(events: seq<StreamEvent>): (ids: seq<nat>)
  {
    if events == [] then []
    else
      var init := WithoutPayload(events[..|events| - 1]);
      if events[|events| - 1].payload.None? then init + [events[|events| - 1].streamId] else init
  }

  lemma SplitNext(events: seq<StreamEvent>, i: nat)
    requires i < |events|
    ensures WithPayload(events[..i + 1]) == WithPayload(events[..i]) + if events[i].payload.Some? then [events[i]] else []
    ensures WithoutPayload(events[..i + 1])
      == WithoutPayload(events[..i]) + if events[i].payload.None? then [events[i].streamId] else []
  {
    var longer := events[..i + 1];
    assert longer[..|longer| - 1] == events[..i] && longer[|longer| - 1] == events[i];
  }

  lemma {:induction false} WithoutPayloadAre(events: seq<StreamEvent>)
    ensures forall id :: id in WithoutPayload(events) <==> exists e :: e in events && e.payload.None? && e.streamId == id
  {
    if events != [] {
      var init, last := events[..|events| - 1], events[|events| - 1];
      WithoutPayloadAre(init);
      assert forall e :: e in events <==> e in init || e == last by {
        assert events == init + [last];
      }
    }
  }

  /** Every id of `before` that awaited a flush has been flushed or is still waiting. */
  ghost predicate Settled(before: Memory, after: Memory) {
    && after.immediateAckIds == before.immediateAckIds
    && (forall id :: id in before.flushedAckIds ==> id in after.flushedAckIds)
    && (forall id :: Batched(before, id) ==> Batched(after, id) || id in after.flushedAckIds)
  }

  lemma FlushSettles(m: Memory)
    ensures Settled(m, m) && Settled(m, ClearedMessages(m)) && Settled(m, ClearedReads(m))
  {
  }

  lemma ReceiptSettles(m: Memory, id: nat, effect: Effect)
    requires m.todo != [] && (effect.Malformed? || effect.ReadPrivate? || effect.ReadGroup?)
    ensures var after := Enqueue(m.(todo := m.todo[1..]), id, effect);
      Settled(m, after) && (effect.Malformed? || Batched(after, id))
  {
  }

  lemma SplitCovers(events: seq<StreamEvent>, staleIds: seq<nat>, trimmed: nat)
    requires forall e :: e in events ==> (e.payload.None? <==> e.streamId < trimmed)
    requires forall id :: id in staleIds <==> exists e :: e in events && e.payload.None? && e.streamId == id
    ensures forall id :: id in staleIds <==> id in IdsOf(events) && id < trimmed
  {
    forall id
      ensures id in staleIds <==> id in IdsOf(events) && id < trimmed
    {
      if id in IdsOf(events) {
        var k :| 0 <= k < |events| && events[k].streamId == id;
        assert events[k] in events;
      }
    }
  }

  lemma ProperSubsetCardinality(small: set<nat>, large: set<nat>)
    requires small < large
    ensures |small| < |large|
  {
    var extra :| extra in large && extra !in small;
    SubsetCardinality(small + {extra}, large);
  }

  lemma {:induction false} SplitIsReady(events: seq<StreamEvent>, trimmed: nat)
    requires forall e :: e in events ==> (e.payload.None? <==> e.streamId < trimmed)
    ensures IdsOf(WithPayload(events)) == Ready(IdsOf(events), trimmed)
  {
    if events != [] {
      var init, last := events[..|events| - 1], events[|events| - 1];
      assert events == init + [last];
      SplitIsReady(init, trimmed);
      assert IdsOf(events)[..|events| - 1] == IdsOf(init);
    }
  }
}
