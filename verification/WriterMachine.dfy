/**
 One event stream, its consumer group, the background writer that reads it and the tables it fills,
 as a state machine: redis_streams.rs and background_writer/mod.rs cut at every command sent to Redis
 or MySQL. A crash (or any error that makes `connect_and_consume` return) drops the writer's memory
 and nothing else.

 A stream id is the position of its entry among all entries ever appended, so ids grow with the stream.
 */
module WriterMachine {
  import opened Options
  import opened Events
  import opened BackgroundDb

  datatype Entry = Entry(eventId: EventId, payload: Payload)

  /** `count` is the COUNT of XREADGROUP (at least 1), `maxLen` the MAXLEN of XADD (at least 1). */
  datatype Limits = Limits(count: nat, maxLen: nat) {
    predicate Valid() {
      count >= 1 && maxLen >= 1
    }
  }

  /** The fields of `Processor`, with the two locals of the consume loop: the entries still to process and `immediate_ack_ids`. */
  datatype Memory = Memory(
    todo: seq<nat>,
    immediateAckIds: seq<nat>,
    messageBatch: seq<Message>,
    privateReadBatch: seq<PrivateCursor>,
    groupReadBatch: seq<GroupCursor>,
    messageAckIds: seq<nat>,
    privateReadAckIds: seq<nat>,
    groupReadAckIds: seq<nat>,
    flushedAckIds: seq<nat>)

  const FRESH_MEMORY := Memory([], [], [], [], [], [], [], [], [])

  /**
   `log` is everything ever appended, of which MAXLEN has removed the first `trimmed` entries; the group has
   been handed the entries below `delivered`, and `pel` holds those not yet acknowledged. `committed` records,
   for the statements below, which entries have had their effect applied by a finished transaction.
   */
  datatype Consumer = Consumer(
    log: seq<Entry>,
    trimmed: nat,
    delivered: nat,
    pel: set<nat>,
    db: Tables,
    committed: set<nat>,
    memory: Memory)

  predicate IsInitial(s: Consumer) {
    s == Consumer([], 0, 0, {}, EMPTY_TABLES, {}, FRESH_MEMORY)
  }

  function EffectAt(log: seq<Entry>, id: nat): Effect {
    if id < |log| then EffectOf(log[id].payload) else Nothing
  }

  function Ids(ids: seq<nat>): set<nat> {
    set id | id in ids
  }

  ghost predicate Ascending(ids: seq<nat>) {
    forall i, j :: 0 <= i < j < |ids| ==> ids[i] < ids[j]
  }

  /** The reply to `XREADGROUP ... COUNT count ... 0`: the first entries of the pending list, in id order. */
  ghost predicate PendingReply(ids: seq<nat>, pel: set<nat>, count: nat) {
    && Ascending(ids)
    && |ids| <= count
    && (forall id :: id in ids ==> id in pel)
    && (forall q :: q in pel && q !in ids ==> |ids| == count && forall id :: id in ids ==> id < q)
  }

  /** `split_stale_events`, second part: a pending entry that MAXLEN removed comes back without a payload. */
  function Ready(ids: seq<nat>, trimmed: nat): (ready: seq<nat>)
    ensures forall id :: id in ready <==> id in ids && id >= trimmed
  {
    if ids == [] then []
    else
      var init, last := Ready(ids[..|ids| - 1], trimmed), ids[|ids| - 1];
      if last >= trimmed then init + [last] else init
  }

  /** The ids from `lo` to `hi`. */
  function Span(lo: nat, hi: nat): (ids: seq<nat>)
    requires lo <= hi
    ensures |ids| == hi - lo && forall k :: 0 <= k < |ids| ==> ids[k] == lo + k
  {
    seq(hi - lo, k requires 0 <= k => lo + k)
  }

  /** The memory after one entry, once any statement it calls for has run. */
  function Enqueue(m: Memory, id: nat, effect: Effect): Memory {
    match effect
    case Insert(message) => m.(messageBatch := m.messageBatch + [message], messageAckIds := m.messageAckIds + [id])
    case ReadPrivate(c) => m.(privateReadBatch := m.privateReadBatch + [c], privateReadAckIds := m.privateReadAckIds + [id])
    case ReadGroup(c) => m.(groupReadBatch := m.groupReadBatch + [c], groupReadAckIds := m.groupReadAckIds + [id])
    case Nothing => m.(immediateAckIds := m.immediateAckIds + [id])
    case Malformed => m
    case SetStatus(_, _, _) => m.(immediateAckIds := m.immediateAckIds + [id])
  }

  function ReadIds(m: Memory): seq<nat> {
    m.privateReadAckIds + m.groupReadAckIds
  }

  function ClearedMessages(m: Memory): Memory {
    m.(messageBatch := [], messageAckIds := [], flushedAckIds := m.flushedAckIds + m.messageAckIds)
  }

  function ClearedReads(m: Memory): Memory {
    m.(privateReadBatch := [], groupReadBatch := [], privateReadAckIds := [], groupReadAckIds := [],
       flushedAckIds := m.flushedAckIds + m.privateReadAckIds + m.groupReadAckIds)
  }

  predicate NoBatch(m: Memory) {
    m.messageBatch == [] && m.privateReadBatch == [] && m.groupReadBatch == []
  }

  // ---------- the steps ----------

  ghost predicate Append(s: Consumer, s': Consumer, limits: Limits) {
    && |s'.log| == |s.log| + 1
    && s.trimmed <= s'.trimmed <= |s'.log|
    && (s.trimmed < s'.trimmed ==> |s'.log| - s'.trimmed >= limits.maxLen)
    && s' == s.(log := s.log + [s'.log[|s.log|]], trimmed := s'.trimmed)
  }

  ghost predicate AckStale(s: Consumer, s': Consumer) {
    && s'.pel <= s.pel
    && (forall id :: id in s.pel && id !in s'.pel ==> id < s.trimmed)
    && s' == s.(pel := s'.pel)
  }

  ghost predicate ReadPending(s: Consumer, s': Consumer, limits: Limits, ids: seq<nat>) {
    && s.memory.todo == [] && s.memory.immediateAckIds == []
    && PendingReply(ids, s.pel, limits.count)
    && Ready(ids, s.trimmed) != []
    && s' == s.(memory := s.memory.(todo := Ready(ids, s.trimmed)))
  }

  /** `XREADGROUP ... >`, sent only after a pending read has come back empty. */
  ghost predicate ReadNew(s: Consumer, s': Consumer, limits: Limits) {
    var start := if s.delivered >= s.trimmed then s.delivered else s.trimmed;
    && s.memory.todo == [] && s.memory.immediateAckIds == []
    && s.pel == {}
    && start < |s.log|
    && var end := if start + limits.count <= |s.log| then start + limits.count else |s.log|;
       s' == s.(delivered := end, pel := Ids(Span(start, end)), memory := s.memory.(todo := Span(start, end)))
  }

  /** An entry is put into its batch or, done with, on the list of immediate acknowledgements. */
  ghost predicate Process(s: Consumer, s': Consumer) {
    && s.memory.todo != []
    && var id, effect := s.memory.todo[0], EffectAt(s.log, s.memory.todo[0]);
       && (effect.SetStatus? ==> id in s.committed)
       && s' == s.(memory := Enqueue(s.memory.(todo := s.memory.todo[1..]), id, effect))
  }

  /** The UPDATE for a recall or delete, which `process` reaches only behind `flush_pending`. */
  ghost predicate ApplyStatus(s: Consumer, s': Consumer) {
    && s.memory.todo != []
    && NoBatch(s.memory)
    && var id, effect := s.memory.todo[0], EffectAt(s.log, s.memory.todo[0]);
       && effect.SetStatus?
       && s' == s.(
            db := s.db.(messages := UpdateStatus(s.db.messages, effect.id, effect.code, effect.at)),
            committed := s.committed + {id})
  }

  ghost predicate CommitMessages(s: Consumer, s': Consumer) {
    s' == s.(
      db := s.db.(messages := InsertMessages(s.db.messages, s.memory.messageBatch)),
      committed := s.committed + Ids(s.memory.messageAckIds))
  }

  ghost predicate ClearMessages(s: Consumer, s': Consumer) {
    && Ids(s.memory.messageAckIds) <= s.committed
    && s' == s.(memory := ClearedMessages(s.memory))
  }

  ghost predicate CommitReads(s: Consumer, s': Consumer) {
    s' == s.(
      db := s.db.(
        privates := UpsertPrivateMap(s.db.privates, CoalescePrivate(s.memory.privateReadBatch)),
        groups := UpsertGroupMap(s.db.groups, CoalesceGroup(s.memory.groupReadBatch))),
      committed := s.committed + Ids(ReadIds(s.memory)))
  }

  ghost predicate ClearReads(s: Consumer, s': Consumer) {
    && Ids(ReadIds(s.memory)) <= s.committed
    && s' == s.(memory := ClearedReads(s.memory))
  }

  ghost predicate AckImmediate(s: Consumer, s': Consumer) {
    && s.memory.todo == []
    && s' == s.(pel := s.pel - Ids(s.memory.immediateAckIds), memory := s.memory.(immediateAckIds := []))
  }

  ghost predicate AckFlushed(s: Consumer, s': Consumer) {
    && s.memory.todo == []
    && s' == s.(pel := s.pel - Ids(s.memory.flushedAckIds), memory := s.memory.(flushedAckIds := []))
  }

  ghost predicate Crash(s: Consumer, s': Consumer) {
    s' == s.(memory := FRESH_MEMORY)
  }

  /** The steps by name. All but `Appending` are the writer's own. */
  datatype Action =
    | Stutter
    | Appending
    | AckingStale
    | ReadingPending(ids: seq<nat>)
    | ReadingNew
    | Processing
    | ApplyingStatus
    | CommittingMessages
    | ClearingMessages
    | CommittingReads
    | ClearingReads
    | AckingImmediate
    | AckingFlushed
    | Crashing

  ghost predicate StepBy(s: Consumer, s': Consumer, limits: Limits, action: Action) {
    match action
    case Stutter => s' == s
    case Appending => Append(s, s', limits)
    case AckingStale => AckStale(s, s')
    case ReadingPending(ids) => ReadPending(s, s', limits, ids)
    case ReadingNew => ReadNew(s, s', limits)
    case Processing => Process(s, s')
    case ApplyingStatus => ApplyStatus(s, s')
    case CommittingMessages => CommitMessages(s, s')
    case ClearingMessages => ClearMessages(s, s')
    case CommittingReads => CommitReads(s, s')
    case ClearingReads => ClearReads(s, s')
    case AckingImmediate => AckImmediate(s, s')
    case AckingFlushed => AckFlushed(s, s')
    case Crashing => Crash(s, s')
  }

  ghost predicate Step(s: Consumer, s': Consumer, limits: Limits) {
    exists action :: StepBy(s, s', limits, action)
  }

  /** The `k`-th state; named so that a run is unfolded only where a lemma asks for one of its steps. */
  function Nth(run: seq<Consumer>, k: nat): Consumer
    requires k < |run|
  {
    run[k]
  }

  ghost predicate IsRun(run: seq<Consumer>, limits: Limits) {
    && limits.Valid()
    && run != []
    && IsInitial(run[0])
    && forall k: nat {:trigger Nth(run, k)} :: k < |run| - 1 ==> Step(Nth(run, k), Nth(run, k + 1), limits)
  }

  lemma StepAt(run: seq<Consumer>, limits: Limits, k: nat)
    requires IsRun(run, limits) && k + 1 < |run|
    ensures Step(run[k], run[k + 1], limits)
  {
    assert Step(Nth(run, k), Nth(run, k + 1), limits);
  }

  // ---------- what every step keeps ----------

  predicate Batched(m: Memory, id: nat) {
    id in m.messageAckIds || id in m.privateReadAckIds || id in m.groupReadAckIds
  }

  predicate InMemory(m: Memory, id: nat) {
    id in m.todo || Batched(m, id)
  }

  /** MAXLEN removed the entry before its effect was applied, and the writer no longer holds a copy. */
  predicate Lost(s: Consumer, id: nat) {
    id < s.trimmed && Effectful(EffectAt(s.log, id)) && id !in s.committed && !InMemory(s.memory, id)
  }

  predicate Owed(s: Consumer, id: nat) {
    Effectful(EffectAt(s.log, id)) && id !in s.committed
  }

  ghost predicate InRange(s: Consumer, limits: Limits) {
    && s.trimmed <= |s.log| && s.delivered <= |s.log|
    && |s.pel| <= limits.count
    && (forall id :: id in s.pel ==> id < s.delivered)
    && (forall id :: id in s.committed ==> id < s.delivered && Effectful(EffectAt(s.log, id)))
    && (forall id :: id in s.memory.todo ==> id < s.delivered)
    && Ascending(s.memory.todo)
  }

  /** Each batched item is the effect of the entry whose id stands at the same place in the ack list. */
  ghost predicate BatchesMatch(s: Consumer) {
    var m := s.memory;
    && |m.messageBatch| == |m.messageAckIds|
    && |m.privateReadBatch| == |m.privateReadAckIds|
    && |m.groupReadBatch| == |m.groupReadAckIds|
    && (forall k :: 0 <= k < |m.messageAckIds| ==>
          m.messageAckIds[k] < s.delivered && EffectAt(s.log, m.messageAckIds[k]) == Insert(m.messageBatch[k]))
    && (forall k :: 0 <= k < |m.privateReadAckIds| ==>
          m.privateReadAckIds[k] < s.delivered && EffectAt(s.log, m.privateReadAckIds[k]) == ReadPrivate(m.privateReadBatch[k]))
    && (forall k :: 0 <= k < |m.groupReadAckIds| ==>
          m.groupReadAckIds[k] < s.delivered && EffectAt(s.log, m.groupReadAckIds[k]) == ReadGroup(m.groupReadBatch[k]))
  }

  ghost predicate AckListsSafe(s: Consumer) {
    && (forall id :: id in s.memory.flushedAckIds ==> id in s.committed)
    && (forall id :: id in s.memory.immediateAckIds ==>
          id < s.delivered && (id in s.committed || EffectAt(s.log, id).Nothing?))
  }

  /** An entry handed to the group keeps its place in the pending list until its effect is applied. */
  ghost predicate NothingForgotten(s: Consumer) {
    forall id: nat :: id < s.delivered && Owed(s, id) ==> id < s.trimmed || id in s.pel
  }

  /** While a reply is being processed, every pending entry that can still be read is in memory. */
  ghost predicate Covered(s: Consumer) {
    s.memory.todo != [] ==> forall id :: id in s.pel && id >= s.trimmed && Owed(s, id) ==> InMemory(s.memory, id)
  }

  ghost predicate StatusAfterEarlier(s: Consumer) {
    forall p, q: nat :: p in s.committed && EffectAt(s.log, p).SetStatus? && q < p && Owed(s, q) ==> Lost(s, q)
  }

  ghost predicate Inv(s: Consumer, limits: Limits) {
    && InRange(s, limits)
    && BatchesMatch(s)
    && AckListsSafe(s)
    && NothingForgotten(s)
    && Covered(s)
    && StatusAfterEarlier(s)
  }

  // ---------- cardinalities ----------

  lemma {:induction false} AscendingCardinality(ids: seq<nat>)
    requires Ascending(ids)
    ensures |Ids(ids)| == |ids|
  {
    if ids != [] {
      var init, last := ids[..|ids| - 1], ids[|ids| - 1];
      AscendingCardinality(init);
      assert Ids(ids) == Ids(init) + {last};
    }
  }

  lemma SubsetCardinality(small: set<nat>, large: set<nat>)
    requires small <= large
    ensures |small| <= |large|
  {
    assert large == small + (large - small);
  }

  /** With at most `count` entries pending, one reply shows them all. */
  lemma WholePendingListRead(ids: seq<nat>, pel: set<nat>, count: nat)
    requires PendingReply(ids, pel, count) && |pel| <= count
    ensures forall q :: q in pel ==> q in ids
  {
    forall q | q in pel
      ensures q in ids
    {
      if q !in ids {
        AscendingCardinality(ids);
        SubsetCardinality(Ids(ids) + {q}, pel);
        assert false;
      }
    }
  }

  lemma {:induction false} ReadyAscends(ids: seq<nat>, trimmed: nat)
    requires Ascending(ids)
    ensures Ascending(Ready(ids, trimmed))
  {
    if ids != [] {
      var init, last := ids[..|ids| - 1], ids[|ids| - 1];
      ReadyAscends(init, trimmed);
      var rest := Ready(init, trimmed);
      forall k | 0 <= k < |rest|
        ensures rest[k] < last
      {
        assert rest[k] in rest;
      }
    }
  }

  // ---------- preservation ----------

  lemma AppendKeepsInv(s: Consumer, s': Consumer, limits: Limits)
    requires limits.Valid() && Inv(s, limits) && Append(s, s', limits)
    ensures Inv(s', limits)
  {
    assert forall id: nat :: id < |s.log| ==> EffectAt(s'.log, id) == EffectAt(s.log, id);
    forall p, q: nat | p in s'.committed && EffectAt(s'.log, p).SetStatus? && q < p && Owed(s', q)
      ensures Lost(s', q)
    {
      assert Owed(s, q) && Lost(s, q);
    }
  }

  lemma ReadKeepsInv(s: Consumer, s': Consumer, limits: Limits, ids: seq<nat>)
    requires limits.Valid() && Inv(s, limits) && ReadPending(s, s', limits, ids)
    ensures Inv(s', limits)
  {
    WholePendingListRead(ids, s.pel, limits.count);
    ReadyAscends(ids, s.trimmed);
    forall p, q: nat | p in s'.committed && EffectAt(s'.log, p).SetStatus? && q < p && Owed(s', q)
      ensures Lost(s', q)
    {
      assert Owed(s, q) && Lost(s, q);
    }
  }

  lemma ReadNewKeepsInv(s: Consumer, s': Consumer, limits: Limits)
    requires limits.Valid() && Inv(s, limits) && ReadNew(s, s', limits)
    ensures Inv(s', limits)
  {
    AscendingCardinality(s'.memory.todo);
    forall id: nat | id < s'.delivered && Owed(s', id)
      ensures id < s'.trimmed || id in s'.pel
    {
      assert Owed(s, id);
      if id >= s.delivered && id >= s.trimmed {
        var start := if s.delivered >= s.trimmed then s.delivered else s.trimmed;
        assert s'.memory.todo[id - start] == id;
      }
    }
    forall p, q: nat | p in s'.committed && EffectAt(s'.log, p).SetStatus? && q < p && Owed(s', q)
      ensures Lost(s', q)
    {
      assert Owed(s, q) && Lost(s, q);
    }
  }

  lemma AckKeepsInv(s: Consumer, s': Consumer, limits: Limits)
    requires limits.Valid() && Inv(s, limits)
    requires AckStale(s, s') || AckImmediate(s, s') || AckFlushed(s, s')
    ensures Inv(s', limits)
  {
    SubsetCardinality(s'.pel, s.pel);
    forall id: nat | id < s'.delivered && Owed(s', id)
      ensures id < s'.trimmed || id in s'.pel
    {
      assert Owed(s, id);
    }
    forall p, q: nat | p in s'.committed && EffectAt(s'.log, p).SetStatus? && q < p && Owed(s', q)
      ensures Lost(s', q)
    {
      assert Owed(s, q) && Lost(s, q);
    }
  }

  lemma ProcessedStaysInMemory(s: Consumer, s': Consumer, q: nat)
    requires Process(s, s')
    ensures InMemory(s.memory, q) && Owed(s, q) ==> InMemory(s'.memory, q)
    ensures InMemory(s'.memory, q) ==> InMemory(s.memory, q)
  {
    assert s.memory.todo == [s.memory.todo[0]] + s'.memory.todo;
  }

  lemma ProcessKeepsRange(s: Consumer, s': Consumer, limits: Limits)
    requires InRange(s, limits) && Process(s, s')
    ensures InRange(s', limits)
  {
    assert s.memory.todo == [s.memory.todo[0]] + s'.memory.todo;
    assert forall q :: q in s'.memory.todo ==> q in s.memory.todo;
  }

  lemma ProcessKeepsMatch(s: Consumer, s': Consumer, limits: Limits)
    requires InRange(s, limits) && BatchesMatch(s) && Process(s, s')
    ensures BatchesMatch(s')
  {
    assert s.memory.todo[0] in s.memory.todo;
  }

  lemma ProcessKeepsAcks(s: Consumer, s': Consumer, limits: Limits)
    requires InRange(s, limits) && AckListsSafe(s) && Process(s, s')
    ensures AckListsSafe(s')
  {
    assert s.memory.todo[0] in s.memory.todo;
  }

  lemma ProcessKeepsInv(s: Consumer, s': Consumer, limits: Limits)
    requires limits.Valid() && Inv(s, limits) && Process(s, s')
    ensures Inv(s', limits)
  {
    ProcessKeepsRange(s, s', limits);
    ProcessKeepsMatch(s, s', limits);
    ProcessKeepsAcks(s, s', limits);
    forall q: nat
      ensures InMemory(s.memory, q) && Owed(s, q) ==> InMemory(s'.memory, q)
      ensures InMemory(s'.memory, q) ==> InMemory(s.memory, q)
    {
      ProcessedStaysInMemory(s, s', q);
    }
    forall p, q: nat | p in s'.committed && EffectAt(s'.log, p).SetStatus? && q < p && Owed(s', q)
      ensures Lost(s', q)
    {
      assert Owed(s, q) && Lost(s, q);
    }
  }

  /** Behind an empty batch, everything owed below the entry being processed is lost. */
  lemma EarlierSettled(s: Consumer, limits: Limits, q: nat)
    requires Inv(s, limits) && s.memory.todo != [] && NoBatch(s.memory)
    requires q < s.memory.todo[0] && Owed(s, q)
    ensures Lost(s, q)
  {
    assert !Batched(s.memory, q);
    assert forall k :: 0 < k < |s.memory.todo| ==> s.memory.todo[0] < s.memory.todo[k];
    assert q !in s.memory.todo;
    assert s.memory.todo[0] in s.memory.todo;
  }

  lemma ApplyStatusKeepsInv(s: Consumer, s': Consumer, limits: Limits)
    requires limits.Valid() && Inv(s, limits) && ApplyStatus(s, s')
    ensures Inv(s', limits)
  {
    assert s.memory.todo[0] in s.memory.todo;
    forall p, q: nat | p in s'.committed && EffectAt(s'.log, p).SetStatus? && q < p && Owed(s', q)
      ensures Lost(s', q)
    {
      assert Owed(s, q);
      if p in s.committed {
        assert Lost(s, q);
      } else {
        EarlierSettled(s, limits, q);
      }
    }
  }

  lemma CommitKeepsInv(s: Consumer, s': Consumer, limits: Limits)
    requires limits.Valid() && Inv(s, limits)
    requires CommitMessages(s, s') || CommitReads(s, s')
    ensures Inv(s', limits)
  {
    forall id | id in s'.committed
      ensures id < s'.delivered && Effectful(EffectAt(s'.log, id)) && (id in s.committed || !EffectAt(s'.log, id).SetStatus?)
    {
      if id !in s.committed {
        CommittedIsBatched(s, s', id);
      }
    }
    forall p, q: nat | p in s'.committed && EffectAt(s'.log, p).SetStatus? && q < p && Owed(s', q)
      ensures Lost(s', q)
    {
      assert p in s.committed;
      assert Owed(s, q) && Lost(s, q);
    }
  }

  lemma CommittedIsBatched(s: Consumer, s': Consumer, id: nat)
    requires BatchesMatch(s) && (CommitMessages(s, s') || CommitReads(s, s'))
    requires id in s'.committed && id !in s.committed
    ensures id < s.delivered && Effectful(EffectAt(s.log, id)) && !EffectAt(s.log, id).SetStatus?
  {
    var m := s.memory;
    if id in m.messageAckIds {
      var k :| 0 <= k < |m.messageAckIds| && m.messageAckIds[k] == id;
    } else if id in m.privateReadAckIds {
      var k :| 0 <= k < |m.privateReadAckIds| && m.privateReadAckIds[k] == id;
    } else {
      var k :| 0 <= k < |m.groupReadAckIds| && m.groupReadAckIds[k] == id;
    }
  }

  lemma ClearKeepsInv(s: Consumer, s': Consumer, limits: Limits)
    requires limits.Valid() && Inv(s, limits)
    requires ClearMessages(s, s') || ClearReads(s, s') || Crash(s, s')
    ensures Inv(s', limits)
  {
    assert forall id :: InMemory(s.memory, id) && !InMemory(s'.memory, id) && !Crash(s, s') ==> id in s.committed by {
      forall id | InMemory(s.memory, id) && !InMemory(s'.memory, id) && !Crash(s, s')
        ensures id in s.committed
      {
        if ClearMessages(s, s') {
          assert id in Ids(s.memory.messageAckIds);
        } else {
          assert id in Ids(ReadIds(s.memory));
        }
      }
    }
    forall id | id in s'.memory.flushedAckIds
      ensures id in s'.committed
    {
      if id !in s.memory.flushedAckIds {
        assert id in Ids(s.memory.messageAckIds) || id in Ids(ReadIds(s.memory));
      }
    }
    forall p, q: nat | p in s'.committed && EffectAt(s'.log, p).SetStatus? && q < p && Owed(s', q)
      ensures Lost(s', q)
    {
      assert Owed(s, q) && Lost(s, q);
    }
  }

  lemma StepKeepsInv(s: Consumer, s': Consumer, limits: Limits)
    requires limits.Valid() && Inv(s, limits) && Step(s, s', limits)
    ensures Inv(s', limits)
  {
    var action :| StepBy(s, s', limits, action);
    match action
    case Stutter =>
    case Appending => AppendKeepsInv(s, s', limits);
    case AckingStale => AckKeepsInv(s, s', limits);
    case ReadingPending(ids) => ReadKeepsInv(s, s', limits, ids);
    case ReadingNew => ReadNewKeepsInv(s, s', limits);
    case Processing => ProcessKeepsInv(s, s', limits);
    case ApplyingStatus => ApplyStatusKeepsInv(s, s', limits);
    case CommittingMessages => CommitKeepsInv(s, s', limits);
    case ClearingMessages => ClearKeepsInv(s, s', limits);
    case CommittingReads => CommitKeepsInv(s, s', limits);
    case ClearingReads => ClearKeepsInv(s, s', limits);
    case AckingImmediate => AckKeepsInv(s, s', limits);
    case AckingFlushed => AckKeepsInv(s, s', limits);
    case Crashing => ClearKeepsInv(s, s', limits);
  }

  /** The invariant holds at every moment of every run, crashes included. */
  lemma {:induction false} RunKeepsInv(run: seq<Consumer>, limits: Limits, k: nat)
    requires IsRun(run, limits) && k < |run|
    ensures Inv(run[k], limits)
  {
    if k > 0 {
      RunKeepsInv(run, limits, k - 1);
      StepAt(run, limits, k - 1);
      StepKeepsInv(run[k - 1], run[k], limits);
    }
  }

  function Last(run: seq<Consumer>): Consumer
    requires run != []
  {
    run[|run| - 1]
  }

  /** A run followed by a step is a run. */
  lemma Extend(run: seq<Consumer>, s': Consumer, limits: Limits)
    requires IsRun(run, limits) && Step(Last(run), s', limits)
    ensures IsRun(run + [s'], limits) && Last(run + [s']) == s'
  {
    var longer := run + [s'];
    forall k: nat | k < |longer| - 1
      ensures Step(Nth(longer, k), Nth(longer, k + 1), limits)
    {
      if k < |run| - 1 {
        StepAt(run, limits, k);
      }
    }
  }
}
