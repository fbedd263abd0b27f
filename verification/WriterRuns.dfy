/**
 What holds over every run of the writer's machine: no entry is forgotten, nothing is acknowledged early,
 statuses arrive after everything before them, and the tables hold each committed effect exactly once,
 although entries are re-read, batched several times and committed again after crashes.
 */
module WriterRuns {
  import opened Options
  import opened Events
  import opened BackgroundDb
  import opened WriterMachine

  // ---------- delivery ----------

  /** Where an effectful entry can be: still unread, pending and readable, removed by MAXLEN, or applied. */
  lemma NoEntryForgotten(run: seq<Consumer>, limits: Limits, k: nat, id: nat)
    requires IsRun(run, limits) && k < |run|
    requires id < |run[k].log| && Effectful(EffectAt(run[k].log, id))
    ensures var s := run[k];
      || id in s.committed
      || (s.trimmed <= id && s.delivered <= id)
      || (s.trimmed <= id && id in s.pel)
      || id < s.trimmed
  {
    RunKeepsInv(run, limits, k);
    assert id in run[k].committed || Owed(run[k], id);
  }

  lemma LeavingPendingList(s: Consumer, s': Consumer, limits: Limits, action: Action, id: nat)
    requires AckListsSafe(s) && StepBy(s, s', limits, action)
    requires id in s.pel && id !in s'.pel
    ensures id in s.committed || EffectAt(s.log, id).Nothing? || id < s.trimmed
  {
    if action.AckingFlushed? {
      assert id in Ids(s.memory.flushedAckIds);
    } else if action.AckingImmediate? {
      assert id in Ids(s.memory.immediateAckIds);
    }
  }

  /** An entry leaves the pending list only when its effect is applied, it has none, or MAXLEN removed it. */
  lemma AcknowledgedIsSettled(run: seq<Consumer>, limits: Limits, k: nat, id: nat)
    requires IsRun(run, limits) && k + 1 < |run|
    requires id in run[k].pel && id !in run[k + 1].pel
    ensures id in run[k].committed || EffectAt(run[k].log, id).Nothing? || id < run[k].trimmed
  {
    RunKeepsInv(run, limits, k);
    StepAt(run, limits, k);
    var action :| StepBy(run[k], run[k + 1], limits, action);
    LeavingPendingList(run[k], run[k + 1], limits, action, id);
  }

  /** When a recall or delete runs, every earlier effect is applied, except what MAXLEN removed first. */
  lemma StatusRunsAfterEverythingBefore(run: seq<Consumer>, limits: Limits, k: nat, q: nat)
    requires IsRun(run, limits) && k + 1 < |run| && ApplyStatus(run[k], run[k + 1])
    requires q < run[k].memory.todo[0] && Effectful(EffectAt(run[k].log, q))
    ensures q in run[k].committed || q < run[k].trimmed
  {
    RunKeepsInv(run, limits, k);
    if q !in run[k].committed {
      EarlierSettled(run[k], limits, q);
    }
  }

  /** Unacknowledged entries never exceed one reply, and new ones are fetched only behind an empty pending list. */
  lemma PendingWithinOneReply(run: seq<Consumer>, limits: Limits, k: nat)
    requires IsRun(run, limits) && k + 1 < |run|
    ensures |run[k].pel| <= limits.count && |run[k + 1].pel| <= limits.count
    ensures run[k].delivered <= run[k + 1].delivered
    ensures run[k].delivered < run[k + 1].delivered ==> run[k].pel == {}
  {
    RunKeepsInv(run, limits, k);
    RunKeepsInv(run, limits, k + 1);
    StepAt(run, limits, k);
  }

  ghost predicate Blocked(s: Consumer, id: nat) {
    id in s.pel && s.trimmed <= id && EffectAt(s.log, id).Malformed?
  }

  lemma BlockedOneStep(run: seq<Consumer>, limits: Limits, k: nat, id: nat)
    requires IsRun(run, limits) && k + 1 < |run|
    requires Blocked(run[k], id) && run[k + 1].trimmed <= id
    ensures Blocked(run[k + 1], id) && run[k + 1].delivered == run[k].delivered
  {
    var s, s' := run[k], run[k + 1];
    RunKeepsInv(run, limits, k);
    assert id < s.delivered && id !in s.committed;
    StepAt(run, limits, k);
    var action :| StepBy(s, s', limits, action);
    if id !in s'.pel {
      LeavingPendingList(s, s', limits, action, id);
    }
  }

  /**
   An entry that is never acknowledged stops the stream: while an unparsable event or a malformed read
   receipt is pending and not yet trimmed, no later entry is ever handed to the writer.
   */
  lemma {:induction false} MalformedEntryBlocksDelivery(run: seq<Consumer>, limits: Limits, from: nat, to: nat, id: nat)
    requires IsRun(run, limits) && from <= to < |run|
    requires Blocked(run[from], id)
    requires forall k :: from <= k <= to ==> run[k].trimmed <= id
    ensures Blocked(run[to], id) && run[to].delivered == run[from].delivered
  {
    if from < to {
      MalformedEntryBlocksDelivery(run, limits, from, to - 1, id);
      BlockedOneStep(run, limits, to - 1, id);
    }
  }

  /** No step lowers a stored status, a read time or a read sequence, and none removes a row. */
  lemma RowsOnlyRise(s: Consumer, s': Consumer, limits: Limits)
    requires Step(s, s', limits)
    ensures forall m :: m in s.db.messages ==>
      m in s'.db.messages && s.db.messages[m].status <= s'.db.messages[m].status
    ensures forall key :: key in s.db.privates ==> key in s'.db.privates && s.db.privates[key] <= s'.db.privates[key]
    ensures forall key :: key in s.db.groups ==>
      && key in s'.db.groups
      && s.db.groups[key].readSeq <= s'.db.groups[key].readSeq
      && s.db.groups[key].readAt <= s'.db.groups[key].readAt
  {
    var action :| StepBy(s, s', limits, action);
    if action.CommittingMessages? {
      forall m | m in s.db.messages
        ensures m in s'.db.messages && s.db.messages[m].status <= s'.db.messages[m].status
      {
        InsertedStatusIsMax(s.db.messages, s.memory.messageBatch, m);
      }
    } else if action.CommittingReads? {
      ReadsOnlyRise(s.db, s.memory);
    }
  }

  lemma ReadsOnlyRise(t: Tables, m: Memory)
    ensures var after := UpsertPrivateMap(t.privates, CoalescePrivate(m.privateReadBatch));
      forall key :: key in t.privates ==> key in after && t.privates[key] <= after[key]
    ensures var after := UpsertGroupMap(t.groups, CoalesceGroup(m.groupReadBatch));
      forall key :: key in t.groups ==>
        key in after && t.groups[key].readSeq <= after[key].readSeq && t.groups[key].readAt <= after[key].readAt
  {
  }

  // ---------- the effect of each entry, once ----------

  /** The status code an entry offers to message `m`. */
  function TouchCode(effect: Effect, m: int): Option<int> {
    match effect
    case Insert(message) => if StoresAs(message, m) then Some(message.status.Code()) else None
    case SetStatus(id, code, _) => if id == m then Some(code) else None
    case _ => None
  }

  predicate Creates(log: seq<Entry>, id: nat, m: int) {
    var effect := EffectAt(log, id);
    effect.Insert? && StoresAs(effect.message, m)
  }

  predicate ChangesStatus(log: seq<Entry>, id: nat, m: int) {
    var effect := EffectAt(log, id);
    effect.SetStatus? && effect.id == m
  }

  ghost predicate OneCreateEvent(log: seq<Entry>, m: int) {
    forall i, j: nat :: Creates(log, i, m) && Creates(log, j, m) ==>
      EffectAt(log, i).message == EffectAt(log, j).message
  }

  /** A create of `m`, or a change of its status behind one. */
  ghost predicate Lands(log: seq<Entry>, i: nat, m: int) {
    Creates(log, i, m) || (ChangesStatus(log, i, m) && exists c: nat :: c < i && Creates(log, c, m))
  }

  function CodeAt(log: seq<Entry>, i: nat, m: int): int {
    TouchCode(EffectAt(log, i), m).GetOr(0)
  }

  ghost predicate FirstCreate(log: seq<Entry>, j: nat, m: int) {
    Creates(log, j, m) && forall i: nat :: i < j ==> !Creates(log, i, m)
  }

  /**
   One reply can hold the entry `j` and everything less than `count` before it: entries never acknowledged
   that would have to be in an earlier reply can be trimmed by the time the log is as long as it is.
   */
  ghost predicate Readable(log: seq<Entry>, limits: Limits, j: nat) {
    forall e: nat :: e + limits.count <= j && EffectAt(log, e).Malformed? ==> e + 1 + limits.maxLen <= |log|
  }

  /** A change of status that stands before the first create of `m`, within one reply of it, with a code above its code. */
  ghost predicate Overtakes(log: seq<Entry>, limits: Limits, p: nat, j: nat, m: int) {
    && FirstCreate(log, j, m) && ChangesStatus(log, p, m)
    && p < j < p + limits.count
    && CodeAt(log, p, m) > CodeAt(log, j, m)
    && Readable(log, limits, j)
  }

  ghost predicate NoneOvertakes(log: seq<Entry>, limits: Limits, m: int) {
    forall p: nat, j: nat :: !Overtakes(log, limits, p, j, m)
  }

  ghost predicate NoCreateLost(s: Consumer, m: int) {
    forall i: nat :: Creates(s.log, i, m) ==> !Lost(s, i)
  }

  /**
   One create event for `m`, possibly in the stream several times, overtaken by no change of its status, and
   no copy of it lost to MAXLEN.
   */
  ghost predicate Sound(s: Consumer, limits: Limits, m: int) {
    OneCreateEvent(s.log, m) && NoneOvertakes(s.log, limits, m) && NoCreateLost(s, m)
  }

  /** A create of `m` stands before every recall or delete of `m`. */
  ghost predicate CreatedFirst(log: seq<Entry>, m: int) {
    forall p, j: nat :: ChangesStatus(log, p, m) && Creates(log, j, m) ==> exists i: nat :: i < p && Creates(log, i, m)
  }

  lemma CreatedFirstNeverOvertaken(log: seq<Entry>, limits: Limits, m: int)
    requires CreatedFirst(log, m)
    ensures NoneOvertakes(log, limits, m)
  {
  }

  lemma {:induction false} FirstCreateExists(log: seq<Entry>, i: nat, m: int) returns (j: nat)
    requires Creates(log, i, m)
    ensures j <= i && FirstCreate(log, j, m)
  {
    if c: nat :| c < i && Creates(log, c, m) {
      j := FirstCreateExists(log, c, m);
    } else {
      j := i;
    }
  }

  /** What is true of the longer log was true of the shorter. */
  lemma NoneOvertakesBefore(log: seq<Entry>, longer: seq<Entry>, limits: Limits, m: int)
    requires log <= longer && NoneOvertakes(longer, limits, m)
    ensures NoneOvertakes(log, limits, m)
  {
    assert forall i: nat :: i < |log| ==> EffectAt(longer, i) == EffectAt(log, i);
    forall p: nat, j: nat
      ensures !Overtakes(log, limits, p, j, m)
    {
      if Overtakes(log, limits, p, j, m) {
        assert forall i: nat :: i <= j ==> EffectAt(longer, i) == EffectAt(log, i);
        assert FirstCreate(longer, j, m) by {
          assert forall i: nat :: i < j ==> (Creates(longer, i, m) <==> Creates(log, i, m));
        }
        assert Readable(longer, limits, j);
        assert Overtakes(longer, limits, p, j, m);
      }
    }
  }

  // ---------- what one reply spans ----------

  /** Everything pending is within one reply of what was delivered last, and what is never acknowledged stays pending. */
  ghost predicate OneReply(s: Consumer, limits: Limits) {
    && (forall id :: id in s.pel ==> s.delivered <= id + limits.count)
    && (forall id :: id in s.memory.todo ==> s.delivered <= id + limits.count)
    && (s.trimmed == 0 || s.trimmed + limits.maxLen <= |s.log|)
    && (forall e: nat :: e < s.delivered && EffectAt(s.log, e).Malformed? ==> e < s.trimmed || e in s.pel)
  }

  lemma StepKeepsOneReply(s: Consumer, s': Consumer, limits: Limits)
    requires limits.Valid() && Inv(s, limits) && OneReply(s, limits) && Step(s, s', limits)
    ensures OneReply(s', limits)
  {
    var action :| StepBy(s, s', limits, action);
    match action
    case Appending => assert forall e: nat :: e < |s.log| ==> EffectAt(s'.log, e) == EffectAt(s.log, e);
    case ReadingNew => NewReplySpans(s, s', limits);
    case Processing => assert forall id :: id in s'.memory.todo ==> id in s.memory.todo;
    case AckingStale => AckKeepsOneReply(s, s', limits, action);
    case AckingImmediate => AckKeepsOneReply(s, s', limits, action);
    case AckingFlushed => AckKeepsOneReply(s, s', limits, action);
    case _ =>
  }

  lemma AckKeepsOneReply(s: Consumer, s': Consumer, limits: Limits, action: Action)
    requires Inv(s, limits) && OneReply(s, limits) && StepBy(s, s', limits, action)
    requires action.AckingStale? || action.AckingImmediate? || action.AckingFlushed?
    ensures OneReply(s', limits)
  {
    forall e | e in s.pel && e !in s'.pel
      ensures !EffectAt(s.log, e).Malformed? || e < s.trimmed
    {
      LeavingPendingList(s, s', limits, action, e);
    }
  }

  lemma NewReplySpans(s: Consumer, s': Consumer, limits: Limits)
    requires limits.Valid() && Inv(s, limits) && OneReply(s, limits) && ReadNew(s, s', limits)
    ensures OneReply(s', limits)
  {
    var start := if s.delivered >= s.trimmed then s.delivered else s.trimmed;
    forall e: nat | e < s'.delivered && e >= s'.trimmed && EffectAt(s'.log, e).Malformed?
      ensures e in s'.pel
    {
      assert e >= start;
      assert s'.memory.todo[e - start] == e;
    }
  }

  lemma {:induction false} RunKeepsOneReply(run: seq<Consumer>, limits: Limits, k: nat)
    requires IsRun(run, limits) && k < |run|
    ensures OneReply(run[k], limits)
  {
    if k > 0 {
      RunKeepsOneReply(run, limits, k - 1);
      RunKeepsInv(run, limits, k - 1);
      StepAt(run, limits, k - 1);
      StepKeepsOneReply(run[k - 1], run[k], limits);
    }
  }

  /** A change of status is handled behind a committed create only where it lands, or carries no higher code. */
  lemma HandledBehindCreate(s: Consumer, limits: Limits, p: nat, i: nat, m: int)
    requires Inv(s, limits) && OneReply(s, limits) && Sound(s, limits, m)
    requires p in s.memory.todo && ChangesStatus(s.log, p, m) && i in s.committed && Creates(s.log, i, m)
    ensures Lands(s.log, p, m) || CodeAt(s.log, p, m) <= CodeAt(s.log, i, m)
  {
    var j := FirstCreateExists(s.log, i, m);
    if p < j {
      assert i < s.delivered <= p + limits.count;
      assert Readable(s.log, limits, j) by {
        forall e: nat | e + limits.count <= j && EffectAt(s.log, e).Malformed?
          ensures e + 1 + limits.maxLen <= |s.log|
        {
          assert e < s.trimmed || e in s.pel;
        }
      }
      assert !Overtakes(s.log, limits, p, j, m);
    } else {
      assert p != j;
    }
  }

  // ---------- the row of a message ----------

  /** The greatest code among the entries that land. */
  ghost predicate StatusIsMax(log: seq<Entry>, entries: set<nat>, m: int, status: int) {
    && (forall i :: i in entries && Lands(log, i, m) ==> CodeAt(log, i, m) <= status)
    && exists i :: i in entries && Lands(log, i, m) && CodeAt(log, i, m) == status
  }

  /** Message `m` is stored exactly when a create of it is among `entries`, with the greatest of the codes that land. */
  ghost predicate RowReflects(messages: Messages, log: seq<Entry>, entries: set<nat>, m: int) {
    && (m in messages <==> exists i :: i in entries && Creates(log, i, m))
    && (m in messages ==>
          && StatusIsMax(log, entries, m, messages[m].status)
          && forall i :: i in entries && Creates(log, i, m) ==>
               && messages[m].body == EffectAt(log, i).message.body
               && messages[m].conversationSeq == EffectAt(log, i).message.conversationSeq)
  }

  /** Memory only gains entries that can still be read, and only what is in memory gets committed. */
  lemma OnlyReadEntriesEnterMemory(s: Consumer, s': Consumer, limits: Limits, action: Action, id: nat)
    requires StepBy(s, s', limits, action)
    ensures s.trimmed <= s'.trimmed && s.log <= s'.log
    ensures InMemory(s'.memory, id) ==> InMemory(s.memory, id) || id >= s.trimmed
    ensures id in s'.committed ==> id in s.committed || InMemory(s.memory, id)
  {
    if action.Processing? {
      ProcessedStaysInMemory(s, s', id);
    } else if action.ReadingNew? && InMemory(s'.memory, id) {
      assert id in s'.memory.todo || Batched(s.memory, id);
    }
  }

  lemma LostStaysLost(s: Consumer, s': Consumer, limits: Limits, id: nat)
    requires Inv(s, limits) && Step(s, s', limits) && Lost(s, id)
    ensures Lost(s', id)
  {
    var action :| StepBy(s, s', limits, action);
    OnlyReadEntriesEnterMemory(s, s', limits, action, id);
  }

  lemma NoCreateLostBefore(s: Consumer, s': Consumer, limits: Limits, m: int)
    requires Inv(s, limits) && Step(s, s', limits) && s.log <= s'.log && NoCreateLost(s', m)
    ensures NoCreateLost(s, m)
  {
    forall i: nat | Creates(s.log, i, m)
      ensures !Lost(s, i)
    {
      assert EffectAt(s'.log, i) == EffectAt(s.log, i);
      assert Creates(s'.log, i, m);
      if Lost(s, i) {
        LostStaysLost(s, s', limits, i);
      }
    }
  }

  lemma SoundBefore(s: Consumer, s': Consumer, limits: Limits, m: int)
    requires limits.Valid() && Inv(s, limits) && Step(s, s', limits) && Sound(s', limits, m)
    ensures Sound(s, limits, m)
  {
    assert s.log <= s'.log by {
      var action :| StepBy(s, s', limits, action);
      OnlyReadEntriesEnterMemory(s, s', limits, action, 0);
    }
    NoCreateLostBefore(s, s', limits, m);
    NoneOvertakesBefore(s.log, s'.log, limits, m);
    assert forall i: nat :: i < |s.log| ==> EffectAt(s'.log, i) == EffectAt(s.log, i);
    assert forall i: nat :: Creates(s.log, i, m) ==> Creates(s'.log, i, m);
  }

  /** A committed change of status that lands has a committed create before it. */
  lemma CommittedCreateBefore(s: Consumer, limits: Limits, p: nat, m: int) returns (i: nat)
    requires Inv(s, limits) && NoCreateLost(s, m)
    requires p in s.committed && Lands(s.log, p, m)
    ensures i <= p && i in s.committed && Creates(s.log, i, m)
  {
    if Creates(s.log, p, m) {
      i := p;
    } else {
      i :| i < p && Creates(s.log, i, m);
      assert i in s.committed || Owed(s, i);
    }
  }

  /** With the row absent, no committed entry lands. */
  lemma UnstoredIsUntouched(s: Consumer, limits: Limits, m: int)
    requires Inv(s, limits) && NoCreateLost(s, m) && RowReflects(s.db.messages, s.log, s.committed, m)
    requires m !in s.db.messages
    ensures forall i :: i in s.committed ==> !Lands(s.log, i, m)
  {
    forall p | p in s.committed
      ensures !Lands(s.log, p, m)
    {
      if Lands(s.log, p, m) {
        var i := CommittedCreateBefore(s, limits, p, m);
      }
    }
  }

  /**
   Applying one more entry keeps the row exact, provided a first insert finds nothing that has landed, and a
   change of status finds a row exactly where it lands, or one with no lower status.
   */
  lemma OneMoreReflects(t: Messages, r: Messages, log: seq<Entry>, entries: set<nat>, i: nat, m: int)
    requires OneCreateEvent(log, m) && RowReflects(t, log, entries, m)
    requires r == ApplyEffect(Tables(t, map[], map[]), EffectAt(log, i)).messages
    requires m !in t && Creates(log, i, m) ==> forall e :: e in entries ==> !Lands(log, e, m)
    requires m in t && ChangesStatus(log, i, m) ==> Lands(log, i, m) || CodeAt(log, i, m) <= t[m].status
    ensures RowReflects(r, log, entries + {i}, m)
  {
    var more := entries + {i};
    assert i in more && forall e :: e in entries ==> e in more;
    assert forall e :: e in more && e !in entries ==> e == i;
    if TouchCode(EffectAt(log, i), m).None? {
      assert (m in r <==> m in t) && (m in t ==> r[m] == t[m]);
    }
    if m in r {
      if m in t && r[m].status == t[m].status {
        var w :| w in entries && Lands(log, w, m) && CodeAt(log, w, m) == t[m].status;
        assert w in more;
      } else {
        assert Lands(log, i, m) && CodeAt(log, i, m) == r[m].status;
      }
      assert StatusIsMax(log, more, m, r[m].status);
    }
  }

  lemma BatchedMessage(s: Consumer, limits: Limits, message: Message) returns (id: nat)
    requires Inv(s, limits) && message in s.memory.messageBatch
    ensures id in s.memory.messageAckIds && EffectAt(s.log, id) == Insert(message)
  {
    var k :| 0 <= k < |s.memory.messageBatch| && s.memory.messageBatch[k] == message;
    id := s.memory.messageAckIds[k];
  }

  lemma BatchedId(s: Consumer, limits: Limits, id: nat)
    requires Inv(s, limits) && id in s.memory.messageAckIds
    ensures EffectAt(s.log, id).Insert? && EffectAt(s.log, id).message in s.memory.messageBatch
  {
    var k :| 0 <= k < |s.memory.messageAckIds| && s.memory.messageAckIds[k] == id;
    assert s.memory.messageBatch[k] in s.memory.messageBatch;
  }

  lemma CommittedByMessages(s: Consumer, s': Consumer, limits: Limits, i: nat, m: int)
    requires Inv(s, limits) && CommitMessages(s, s') && i in s'.committed && i !in s.committed && Lands(s.log, i, m)
    ensures Creates(s.log, i, m) && EffectAt(s.log, i).message in s.memory.messageBatch
  {
    BatchedId(s, limits, i);
  }

  lemma CommitStoresRow(s: Consumer, s': Consumer, limits: Limits, m: int)
    requires Inv(s, limits) && CommitMessages(s, s') && Sound(s, limits, m)
    requires RowReflects(s.db.messages, s.log, s.committed, m)
    ensures RowReflects(s'.db.messages, s'.log, s'.committed, m)
  {
    var t, batch, r := s.db.messages, s.memory.messageBatch, s'.db.messages;
    InsertedStatusIsMax(t, batch, m);
    forall i | i in s'.committed && i !in s.committed && Lands(s.log, i, m)
      ensures Creates(s.log, i, m) && EffectAt(s.log, i).message in batch
    {
      CommittedByMessages(s, s', limits, i, m);
    }
    if m in r {
      CommitStoresColumns(s, s', limits, m);
      CommitStoresStatus(s, s', limits, m);
    } else {
      assert forall i :: i in s'.committed && Creates(s.log, i, m) ==> Lands(s.log, i, m);
    }
  }

  lemma CommitStoresStatus(s: Consumer, s': Consumer, limits: Limits, m: int)
    requires Inv(s, limits) && CommitMessages(s, s') && Sound(s, limits, m)
    requires RowReflects(s.db.messages, s.log, s.committed, m) && m in s'.db.messages
    ensures StatusIsMax(s'.log, s'.committed, m, s'.db.messages[m].status)
  {
    var t, batch, r := s.db.messages, s.memory.messageBatch, s'.db.messages;
    InsertedStatusIsMax(t, batch, m);
    forall i | i in s'.committed && Lands(s.log, i, m)
      ensures CodeAt(s.log, i, m) <= r[m].status
    {
      if i !in s.committed {
        CommittedByMessages(s, s', limits, i, m);
      } else if m !in t {
        UnstoredIsUntouched(s, limits, m);
      }
    }
    if m in t && r[m].status == t[m].status {
      var w :| w in s.committed && Lands(s.log, w, m) && CodeAt(s.log, w, m) == t[m].status;
      assert w in s'.committed;
    } else {
      var y :| y in batch && StoresAs(y, m) && y.status.Code() == r[m].status;
      var i := BatchedMessage(s, limits, y);
      assert i in s'.committed && Lands(s'.log, i, m) && CodeAt(s'.log, i, m) == r[m].status;
    }
  }

  /** The committed row comes from the one create event of `m`. */
  lemma CommitStoresColumns(s: Consumer, s': Consumer, limits: Limits, m: int)
    requires Inv(s, limits) && CommitMessages(s, s') && OneCreateEvent(s.log, m)
    requires RowReflects(s.db.messages, s.log, s.committed, m) && m in s'.db.messages
    ensures exists i :: i in s'.committed && Creates(s'.log, i, m)
    ensures forall i :: i in s'.committed && Creates(s'.log, i, m) ==>
      && s'.db.messages[m].body == EffectAt(s'.log, i).message.body
      && s'.db.messages[m].conversationSeq == EffectAt(s'.log, i).message.conversationSeq
  {
    var t, batch := s.db.messages, s.memory.messageBatch;
    InsertedStatusIsMax(t, batch, m);
    var j: nat;
    if m in t {
      j :| j in s.committed && Creates(s.log, j, m);
    } else {
      var x :| x in batch && StoresAs(x, m);
      j := BatchedMessage(s, limits, x);
      assert Creates(s.log, j, m);
    }
    assert j in s'.committed;
    forall y | y in batch && StoresAs(y, m)
      ensures y == EffectAt(s.log, j).message
    {
      var i := BatchedMessage(s, limits, y);
      assert Creates(s.log, i, m);
    }
    InsertedColumnsAgree(t, batch, m, EffectAt(s.log, j).message);
  }

  lemma StatusStoresRow(s: Consumer, s': Consumer, limits: Limits, m: int)
    requires Inv(s, limits) && OneReply(s, limits) && ApplyStatus(s, s') && Sound(s, limits, m)
    requires RowReflects(s.db.messages, s.log, s.committed, m)
    ensures RowReflects(s'.db.messages, s'.log, s'.committed, m)
  {
    var p := s.memory.todo[0];
    assert p in s.memory.todo;
    if m in s.db.messages && ChangesStatus(s.log, p, m) {
      var i :| i in s.committed && Creates(s.log, i, m);
      HandledBehindCreate(s, limits, p, i, m);
      assert Lands(s.log, i, m);
    }
    OneMoreReflects(s.db.messages, s'.db.messages, s.log, s.committed, p, m);
  }

  /** Entries that land go on landing as the log grows, and no others among those it had. */
  lemma LandsLater(log: seq<Entry>, longer: seq<Entry>, i: nat, m: int)
    requires log <= longer && i < |log|
    ensures EffectAt(longer, i) == EffectAt(log, i) && (Lands(longer, i, m) <==> Lands(log, i, m))
  {
    assert forall c: nat :: c < i ==> EffectAt(longer, c) == EffectAt(log, c);
    assert forall c: nat :: c < i ==> (Creates(longer, c, m) <==> Creates(log, c, m));
  }

  lemma AppendKeepsRow(s: Consumer, s': Consumer, limits: Limits, m: int)
    requires Inv(s, limits) && Append(s, s', limits)
    requires RowReflects(s.db.messages, s.log, s.committed, m)
    ensures RowReflects(s'.db.messages, s'.log, s'.committed, m)
  {
    forall i | i in s.committed
      ensures EffectAt(s'.log, i) == EffectAt(s.log, i) && (Lands(s'.log, i, m) <==> Lands(s.log, i, m))
    {
      LandsLater(s.log, s'.log, i, m);
    }
    assert forall i :: i in s.committed ==> (Creates(s'.log, i, m) <==> Creates(s.log, i, m));
    if m in s.db.messages {
      assert StatusIsMax(s'.log, s'.committed, m, s.db.messages[m].status);
    }
  }

  lemma CommitReadsKeepsRow(s: Consumer, s': Consumer, limits: Limits, m: int)
    requires Inv(s, limits) && CommitReads(s, s')
    requires RowReflects(s.db.messages, s.log, s.committed, m)
    ensures RowReflects(s'.db.messages, s'.log, s'.committed, m)
  {
    forall i | i in s'.committed && i !in s.committed
      ensures !Lands(s.log, i, m)
    {
      BatchedRead(s, limits, i);
    }
    assert forall i :: i in s.committed ==> i in s'.committed;
    if m in s.db.messages {
      assert StatusIsMax(s'.log, s'.committed, m, s.db.messages[m].status);
    }
  }

  lemma BatchedRead(s: Consumer, limits: Limits, id: nat)
    requires Inv(s, limits) && id in ReadIds(s.memory)
    ensures var effect := EffectAt(s.log, id);
      || (effect.ReadPrivate? && effect.private in s.memory.privateReadBatch && id in s.memory.privateReadAckIds)
      || (effect.ReadGroup? && effect.group in s.memory.groupReadBatch && id in s.memory.groupReadAckIds)
  {
    if id in s.memory.privateReadAckIds {
      var k :| 0 <= k < |s.memory.privateReadAckIds| && s.memory.privateReadAckIds[k] == id;
      assert s.memory.privateReadBatch[k] in s.memory.privateReadBatch;
    } else {
      var k :| 0 <= k < |s.memory.groupReadAckIds| && s.memory.groupReadAckIds[k] == id;
      assert s.memory.groupReadBatch[k] in s.memory.groupReadBatch;
    }
  }

  lemma StepKeepsRow(s: Consumer, s': Consumer, limits: Limits, m: int)
    requires limits.Valid() && Inv(s, limits) && OneReply(s, limits) && Step(s, s', limits) && Sound(s, limits, m)
    requires RowReflects(s.db.messages, s.log, s.committed, m)
    ensures RowReflects(s'.db.messages, s'.log, s'.committed, m)
  {
    var action :| StepBy(s, s', limits, action);
    match action
    case Appending => AppendKeepsRow(s, s', limits, m);
    case CommittingMessages => CommitStoresRow(s, s', limits, m);
    case CommittingReads => CommitReadsKeepsRow(s, s', limits, m);
    case ApplyingStatus => StatusStoresRow(s, s', limits, m);
    case _ =>
  }

  /**
   A message's row always reflects the set of entries committed so far, once each, whatever the number of
   re-reads, duplicate batch items and crashes: its status is the greatest code among those that land.
   */
  lemma {:induction false} MessageRowIsExact(run: seq<Consumer>, limits: Limits, k: nat, m: int)
    requires IsRun(run, limits) && k < |run| && Sound(run[k], limits, m)
    ensures RowReflects(run[k].db.messages, run[k].log, run[k].committed, m)
  {
    if k > 0 {
      StepAt(run, limits, k - 1);
      RunKeepsInv(run, limits, k - 1);
      RunKeepsOneReply(run, limits, k - 1);
      SoundBefore(run[k - 1], run[k], limits, m);
      MessageRowIsExact(run, limits, k - 1, m);
      StepKeepsRow(run[k - 1], run[k], limits, m);
    }
  }

  // ---------- the same, as application in stream order ----------

  function ApplyEffect(t: Tables, effect: Effect): Tables {
    match effect
    case Insert(message) => t.(messages := InsertMessage(t.messages, message))
    case SetStatus(id, code, at) => t.(messages := UpdateStatus(t.messages, id, code, at))
    case ReadPrivate(c) => t.(privates := UpsertPrivate(t.privates, c))
    case ReadGroup(c) => t.(groups := UpsertGroup(t.groups, c))
    case _ => t
  }

  /** The tables after applying each of `entries` below `n` once, in stream order, to empty tables. */
  function InOrder(log: seq<Entry>, entries: set<nat>, n: nat): Tables {
    if n == 0 then EMPTY_TABLES
    else
      var before := InOrder(log, entries, n - 1);
      if n - 1 in entries then ApplyEffect(before, EffectAt(log, n - 1)) else before
  }

  function Below(entries: set<nat>, n: nat): set<nat> {
    set i | i in entries && i < n
  }

  /** Among `entries`, a create of `m` comes before each change of its status that lands. */
  ghost predicate CreatedFirstWithin(log: seq<Entry>, entries: set<nat>, m: int) {
    forall p {:trigger Lands(log, p, m)} :: p in entries && Lands(log, p, m) ==> exists i :: i in entries && i <= p && Creates(log, i, m)
  }

  lemma {:induction false} InOrderReflects(log: seq<Entry>, entries: set<nat>, n: nat, m: int)
    requires OneCreateEvent(log, m) && CreatedFirstWithin(log, entries, m)
    ensures RowReflects(InOrder(log, entries, n).messages, log, Below(entries, n), m)
  {
    if n > 0 {
      InOrderReflects(log, entries, n - 1, m);
      if n - 1 !in entries {
        assert Below(entries, n) == Below(entries, n - 1);
      } else {
        InOrderOneMore(log, entries, n, m);
      }
    }
  }

  /** Without a create below `n` nothing has landed below `n`; with one, every change of status lands from there on. */
  lemma LandsBelow(log: seq<Entry>, entries: set<nat>, n: nat, m: int)
    requires CreatedFirstWithin(log, entries, m)
    ensures (forall i :: i in Below(entries, n) ==> !Creates(log, i, m)) ==> forall e :: e in Below(entries, n) ==> !Lands(log, e, m)
    ensures (exists i :: i in Below(entries, n) && Creates(log, i, m)) && ChangesStatus(log, n, m) ==> Lands(log, n, m)
  {
    forall e | e in Below(entries, n) && Lands(log, e, m)
      ensures exists i :: i in Below(entries, n) && Creates(log, i, m)
    {
      var i :| i in entries && i <= e && Creates(log, i, m);
      assert i in Below(entries, n);
    }
  }

  lemma InOrderOneMore(log: seq<Entry>, entries: set<nat>, n: nat, m: int)
    requires OneCreateEvent(log, m) && CreatedFirstWithin(log, entries, m)
    requires n > 0 && n - 1 in entries
    requires RowReflects(InOrder(log, entries, n - 1).messages, log, Below(entries, n - 1), m)
    ensures RowReflects(InOrder(log, entries, n).messages, log, Below(entries, n), m)
  {
    var before := InOrder(log, entries, n - 1);
    LandsBelow(log, entries, n - 1, m);
    assert Below(entries, n) == Below(entries, n - 1) + {n - 1};
    MessagesAlone(before, EffectAt(log, n - 1));
    OneMoreReflects(before.messages, InOrder(log, entries, n).messages, log, Below(entries, n - 1), n - 1, m);
  }

  lemma MessagesAlone(t: Tables, effect: Effect)
    ensures ApplyEffect(t, effect).messages == ApplyEffect(Tables(t.messages, map[], map[]), effect).messages
  {
  }

  ghost predicate SameMessage(a: Messages, b: Messages, m: int) {
    && (m in a <==> m in b)
    && (m in a ==>
          && a[m].status == b[m].status
          && a[m].body == b[m].body
          && a[m].conversationSeq == b[m].conversationSeq)
  }

  lemma ReflectsDetermines(a: Messages, b: Messages, log: seq<Entry>, entries: set<nat>, m: int)
    requires RowReflects(a, log, entries, m) && RowReflects(b, log, entries, m)
    ensures SameMessage(a, b, m)
  {
    if m in a {
      var i :| i in entries && Creates(log, i, m);
      var x :| x in entries && Lands(log, x, m) && CodeAt(log, x, m) == a[m].status;
      var y :| y in entries && Lands(log, y, m) && CodeAt(log, y, m) == b[m].status;
    }
  }

  /** The stored message is the one that each committed entry gives, applied a single time, in stream order. */
  ghost predicate AppliedOnce(s: Consumer, m: int) {
    SameMessage(s.db.messages, InOrder(s.log, s.committed, |s.log|).messages, m)
  }

  /** Exactly-once effect from at-least-once delivery, at every moment of every run. */
  lemma MessagesAppliedOnceInOrder(run: seq<Consumer>, limits: Limits, k: nat, m: int)
    requires IsRun(run, limits) && k < |run| && Sound(run[k], limits, m)
    ensures AppliedOnce(run[k], m)
  {
    var s := run[k];
    RunKeepsInv(run, limits, k);
    MessageRowIsExact(run, limits, k, m);
    forall p | p in s.committed && Lands(s.log, p, m)
      ensures exists i :: i in s.committed && i <= p && Creates(s.log, i, m)
    {
      var i := CommittedCreateBefore(s, limits, p, m);
    }
    InOrderReflects(s.log, s.committed, |s.log|, m);
    assert Below(s.committed, |s.log|) == s.committed;
    ReflectsDetermines(s.db.messages, InOrder(s.log, s.committed, |s.log|).messages, s.log, s.committed, m);
  }
}
