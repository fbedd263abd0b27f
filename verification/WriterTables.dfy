/**
 What the tables hold at every moment of every run, told by the fields of the committed events: no law here
 goes through the effect that the writer computes for an event.
 */
module WriterTables {
  import opened Options
  import opened Events
  import opened EventLaws
  import opened BackgroundDb
  import opened WriterMachine
  import opened WriterRuns
  import opened WriterCursors

  // ---------- private read cursors ----------

  /** A committed receipt of `user` to `peer`, read at `at`. */
  ghost predicate ReadBy(s: Consumer, i: nat, user: int, peer: int, at: int) {
    i in s.committed && i < |s.log| && PrivateReceipt(s.log[i].payload, user, peer, at)
  }

  lemma ReadByIsEffect(s: Consumer, i: nat, user: int, peer: int, at: int)
    ensures ReadBy(s, i, user, peer, at)
      <==> i in s.committed && ReadsPrivate(s.log, i, (user, peer)) && EffectAt(s.log, i).private.readAt == at
  {
    if i < |s.log| {
      PrivateEffect(s.log[i].payload, user, peer, at);
    }
  }

  /** A private cursor is stored for exactly the readers and peers of committed receipts, with the latest of their times. */
  lemma PrivateCursorsAre(run: seq<Consumer>, limits: Limits, k: nat, user: int, peer: int)
    requires IsRun(run, limits) && k < |run|
    ensures var s := run[k];
      && ((user, peer) in s.db.privates <==> exists i: nat, at :: ReadBy(s, i, user, peer, at))
      && ((user, peer) in s.db.privates ==>
            && (forall i: nat, at :: ReadBy(s, i, user, peer, at) ==> at <= s.db.privates[(user, peer)])
            && exists i: nat :: ReadBy(s, i, user, peer, s.db.privates[(user, peer)]))
  {
    var s, key := run[k], (user, peer);
    CursorsAreExact(run, limits, k, key);
    forall i: nat, at
      ensures ReadBy(s, i, user, peer, at) <==> i in s.committed && ReadsPrivate(s.log, i, key) && EffectAt(s.log, i).private.readAt == at
    {
      ReadByIsEffect(s, i, user, peer, at);
    }
    if key in s.db.privates {
      var i :| i in s.committed && ReadsPrivate(s.log, i, key) && EffectAt(s.log, i).private.readAt == s.db.privates[key];
      assert ReadBy(s, i, user, peer, s.db.privates[key]);
    }
  }

  // ---------- group read cursors ----------

  /** A committed receipt of `reader` in `group`. */
  ghost predicate ReadIn(s: Consumer, i: nat, group: int, reader: int, at: int, readSeq: int, messageId: Option<int>) {
    i in s.committed && i < |s.log| && GroupReceipt(s.log[i].payload, group, reader, at, readSeq, messageId)
  }

  lemma ReadInIsEffect(s: Consumer, i: nat, group: int, reader: int, at: int, readSeq: int, messageId: Option<int>)
    ensures ReadIn(s, i, group, reader, at, readSeq, messageId)
      <==> i in s.committed && EffectAt(s.log, i) == ReadGroup(GroupCursor(group, reader, at, readSeq, messageId))
  {
    if i < |s.log| {
      GroupEffect(s.log[i].payload, group, reader, at, readSeq, messageId);
    }
  }

  ghost predicate ReadAtSeq(s: Consumer, group: int, reader: int, readSeq: int) {
    exists i: nat, at, messageId :: ReadIn(s, i, group, reader, at, readSeq, messageId)
  }

  ghost predicate ReadAtTime(s: Consumer, group: int, reader: int, at: int) {
    exists i: nat, readSeq, messageId :: ReadIn(s, i, group, reader, at, readSeq, messageId)
  }

  /** A group cursor is stored for exactly the groups and readers of committed receipts, with the greatest sequence; its time is that of one of them. */
  lemma GroupCursorsAre(run: seq<Consumer>, limits: Limits, k: nat, group: int, reader: int)
    requires IsRun(run, limits) && k < |run|
    ensures var s := run[k];
      && ((group, reader) in s.db.groups <==> exists readSeq :: ReadAtSeq(s, group, reader, readSeq))
      && ((group, reader) in s.db.groups ==>
            && (forall readSeq :: ReadAtSeq(s, group, reader, readSeq) ==> readSeq <= s.db.groups[(group, reader)].readSeq)
            && ReadAtSeq(s, group, reader, s.db.groups[(group, reader)].readSeq)
            && ReadAtTime(s, group, reader, s.db.groups[(group, reader)].readAt))
  {
    var s, key := run[k], (group, reader);
    CursorsAreExact(run, limits, k, key);
    forall i: nat | i in s.committed && ReadsGroup(s.log, i, key)
      ensures var c := EffectAt(s.log, i).group; ReadIn(s, i, group, reader, c.readAt, c.readSeq, c.messageId)
    {
      var c := EffectAt(s.log, i).group;
      ReadInIsEffect(s, i, group, reader, c.readAt, c.readSeq, c.messageId);
    }
    forall i: nat, at, readSeq, messageId | ReadIn(s, i, group, reader, at, readSeq, messageId)
      ensures i in s.committed && ReadsGroup(s.log, i, key) && EffectAt(s.log, i).group.readSeq == readSeq
    {
      ReadInIsEffect(s, i, group, reader, at, readSeq, messageId);
    }
    if key in s.db.groups {
      var i :| i in s.committed && ReadsGroup(s.log, i, key) && EffectAt(s.log, i).group.readSeq == s.db.groups[key].readSeq;
      assert ReadAtSeq(s, group, reader, s.db.groups[key].readSeq);
    }
  }

  // ---------- group cursors whose fields rise together ----------

  predicate NoFurther(a: GroupCursor, b: GroupCursor) {
    a.readAt <= b.readAt && ReadId(a.messageId) <= ReadId(b.messageId)
  }

  predicate InSeqOrder(a: GroupCursor, b: GroupCursor) {
    a.readSeq <= b.readSeq ==> NoFurther(a, b)
  }

  /** Time and message id rise with the sequence. */
  ghost predicate Rising(log: seq<Entry>, entries: set<nat>, key: (int, int)) {
    forall i, j :: i in entries && j in entries && ReadsGroup(log, i, key) && ReadsGroup(log, j, key) ==>
      InSeqOrder(EffectAt(log, i).group, EffectAt(log, j).group)
  }

  ghost predicate IdStored(log: seq<Entry>, entries: set<nat>, key: (int, int), id: int) {
    exists i :: i in entries && ReadsGroup(log, i, key) && ReadId(EffectAt(log, i).group.messageId) == id
  }

  /** All three read fields are the greatest among the entries. */
  ghost predicate GroupExact(t: Groups, log: seq<Entry>, entries: set<nat>, key: (int, int)) {
    && GroupReflects(t, log, entries, key)
    && (key in t ==>
          && (forall i :: i in entries && ReadsGroup(log, i, key) ==> NoFurther(EffectAt(log, i).group, CursorOf(key, t[key])))
          && IdStored(log, entries, key, ReadId(t[key].messageId)))
  }

  function CursorOf(key: (int, int), row: GroupRow): GroupCursor {
    GroupCursor(key.0, key.1, row.readAt, row.readSeq, row.messageId)
  }

  /** In a batch that rises, the cursor kept for the key is the furthest in all three fields. */
  lemma KeptIsFurthest(batch: seq<GroupCursor>, log: seq<Entry>, now: set<nat>, key: (int, int))
    requires Rising(log, now, key)
    requires forall c :: c in batch && GroupKey(c) == key ==>
      exists i :: i in now && ReadsGroup(log, i, key) && EffectAt(log, i).group == c
    ensures forall c :: c in batch && GroupKey(c) == key ==>
      key in CoalesceGroup(batch) && c.readSeq <= CoalesceGroup(batch)[key].readSeq && NoFurther(c, CoalesceGroup(batch)[key])
  {
    forall c | c in batch && GroupKey(c) == key
      ensures key in CoalesceGroup(batch) && c.readSeq <= CoalesceGroup(batch)[key].readSeq && NoFurther(c, CoalesceGroup(batch)[key])
    {
      CoalesceGroupKeepsNewest(batch, c);
      var kept := CoalesceGroup(batch)[key];
      var i :| i in now && ReadsGroup(log, i, key) && EffectAt(log, i).group == c;
      var j :| j in now && ReadsGroup(log, j, key) && EffectAt(log, j).group == kept;
      assert InSeqOrder(c, kept);
    }
  }

  lemma JoinIsFurthest(t: Groups, latest: map<(int, int), GroupCursor>, key: (int, int))
    requires key in UpsertGroupMap(t, latest)
    ensures var row := UpsertGroupMap(t, latest)[key];
      && (key in t ==> NoFurther(CursorOf(key, t[key]), CursorOf(key, row)))
      && (key in latest ==> NoFurther(latest[key], CursorOf(key, row)))
      && ((key in t && ReadId(row.messageId) == ReadId(t[key].messageId))
          || (key in latest && ReadId(row.messageId) == ReadId(latest[key].messageId)))
  {
  }

  lemma GroupBatchExact(t: Groups, batch: seq<GroupCursor>, log: seq<Entry>, past: set<nat>, now: set<nat>, key: (int, int))
    requires past <= now && GroupExact(t, log, past, key) && Rising(log, now, key)
    requires forall i :: i in now && i !in past && ReadsGroup(log, i, key) ==> EffectAt(log, i).group in batch
    requires forall c :: c in batch && GroupKey(c) == key ==>
      exists i :: i in now && ReadsGroup(log, i, key) && EffectAt(log, i).group == c
    ensures GroupExact(UpsertGroupMap(t, CoalesceGroup(batch)), log, now, key)
  {
    GroupBatchReflects(t, batch, log, past, now, key);
    if key in UpsertGroupMap(t, CoalesceGroup(batch)) {
      BatchIsFurthest(t, batch, log, past, now, key);
      BatchIdIsStored(t, batch, log, past, now, key);
    }
  }

  lemma BatchIsFurthest(t: Groups, batch: seq<GroupCursor>, log: seq<Entry>, past: set<nat>, now: set<nat>, key: (int, int))
    requires GroupExact(t, log, past, key) && Rising(log, now, key) && key in UpsertGroupMap(t, CoalesceGroup(batch))
    requires forall i :: i in now && i !in past && ReadsGroup(log, i, key) ==> EffectAt(log, i).group in batch
    requires forall c :: c in batch && GroupKey(c) == key ==>
      exists i :: i in now && ReadsGroup(log, i, key) && EffectAt(log, i).group == c
    ensures var row := CursorOf(key, UpsertGroupMap(t, CoalesceGroup(batch))[key]);
      forall i :: i in now && ReadsGroup(log, i, key) ==> NoFurther(EffectAt(log, i).group, row)
  {
    JoinIsFurthest(t, CoalesceGroup(batch), key);
    KeptIsFurthest(batch, log, now, key);
  }

  lemma BatchIdIsStored(t: Groups, batch: seq<GroupCursor>, log: seq<Entry>, past: set<nat>, now: set<nat>, key: (int, int))
    requires past <= now && GroupExact(t, log, past, key) && key in UpsertGroupMap(t, CoalesceGroup(batch))
    requires forall c :: c in batch && GroupKey(c) == key ==>
      exists i :: i in now && ReadsGroup(log, i, key) && EffectAt(log, i).group == c
    ensures IdStored(log, now, key, ReadId(UpsertGroupMap(t, CoalesceGroup(batch))[key].messageId))
  {
    var latest := CoalesceGroup(batch);
    JoinIsFurthest(t, latest, key);
    if key in t && ReadId(UpsertGroupMap(t, latest)[key].messageId) == ReadId(t[key].messageId) {
      var i :| i in past && ReadsGroup(log, i, key) && ReadId(EffectAt(log, i).group.messageId) == ReadId(t[key].messageId);
      assert i in now;
    } else {
      assert latest[key] in batch;
    }
  }

  lemma CommitIsExact(s: Consumer, s': Consumer, limits: Limits, key: (int, int))
    requires Inv(s, limits) && CommitReads(s, s') && Rising(s'.log, s'.committed, key)
    requires GroupExact(s.db.groups, s.log, s.committed, key)
    ensures GroupExact(s'.db.groups, s'.log, s'.committed, key)
  {
    CommittedReads(s, s', limits, key);
    GroupBatchExact(s.db.groups, s.memory.groupReadBatch, s.log, s.committed, s'.committed, key);
  }

  lemma OthersKeepExact(s: Consumer, s': Consumer, limits: Limits, action: Action, key: (int, int))
    requires limits.Valid() && Inv(s, limits) && StepBy(s, s', limits, action) && !action.CommittingReads?
    requires GroupExact(s.db.groups, s.log, s.committed, key)
    ensures GroupExact(s'.db.groups, s'.log, s'.committed, key)
  {
    OtherStepsCommitNoReads(s, s', limits, action);
    CursorsUnmoved(s, s', limits, key);
    assert forall i :: i in s.committed ==> i in s'.committed && EffectAt(s'.log, i) == EffectAt(s.log, i);
    assert forall i :: i in s.committed ==> (ReadsGroup(s'.log, i, key) <==> ReadsGroup(s.log, i, key));
  }

  lemma RisingBefore(s: Consumer, s': Consumer, limits: Limits, key: (int, int))
    requires Inv(s, limits) && Step(s, s', limits) && Rising(s'.log, s'.committed, key)
    ensures Rising(s.log, s.committed, key)
  {
    var action :| StepBy(s, s', limits, action);
    if !action.CommittingReads? {
      OtherStepsCommitNoReads(s, s', limits, action);
    }
    assert forall i :: i in s.committed ==> i in s'.committed && EffectAt(s'.log, i) == EffectAt(s.log, i);
    assert forall i :: i in s.committed ==> (ReadsGroup(s'.log, i, key) <==> ReadsGroup(s.log, i, key));
  }

  lemma {:induction false} RisingIsExact(run: seq<Consumer>, limits: Limits, k: nat, key: (int, int))
    requires IsRun(run, limits) && k < |run| && Rising(run[k].log, run[k].committed, key)
    ensures GroupExact(run[k].db.groups, run[k].log, run[k].committed, key)
  {
    if k > 0 {
      var s, s' := run[k - 1], run[k];
      StepAt(run, limits, k - 1);
      RunKeepsInv(run, limits, k - 1);
      RisingBefore(s, s', limits, key);
      RisingIsExact(run, limits, k - 1, key);
      var action :| StepBy(s, s', limits, action);
      if action.CommittingReads? {
        CommitIsExact(s, s', limits, key);
      } else {
        OthersKeepExact(s, s', limits, action, key);
      }
    }
  }

  /** An id as readers see it: absent, zero and negative ids all mean that nothing was read. */
  predicate SeenAs(messageId: Option<int>, id: int) {
    (messageId == Some(id) && id > 0) || (id == 0 && (messageId == None || messageId.value <= 0))
  }

  /** The committed receipts of `reader` in `group` rise together in sequence, time and message id. */
  ghost predicate ReceiptsRise(s: Consumer, group: int, reader: int) {
    forall i: nat, j: nat, at, at', readSeq, readSeq', messageId, messageId', id, id' ::
      (ReadIn(s, i, group, reader, at, readSeq, messageId) && ReadIn(s, j, group, reader, at', readSeq', messageId')
       && SeenAs(messageId, id) && SeenAs(messageId', id') && readSeq <= readSeq') ==> at <= at' && id <= id'
  }

  lemma ReadIdIsSeen(messageId: Option<int>)
    ensures SeenAs(messageId, ReadId(messageId)) && forall id :: SeenAs(messageId, id) ==> id == ReadId(messageId)
  {
  }

  lemma ReceiptsRiseIsRising(s: Consumer, group: int, reader: int)
    requires ReceiptsRise(s, group, reader)
    ensures Rising(s.log, s.committed, (group, reader))
  {
    forall i, j | i in s.committed && j in s.committed && ReadsGroup(s.log, i, (group, reader)) && ReadsGroup(s.log, j, (group, reader))
      ensures InSeqOrder(EffectAt(s.log, i).group, EffectAt(s.log, j).group)
    {
      var a, b := EffectAt(s.log, i).group, EffectAt(s.log, j).group;
      ReadInIsEffect(s, i, group, reader, a.readAt, a.readSeq, a.messageId);
      ReadInIsEffect(s, j, group, reader, b.readAt, b.readSeq, b.messageId);
      ReadIdIsSeen(a.messageId);
      ReadIdIsSeen(b.messageId);
    }
  }

  /**
   When the committed receipts of a reader in a group rise together, the stored time, sequence and message id
   are those of one that is the furthest, in every run, whatever batches they came in.
   */
  lemma RisingGroupCursorsAre(run: seq<Consumer>, limits: Limits, k: nat, group: int, reader: int,
                              i: nat, at: int, readSeq: int, messageId: Option<int>, id: int)
    requires IsRun(run, limits) && k < |run| && ReceiptsRise(run[k], group, reader)
    requires ReadIn(run[k], i, group, reader, at, readSeq, messageId) && SeenAs(messageId, id)
    ensures (group, reader) in run[k].db.groups
    ensures var row := run[k].db.groups[(group, reader)];
      && at <= row.readAt && readSeq <= row.readSeq && id <= ReadId(row.messageId)
      && ReadAtTime(run[k], group, reader, row.readAt) && ReadAtSeq(run[k], group, reader, row.readSeq)
      && IdIsRead(run[k], group, reader, row.messageId)
  {
    var s, key := run[k], (group, reader);
    GroupCursorsAre(run, limits, k, group, reader);
    ReceiptsRiseIsRising(s, group, reader);
    RisingIsExact(run, limits, k, key);
    ReadInIsEffect(s, i, group, reader, at, readSeq, messageId);
    ReadIdIsSeen(messageId);
    assert ReadAtSeq(s, group, reader, readSeq);
    var row := s.db.groups[key];
    var w :| w in s.committed && ReadsGroup(s.log, w, key) && ReadId(EffectAt(s.log, w).group.messageId) == ReadId(row.messageId);
    var c := EffectAt(s.log, w).group;
    ReadInIsEffect(s, w, group, reader, c.readAt, c.readSeq, c.messageId);
    ReadIdIsSeen(row.messageId);
    ReadIdIsSeen(c.messageId);
  }

  /** What readers see of the stored id is what they see of the id of some committed receipt. */
  ghost predicate IdIsRead(s: Consumer, group: int, reader: int, stored: Option<int>) {
    exists i: nat, at, readSeq, messageId, id ::
      ReadIn(s, i, group, reader, at, readSeq, messageId) && SeenAs(messageId, id) && SeenAs(stored, id)
  }

  // ---------- messages ----------

  /** A committed create of `m` with this code. */
  ghost predicate CreatedBy(s: Consumer, i: nat, m: int, code: int) {
    i in s.committed && i < |s.log| && CreatesMessage(s.log[i].payload, m, code)
  }

  /** A committed create, or a committed recall or delete with a create before it in the stream. */
  ghost predicate CodeOffered(s: Consumer, i: nat, m: int, code: int) {
    || CreatedBy(s, i, m, code)
    || (&& i in s.committed && i < |s.log| && SetsStatus(s.log[i].payload, m, code)
        && exists c: nat, first :: c < i && CreatesMessage(s.log[c].payload, m, first))
  }

  lemma CreatesIsEffect(log: seq<Entry>, i: nat, m: int)
    ensures Creates(log, i, m) <==> i < |log| && exists code :: CreatesMessage(log[i].payload, m, code)
    ensures forall code :: i < |log| && CreatesMessage(log[i].payload, m, code) ==> CodeAt(log, i, m) == code
  {
    if i < |log| {
      CreateEffect(log[i].payload, m, CodeAt(log, i, m));
      forall code | CreatesMessage(log[i].payload, m, code)
        ensures Creates(log, i, m) && CodeAt(log, i, m) == code
      {
        CreateEffect(log[i].payload, m, code);
      }
    }
  }

  lemma ChangesIsEffect(log: seq<Entry>, i: nat, m: int, code: int)
    ensures i < |log| && SetsStatus(log[i].payload, m, code) <==> ChangesStatus(log, i, m) && CodeAt(log, i, m) == code
  {
    if i < |log| {
      StatusEffect(log[i].payload, m, code);
    }
  }

  lemma OfferedIsLanding(s: Consumer, i: nat, m: int, code: int)
    ensures CodeOffered(s, i, m, code) <==> i in s.committed && Lands(s.log, i, m) && CodeAt(s.log, i, m) == code
  {
    CreatesIsEffect(s.log, i, m);
    ChangesIsEffect(s.log, i, m, code);
    forall c: nat
      ensures Creates(s.log, c, m) <==> c < |s.log| && exists first :: CreatesMessage(s.log[c].payload, m, first)
    {
      CreatesIsEffect(s.log, c, m);
    }
  }

  /**
   A message that nothing overtakes is stored exactly when a create of it is committed, with the body and the
   sequence of the create and the greatest code that the committed events offer: 1 to 5 for the statuses from
   sent to deleted, 4 for a recall that names none and 5 for a delete that names none.
   */
  lemma MessagesAre(run: seq<Consumer>, limits: Limits, k: nat, m: int)
    requires IsRun(run, limits) && k < |run| && Sound(run[k], limits, m)
    ensures var s := run[k];
      && (m in s.db.messages <==> exists i: nat, code :: CreatedBy(s, i, m, code))
      && (m in s.db.messages ==>
            && (forall i: nat, code :: CodeOffered(s, i, m, code) ==> code <= s.db.messages[m].status)
            && (exists i: nat :: CodeOffered(s, i, m, s.db.messages[m].status))
            && forall i: nat, code :: CreatedBy(s, i, m, code) ==>
                 && s.db.messages[m].body == s.log[i].payload.event.payload.value.body
                 && s.db.messages[m].conversationSeq == s.log[i].payload.event.payload.value.conversationSeq)
  {
    var s := run[k];
    MessageRowIsExact(run, limits, k, m);
    RunKeepsInv(run, limits, k);
    forall i: nat
      ensures Creates(s.log, i, m) <==> i < |s.log| && exists code :: CreatesMessage(s.log[i].payload, m, code)
      ensures i in s.committed && Creates(s.log, i, m) ==> exists code :: CreatedBy(s, i, m, code)
    {
      CreatesIsEffect(s.log, i, m);
      if i in s.committed && Creates(s.log, i, m) {
        var code :| CreatesMessage(s.log[i].payload, m, code);
        assert CreatedBy(s, i, m, code);
      }
    }
    forall i: nat, code
      ensures CodeOffered(s, i, m, code) <==> i in s.committed && Lands(s.log, i, m) && CodeAt(s.log, i, m) == code
    {
      OfferedIsLanding(s, i, m, code);
    }
    if m in s.db.messages {
      var i :| i in s.committed && Lands(s.log, i, m) && CodeAt(s.log, i, m) == s.db.messages[m].status;
      assert CodeOffered(s, i, m, s.db.messages[m].status);
    }
    forall i: nat, code | CreatedBy(s, i, m, code)
      ensures Creates(s.log, i, m) && s.log[i].payload.event.payload == Some(EffectAt(s.log, i).message)
    {
      CreateEffect(s.log[i].payload, m, code);
    }
  }

  function Afterwards(t: Tables, event: ImEvent): Tables {
    ApplyEffect(t, EffectOf(Json(event)))
  }

  /** Events that name no status of their own. */
  predicate Recalls(event: ImEvent, m: int) {
    event.eventType.MessageRecalled? && event.messageId == Some(m) && event.newStatus == None
  }

  predicate Deletes(event: ImEvent, m: int) {
    event.eventType.MessageDeleted? && event.messageId == Some(m) && event.newStatus == None
  }

  /** A recall leaves a lower status at 4, a delete at 5, and both of them in either order at 5. */
  lemma RecallAndDeleteLeave(t: Tables, recall: ImEvent, delete: ImEvent, m: int)
    requires Recalls(recall, m) && Deletes(delete, m) && m in t.messages
    ensures t.messages[m].status < 4 ==> Afterwards(t, recall).messages[m].status == 4
    ensures t.messages[m].status < 5 ==> Afterwards(t, delete).messages[m].status == 5
    ensures t.messages[m].status < 5 ==>
      && Afterwards(Afterwards(t, recall), delete).messages[m].status == 5
      && Afterwards(Afterwards(t, delete), recall).messages[m].status == 5
    ensures Afterwards(t, recall).messages[m].updatedAt == recall.timestamp
    ensures Afterwards(t, delete).messages[m].updatedAt == delete.timestamp
  {
  }

  /** A create stores the code of its own status: 1 sent, 2 delivered, 3 read, 4 recalled, 5 deleted. */
  lemma CreateStores(t: Tables, event: ImEvent, m: int, code: int)
    requires CreatesMessage(Json(event), m, code) && m !in t.messages
    ensures var r := Afterwards(t, event).messages;
      m in r && r[m] == MessageRow(code, event.payload.value.conversationSeq, event.payload.value.updatedAt, event.payload.value.body)
  {
    CreateEffect(Json(event), m, code);
  }
}
