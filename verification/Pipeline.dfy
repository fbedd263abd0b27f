/**
 The outbox, the two streams and their writers put together: what holds from the moment a producer enqueues
 an event to the moment its effect is in the tables, over every interleaving and every crash.
 */
module Pipeline {
  import opened Options
  import opened Events
  import opened BackgroundDb
  import opened WriterMachine
  import opened WriterRuns
  import Outbox

  /** Each stream's consumer carries the table rows that its own events touch. */
  datatype System = System(outbox: Outbox.State, private: Consumer, group: Consumer)

  function ConsumerOf(s: System, kind: Outbox.Kind): Consumer {
    if kind.PrivateStream? then s.private else s.group
  }

  /** The consumer's stream is the publishers' stream: it takes each append, with whatever trimming comes with it. */
  ghost predicate Follows(c: Consumer, c': Consumer, log: seq<Entry>, limits: Limits) {
    c'.log == log && (c' == c || Append(c, c', limits))
  }

  ghost predicate WriterStep(c: Consumer, c': Consumer, limits: Limits) {
    exists action: Action :: !action.Appending? && StepBy(c, c', limits, action)
  }

  ghost predicate SystemStep(s: System, s': System, limits: Limits) {
    || (&& Outbox.Step(s.outbox, s'.outbox)
        && Follows(s.private, s'.private, s'.outbox.privateLog, limits)
        && Follows(s.group, s'.group, s'.outbox.groupLog, limits))
    || (s'.outbox == s.outbox && s'.group == s.group && WriterStep(s.private, s'.private, limits))
    || (s'.outbox == s.outbox && s'.private == s.private && WriterStep(s.group, s'.group, limits))
  }

  function NthSystem(run: seq<System>, k: nat): System
    requires k < |run|
  {
    run[k]
  }

  ghost predicate IsSystemRun(run: seq<System>, limits: Limits) {
    && limits.Valid()
    && run != []
    && run[0].outbox == Outbox.EMPTY_OUTBOX && IsInitial(run[0].private) && IsInitial(run[0].group)
    && forall k: nat {:trigger NthSystem(run, k)} :: k < |run| - 1 ==>
         SystemStep(NthSystem(run, k), NthSystem(run, k + 1), limits)
  }

  function OutboxRun(run: seq<System>): (states: seq<Outbox.State>)
    ensures |states| == |run| && forall k :: 0 <= k < |run| ==> states[k] == run[k].outbox
  {
    seq(|run|, k requires 0 <= k < |run| => run[k].outbox)
  }

  function ConsumerRun(run: seq<System>, kind: Outbox.Kind): (states: seq<Consumer>)
    ensures |states| == |run| && forall k :: 0 <= k < |run| ==> states[k] == ConsumerOf(run[k], kind)
  {
    seq(|run|, k requires 0 <= k < |run| => ConsumerOf(run[k], kind))
  }

  lemma FollowingIsStep(c: Consumer, c': Consumer, log: seq<Entry>, limits: Limits)
    requires Follows(c, c', log, limits)
    ensures Step(c, c', limits)
  {
    assert if c' == c then StepBy(c, c', limits, Stutter) else StepBy(c, c', limits, Appending);
  }

  lemma StepOfConsumer(s: System, s': System, limits: Limits, kind: Outbox.Kind)
    requires SystemStep(s, s', limits)
    ensures Step(ConsumerOf(s, kind), ConsumerOf(s', kind), limits)
  {
    var c, c' := ConsumerOf(s, kind), ConsumerOf(s', kind);
    if Follows(c, c', Outbox.LogOf(s'.outbox, kind), limits) {
      FollowingIsStep(c, c', Outbox.LogOf(s'.outbox, kind), limits);
    } else if c' == c {
      assert StepBy(c, c', limits, Stutter);
    } else {
      var action: Action :| !action.Appending? && StepBy(c, c', limits, action);
    }
  }

  /** Seen from its own stream, a run of the whole system is a run of the writer's machine. */
  lemma ConsumerRunIsRun(run: seq<System>, limits: Limits, kind: Outbox.Kind)
    requires IsSystemRun(run, limits)
    ensures IsRun(ConsumerRun(run, kind), limits)
  {
    var states := ConsumerRun(run, kind);
    forall k: nat | k < |states| - 1
      ensures Step(Nth(states, k), Nth(states, k + 1), limits)
    {
      assert SystemStep(NthSystem(run, k), NthSystem(run, k + 1), limits);
      StepOfConsumer(run[k], run[k + 1], limits, kind);
    }
  }

  lemma OutboxRunIsRun(run: seq<System>, limits: Limits)
    requires IsSystemRun(run, limits)
    ensures Outbox.IsRun(OutboxRun(run))
  {
    var states := OutboxRun(run);
    forall k: nat | k < |states| - 1
      ensures Outbox.Step(Outbox.Nth(states, k), Outbox.Nth(states, k + 1))
    {
      assert SystemStep(NthSystem(run, k), NthSystem(run, k + 1), limits);
    }
  }

  lemma WriterKeepsLog(c: Consumer, c': Consumer, limits: Limits)
    requires WriterStep(c, c', limits)
    ensures c'.log == c.log
  {
  }

  /** The consumer reads exactly what the publishers appended. */
  lemma {:induction false} StreamsAgree(run: seq<System>, limits: Limits, k: nat)
    requires IsSystemRun(run, limits) && k < |run|
    ensures run[k].private.log == run[k].outbox.privateLog && run[k].group.log == run[k].outbox.groupLog
  {
    if k > 0 {
      StreamsAgree(run, limits, k - 1);
      var s, s' := NthSystem(run, k - 1), NthSystem(run, k - 1 + 1);
      assert SystemStep(s, s', limits);
      if s'.outbox == s.outbox && s'.group == s.group && WriterStep(s.private, s'.private, limits) {
        WriterKeepsLog(s.private, s'.private, limits);
      } else if s'.outbox == s.outbox && s'.private == s.private && WriterStep(s.group, s'.group, limits) {
        WriterKeepsLog(s.group, s'.group, limits);
      }
    }
  }

  // ---------- no event is lost ----------

  ghost predicate InOutbox(s: System, id: EventId) {
    && id in s.outbox.born && id in s.outbox.pending && id in s.outbox.payloads
    && s.outbox.payloads[id] == s.outbox.born[id].payload
  }

  /** Applied, or readable again, or removed by MAXLEN; nothing else can become of an effect in the stream. */
  predicate Accounted(c: Consumer, at: nat) {
    || at in c.committed
    || (c.trimmed <= at && (c.delivered <= at || at in c.pel))
    || at < c.trimmed
  }

  /**
   No event is lost: at every moment of every run, an enqueued event is whole in the outbox, or stands in the
   stream of its kind as an entry whose effect is applied, is still to be read or re-read, or was trimmed.
   */
  lemma NoEventLost(run: seq<System>, limits: Limits, k: nat, id: EventId)
    requires IsSystemRun(run, limits) && k < |run| && Outbox.Enqueued(run[k].outbox, id)
    ensures var payload := run[k].outbox.born[id].payload;
      var c := ConsumerOf(run[k], Outbox.KindOf(payload.event));
      || InOutbox(run[k], id)
      || exists at: nat :: at < |c.log| && c.log[at] == Entry(id, payload)
           && (Effectful(EffectAt(c.log, at)) ==> Accounted(c, at))
  {
    OutboxRunIsRun(run, limits);
    Outbox.EnqueuedIsKept(OutboxRun(run), k, id);
    StreamsAgree(run, limits, k);
    if !InOutbox(run[k], id) {
      var payload := run[k].outbox.born[id].payload;
      var kind := Outbox.KindOf(payload.event);
      var c := ConsumerOf(run[k], kind);
      var at: nat :| at < |c.log| && c.log[at] == Entry(id, payload);
      if Effectful(EffectAt(c.log, at)) {
        ConsumerRunIsRun(run, limits, kind);
        NoEntryForgotten(ConsumerRun(run, kind), limits, k, at);
      }
    }
  }

  // ---------- exactly once, end to end ----------

  predicate BirthCreates(birth: Outbox.Birth, m: int) {
    var effect := EffectOf(birth.payload);
    effect.Insert? && StoresAs(effect.message, m)
  }

  predicate BirthChangesStatus(birth: Outbox.Birth, m: int) {
    var effect := EffectOf(birth.payload);
    effect.SetStatus? && effect.id == m
  }

  /**
   `create` is the one create event of message `m`, and every recall or delete of `m` was enqueued after it and
   sorted behind it, in the same hot Redis and for the same stream.
   */
  ghost predicate EnqueuedInOrder(born: map<EventId, Outbox.Birth>, m: int, create: EventId) {
    && create in born && BirthCreates(born[create], m)
    && (forall id :: id in born && BirthCreates(born[id], m) ==> id == create)
    && (forall id :: id in born && BirthChangesStatus(born[id], m) ==> Outbox.Before(born, create, id))
  }

  /** The order of the pending set alone keeps the stream well formed for `m`, however many publishers race and however often they repeat themselves. */
  lemma ScoresOrderTheStream(run: seq<System>, limits: Limits, k: nat, kind: Outbox.Kind, m: int, create: EventId)
    requires IsSystemRun(run, limits) && k < |run|
    requires EnqueuedInOrder(run[k].outbox.born, m, create)
    ensures OneCreateEvent(ConsumerOf(run[k], kind).log, m) && CreatedFirst(ConsumerOf(run[k], kind).log, m)
  {
    OutboxRunIsRun(run, limits);
    StreamsAgree(run, limits, k);
    var outboxes, born, log := OutboxRun(run), run[k].outbox.born, ConsumerOf(run[k], kind).log;
    forall at: nat | at < |log|
      ensures log[at].eventId in born && born[log[at].eventId].payload == log[at].payload
    {
      Outbox.StreamHoldsOnlyBirths(outboxes, k, kind, at);
    }
    forall i: nat | Creates(log, i, m)
      ensures log[i].eventId == create
    {
      assert BirthCreates(born[log[i].eventId], m);
    }
    forall p: nat, j: nat | ChangesStatus(log, p, m) && Creates(log, j, m)
      ensures exists i: nat :: i < p && Creates(log, i, m)
    {
      assert BirthChangesStatus(born[log[p].eventId], m);
      Outbox.FirstAppendsFollowScores(outboxes, k, kind, create, log[p].eventId, p);
      var i: nat :| i < p && log[i].eventId == create;
      assert Creates(log, i, m);
    }
  }

  /**
   From producer to table: for a message enqueued before its recalls and deletes, and of which MAXLEN removed
   no copy in time, the stored row is at every moment the one that the committed events give when each is
   applied once in stream order, and its status is the greatest among them.
   */
  lemma MessageAppliedOnceEndToEnd(run: seq<System>, limits: Limits, k: nat, kind: Outbox.Kind, m: int, create: EventId)
    requires IsSystemRun(run, limits) && k < |run|
    requires EnqueuedInOrder(run[k].outbox.born, m, create) && NoCreateLost(ConsumerOf(run[k], kind), m)
    ensures var c := ConsumerOf(run[k], kind);
      && AppliedOnce(c, m)
      && RowReflects(c.db.messages, c.log, c.committed, m)
  {
    ScoresOrderTheStream(run, limits, k, kind, m, create);
    ConsumerRunIsRun(run, limits, kind);
    CreatedFirstNeverOvertaken(ConsumerOf(run[k], kind).log, limits, m);
    assert Sound(ConsumerRun(run, kind)[k], limits, m);
    MessagesAppliedOnceInOrder(ConsumerRun(run, kind), limits, k, m);
    MessageRowIsExact(ConsumerRun(run, kind), limits, k, m);
  }
}
