/**
 Exactly when every run applies each event of a message once: when no recall or delete stands so close before
 the message's first create that a re-read after a crash can apply it to the stored row. For the other half a
 run is built that goes wrong, for any stream in which one does.
 */
module WriterOvertaking {
  import opened Options
  import opened Events
  import opened BackgroundDb
  import opened WriterMachine
  import opened WriterRuns

  // ---------- pieces of runs ----------

  const EMPTY := Consumer([], 0, 0, {}, EMPTY_TABLES, {}, FRESH_MEMORY)

  lemma Take(run: seq<Consumer>, s': Consumer, limits: Limits, action: Action) returns (longer: seq<Consumer>)
    requires IsRun(run, limits) && StepBy(Last(run), s', limits, action)
    ensures IsRun(longer, limits) && run <= longer && Last(longer) == s'
  {
    Extend(run, s', limits);
    longer := run + [s'];
  }

  lemma {:induction false} AppendTo(run: seq<Consumer>, limits: Limits, log: seq<Entry>, n: nat) returns (longer: seq<Consumer>)
    requires IsRun(run, limits) && Last(run).log <= log && |Last(run).log| <= n <= |log| && Last(run).trimmed <= n
    ensures IsRun(longer, limits) && run <= longer && Last(longer) == Last(run).(log := log[..n])
    decreases n - |Last(run).log|
  {
    var s := Last(run);
    var have := |s.log|;
    if have == n {
      longer := run;
    } else {
      RunKeepsInv(run, limits, |run| - 1);
      var next := s.(log := s.log + [log[have]]);
      assert next.log == log[..have + 1];
      longer := Take(run, next, limits, Appending);
      longer := AppendTo(longer, limits, log, n);
    }
  }

  /** The last of the appends removes the head of the stream. */
  lemma AppendTrimming(run: seq<Consumer>, limits: Limits, log: seq<Entry>, n: nat, cut: nat) returns (longer: seq<Consumer>)
    requires IsRun(run, limits) && Last(run).log <= log && |Last(run).log| < n <= |log|
    requires Last(run).trimmed <= cut && cut + limits.maxLen <= n
    ensures IsRun(longer, limits) && run <= longer && Last(longer) == Last(run).(log := log[..n], trimmed := cut)
  {
    RunKeepsInv(run, limits, |run| - 1);
    longer := AppendTo(run, limits, log, n - 1);
    assert log[..n - 1] + [log[n - 1]] == log[..n];
    longer := Take(longer, Last(run).(log := log[..n], trimmed := cut), limits, Appending);
  }

  /** Nothing batched. */
  predicate Bare(m: Memory) {
    m == FRESH_MEMORY.(todo := m.todo, immediateAckIds := m.immediateAckIds, flushedAckIds := m.flushedAckIds)
  }

  function AckedSoon(m: Memory): set<nat> {
    Ids(m.immediateAckIds) + Ids(m.flushedAckIds)
  }

  ghost predicate Has(s: Consumer, ids: seq<nat>, m: int) {
    m in s.db.messages || exists i :: i in ids && Creates(s.log, i, m)
  }

  /** `ids`, the head of the reply, have been handled and flushed. */
  ghost predicate Handled(s: Consumer, s': Consumer, ids: seq<nat>, m: int) {
    && s' == s.(db := s'.db, committed := s'.committed, memory := s'.memory)
    && Bare(s'.memory) && s.memory.todo == ids + s'.memory.todo
    && (forall i :: i in s'.committed ==> i in s.committed || i in ids)
    && (forall i :: i in s.committed || (i in ids && Effectful(EffectAt(s.log, i))) ==> i in s'.committed)
    && (forall i :: i in AckedSoon(s.memory) || (i in ids && !EffectAt(s.log, i).Malformed?) ==> i in AckedSoon(s'.memory))
    && (Has(s, ids, m) ==> m in s'.db.messages)
  }

  /** The head of the reply, a create, batched and stored. */
  function InsertBatched(s: Consumer, message: Message): Consumer
    requires s.memory.todo != []
  {
    s.(memory := s.memory.(todo := s.memory.todo[1..], messageBatch := [message], messageAckIds := [s.memory.todo[0]]))
  }

  function InsertStored(s: Consumer, message: Message): Consumer
    requires s.memory.todo != []
  {
    InsertBatched(s, message).(
      db := s.db.(messages := InsertMessage(s.db.messages, message)), committed := s.committed + {s.memory.todo[0]})
  }

  lemma InsertIsHandled(s: Consumer, message: Message, m: int)
    requires Bare(s.memory) && s.memory.todo != [] && EffectAt(s.log, s.memory.todo[0]) == Insert(message)
    ensures var stored := InsertStored(s, message); Handled(s, stored.(memory := ClearedMessages(stored.memory)), [s.memory.todo[0]], m)
  {
    assert s.memory.todo == [s.memory.todo[0]] + s.memory.todo[1..];
  }

  lemma InsertOne(t: Messages, message: Message)
    ensures InsertMessages(t, [message]) == InsertMessage(t, message)
  {
    assert [message][..0] == [];
  }

  lemma InsertSteps(s: Consumer, message: Message)
    requires Bare(s.memory) && s.memory.todo != [] && EffectAt(s.log, s.memory.todo[0]) == Insert(message)
    ensures Process(s, InsertBatched(s, message)) && CommitMessages(InsertBatched(s, message), InsertStored(s, message))
    ensures Ids(InsertStored(s, message).memory.messageAckIds) <= InsertStored(s, message).committed
  {
    InsertOne(s.db.messages, message);
    assert Ids([s.memory.todo[0]]) == {s.memory.todo[0]};
  }

  lemma HandleInsert(run: seq<Consumer>, limits: Limits, m: int) returns (longer: seq<Consumer>)
    requires IsRun(run, limits) && Bare(Last(run).memory) && Last(run).memory.todo != []
    requires EffectAt(Last(run).log, Last(run).memory.todo[0]).Insert?
    ensures IsRun(longer, limits) && run <= longer && Handled(Last(run), Last(longer), [Last(run).memory.todo[0]], m)
  {
    var s, message := Last(run), EffectAt(Last(run).log, Last(run).memory.todo[0]).message;
    var stored := InsertStored(s, message);
    InsertSteps(s, message);
    longer := Take(run, InsertBatched(s, message), limits, Processing);
    longer := Take(longer, stored, limits, CommittingMessages);
    longer := Take(longer, stored.(memory := ClearedMessages(stored.memory)), limits, ClearingMessages);
    InsertIsHandled(s, message, m);
  }

  predicate AtRead(s: Consumer) {
    s.memory.todo != [] && (EffectAt(s.log, s.memory.todo[0]).ReadPrivate? || EffectAt(s.log, s.memory.todo[0]).ReadGroup?)
  }

  /** The head of the reply batched, stored and flushed. */
  function ReadBatched(s: Consumer): Memory
    requires AtRead(s)
  {
    Enqueue(s.memory.(todo := s.memory.todo[1..]), s.memory.todo[0], EffectAt(s.log, s.memory.todo[0]))
  }

  function ReadStored(s: Consumer): Consumer
    requires AtRead(s)
  {
    var memory := ReadBatched(s);
    s.(db := s.db.(
         privates := UpsertPrivateMap(s.db.privates, CoalescePrivate(memory.privateReadBatch)),
         groups := UpsertGroupMap(s.db.groups, CoalesceGroup(memory.groupReadBatch))),
       committed := s.committed + {s.memory.todo[0]},
       memory := memory)
  }

  lemma ReadFlushed(s: Consumer)
    requires Bare(s.memory) && AtRead(s)
    ensures ClearedReads(ReadBatched(s))
      == s.memory.(todo := s.memory.todo[1..], flushedAckIds := s.memory.flushedAckIds + [s.memory.todo[0]])
  {
    var id := s.memory.todo[0];
    assert s.memory.flushedAckIds + [id] + [] == s.memory.flushedAckIds + [id];
    assert s.memory.flushedAckIds + [] + [id] == s.memory.flushedAckIds + [id];
  }

  lemma ReadIsHandled(s: Consumer, s': Consumer, m: int)
    requires Bare(s.memory) && AtRead(s)
    requires s' == s.(db := s'.db, committed := s.committed + {s.memory.todo[0]}, memory := s'.memory)
    requires s'.db.messages == s.db.messages
    requires s'.memory == s.memory.(todo := s.memory.todo[1..], flushedAckIds := s.memory.flushedAckIds + [s.memory.todo[0]])
    ensures Handled(s, s', [s.memory.todo[0]], m)
  {
    assert s.memory.todo == [s.memory.todo[0]] + s.memory.todo[1..];
  }

  lemma HandleRead(run: seq<Consumer>, limits: Limits, m: int) returns (longer: seq<Consumer>)
    requires IsRun(run, limits) && Bare(Last(run).memory) && AtRead(Last(run))
    ensures IsRun(longer, limits) && run <= longer && Handled(Last(run), Last(longer), [Last(run).memory.todo[0]], m)
  {
    var s, id := Last(run), Last(run).memory.todo[0];
    longer := Take(run, s.(memory := ReadBatched(s)), limits, Processing);
    assert ReadIds(ReadBatched(s)) == [id] && Ids([id]) == {id};
    longer := Take(longer, ReadStored(s), limits, CommittingReads);
    longer := Take(longer, ReadStored(s).(memory := ClearedReads(ReadBatched(s))), limits, ClearingReads);
    ReadFlushed(s);
    ReadIsHandled(s, Last(longer), m);
  }

  lemma HandleOther(run: seq<Consumer>, limits: Limits, m: int) returns (longer: seq<Consumer>)
    requires IsRun(run, limits) && Bare(Last(run).memory) && Last(run).memory.todo != []
    requires var effect := EffectAt(Last(run).log, Last(run).memory.todo[0]);
      effect.SetStatus? || effect.Nothing? || effect.Malformed?
    ensures IsRun(longer, limits) && run <= longer && Handled(Last(run), Last(longer), [Last(run).memory.todo[0]], m)
  {
    var s, id, effect := Last(run), Last(run).memory.todo[0], EffectAt(Last(run).log, Last(run).memory.todo[0]);
    var applied := s;
    longer := run;
    if effect.SetStatus? {
      applied := s.(
        db := s.db.(messages := UpdateStatus(s.db.messages, effect.id, effect.code, effect.at)),
        committed := s.committed + {id});
      longer := Take(longer, applied, limits, ApplyingStatus);
    }
    var done := applied.(memory := Enqueue(s.memory.(todo := s.memory.todo[1..]), id, effect));
    longer := Take(longer, done, limits, Processing);
  }

  lemma HandledThen(s: Consumer, s1: Consumer, s2: Consumer, a: seq<nat>, b: seq<nat>, m: int)
    requires Handled(s, s1, a, m) && Handled(s1, s2, b, m)
    ensures Handled(s, s2, a + b, m)
  {
  }

  lemma {:induction false} HandleMany(run: seq<Consumer>, limits: Limits, n: nat, m: int) returns (longer: seq<Consumer>)
    requires IsRun(run, limits) && Bare(Last(run).memory) && n <= |Last(run).memory.todo|
    ensures IsRun(longer, limits) && run <= longer && Handled(Last(run), Last(longer), Last(run).memory.todo[..n], m)
    decreases n
  {
    var s := Last(run);
    longer := run;
    if n > 0 {
      var effect := EffectAt(s.log, s.memory.todo[0]);
      if effect.Insert? {
        longer := HandleInsert(run, limits, m);
      } else if effect.ReadPrivate? || effect.ReadGroup? {
        longer := HandleRead(run, limits, m);
      } else {
        longer := HandleOther(run, limits, m);
      }
      var next := Last(longer);
      longer := HandleMany(longer, limits, n - 1, m);
      HandledThen(s, next, Last(longer), [s.memory.todo[0]], next.memory.todo[..n - 1], m);
      assert s.memory.todo[..n] == [s.memory.todo[0]] + next.memory.todo[..n - 1];
    }
  }

  // ---------- reaching a reply that starts anywhere ----------

  /** Everything below `b` delivered and acknowledged or trimmed, and the stream no longer than that took. */
  ghost predicate Quiet(s: Consumer, log: seq<Entry>, limits: Limits, b: nat) {
    && s.log <= log && s.delivered == b && s.trimmed <= b && s.pel == {}
    && s.memory == FRESH_MEMORY
    && (forall i :: i in s.committed ==> i < b)
    && (|s.log| <= b + 1 || |s.log| <= s.trimmed + limits.maxLen)
  }

  /** Entries never acknowledged below `b` can all be trimmed by the time the stream is as long as `log`. */
  ghost predicate Passable(log: seq<Entry>, limits: Limits, b: nat) {
    forall e: nat :: e < b && EffectAt(log, e).Malformed? ==> e + 1 + limits.maxLen <= |log|
  }

  lemma {:induction false} LargestOf(ids: set<nat>) returns (e: nat)
    requires ids != {}
    ensures e in ids && forall i :: i in ids ==> i <= e
  {
    e :| e in ids;
    if ids != {e} {
      var rest := LargestOf(ids - {e});
      assert forall i :: i in ids ==> i == e || i in ids - {e};
      if rest > e {
        e := rest;
      }
    }
  }

  /** A new reply, from `b` up to `end`. */
  lemma ReadReply(run: seq<Consumer>, limits: Limits, b: nat, end: nat) returns (longer: seq<Consumer>)
    requires IsRun(run, limits) && Last(run).delivered == b && Last(run).trimmed <= b && Last(run).pel == {}
    requires Last(run).memory == FRESH_MEMORY && b < |Last(run).log|
    requires end == if b + limits.count <= |Last(run).log| then b + limits.count else |Last(run).log|
    ensures IsRun(longer, limits) && run <= longer
    ensures Last(longer) == Last(run).(delivered := end, pel := Ids(Span(b, end)), memory := FRESH_MEMORY.(todo := Span(b, end)))
  {
    longer := Take(run, Last(run).(delivered := end, pel := Ids(Span(b, end)), memory := FRESH_MEMORY.(todo := Span(b, end))), limits, ReadingNew);
  }

  /** Both acknowledgements, and a restart. */
  lemma Acknowledge(run: seq<Consumer>, limits: Limits) returns (longer: seq<Consumer>)
    requires IsRun(run, limits) && Last(run).memory.todo == []
    ensures IsRun(longer, limits) && run <= longer
    ensures Last(longer) == Last(run).(pel := Last(run).pel - AckedSoon(Last(run).memory), memory := FRESH_MEMORY)
  {
    var s := Last(run);
    var first := s.(pel := s.pel - Ids(s.memory.immediateAckIds), memory := s.memory.(immediateAckIds := []));
    longer := Take(run, first, limits, AckingImmediate);
    var second := first.(pel := first.pel - Ids(s.memory.flushedAckIds), memory := first.memory.(flushedAckIds := []));
    longer := Take(longer, second, limits, AckingFlushed);
    longer := Take(longer, second.(memory := FRESH_MEMORY), limits, Crashing);
    assert Last(longer).pel == s.pel - AckedSoon(s.memory);
  }

  /** Whatever is left pending is never acknowledged; it is trimmed away. */
  lemma TrimPending(run: seq<Consumer>, limits: Limits, log: seq<Entry>, b: nat) returns (longer: seq<Consumer>)
    requires IsRun(run, limits) && Last(run).log <= log && |Last(run).log| < |log| && Last(run).trimmed <= b
    requires Last(run).pel != {} && forall e :: e in Last(run).pel ==> Last(run).trimmed <= e < b && e + 1 + limits.maxLen <= |log|
    requires |Last(run).log| <= b || |Last(run).log| <= Last(run).trimmed + limits.maxLen
    ensures IsRun(longer, limits) && run <= longer && Last(longer).log <= log && Last(longer).trimmed <= b
    ensures Last(longer) == Last(run).(log := Last(longer).log, trimmed := Last(longer).trimmed, pel := {})
    ensures |Last(longer).log| <= b + 1 || |Last(longer).log| <= Last(longer).trimmed + limits.maxLen
  {
    var s := Last(run);
    var e := LargestOf(s.pel);
    var n := if |s.log| + 1 >= e + 1 + limits.maxLen then |s.log| + 1 else e + 1 + limits.maxLen;
    longer := AppendTrimming(run, limits, log, n, e + 1);
    longer := Take(longer, Last(longer).(pel := {}), limits, AckingStale);
  }

  ghost predicate NextBoundary(s: Consumer, limits: Limits, b: nat, b': nat) {
    b < b' && (b' == b + limits.count || (b' <= b + limits.count && |s.log| <= b'))
  }

  /** From one boundary between replies to the next. */
  lemma Drain(run: seq<Consumer>, limits: Limits, log: seq<Entry>, b: nat, b': nat, m: int) returns (longer: seq<Consumer>)
    requires IsRun(run, limits) && Quiet(Last(run), log, limits, b)
    requires NextBoundary(Last(run), limits, b, b') && b' < |log| && Passable(log, limits, b')
    ensures IsRun(longer, limits) && run <= longer && Quiet(Last(longer), log, limits, b')
  {
    var s := Last(run);
    var n := if |s.log| >= b' then |s.log| else b';
    longer := AppendTo(run, limits, log, n);
    longer := ReadReply(longer, limits, b, b');
    var reply := Last(longer);
    assert reply.memory.todo[..b' - b] == reply.memory.todo;
    longer := HandleMany(longer, limits, b' - b, m);
    longer := Acknowledge(longer, limits);
    PendingIsMalformed(reply, Last(longer), log, b, b');
    if Last(longer).pel != {} {
      longer := TrimPending(longer, limits, log, b');
    }
  }

  lemma PendingIsMalformed(reply: Consumer, s: Consumer, log: seq<Entry>, b: nat, b': nat)
    requires b <= b' && reply.log <= log && reply.pel == Ids(Span(b, b'))
    requires s.pel <= reply.pel && forall i :: i in Span(b, b') && !EffectAt(reply.log, i).Malformed? ==> i !in s.pel
    ensures forall e :: e in s.pel ==> b <= e < b' && EffectAt(log, e).Malformed?
  {
  }

  lemma {:induction false} ReachQuiet(limits: Limits, log: seq<Entry>, b: nat, m: int) returns (run: seq<Consumer>)
    requires limits.Valid() && b < |log| && Passable(log, limits, b)
    ensures IsRun(run, limits) && Quiet(Last(run), log, limits, b)
    decreases b
  {
    if b <= limits.count {
      run := [EMPTY];
      assert IsRun(run, limits);
      if b > 0 {
        run := Drain(run, limits, log, 0, b, m);
      }
    } else {
      run := ReachQuiet(limits, log, b - limits.count, m);
      run := Drain(run, limits, log, b - limits.count, b, m);
    }
  }

  // ---------- the run that goes wrong ----------

  /** From a boundary on, the whole stream is there, and the reply up to `end` is handled as far as `j`. */
  lemma HandleUpTo(limits: Limits, log: seq<Entry>, b: nat, end: nat, j: nat, m: int) returns (run: seq<Consumer>)
    requires limits.Valid() && Passable(log, limits, b) && b <= j < end && Creates(log, j, m)
    requires end == if b + limits.count <= |log| then b + limits.count else |log|
    ensures IsRun(run, limits)
    ensures var s := Last(run);
      && s.log == log && s.trimmed <= b && s.delivered == end && s.pel == Ids(Span(b, end)) && Bare(s.memory)
      && (forall i :: i in s.committed ==> i <= j) && j in s.committed && m in s.db.messages
  {
    run := ReachQuiet(limits, log, b, m);
    run := AppendTo(run, limits, log, |log|);
    assert log[..|log|] == log;
    run := ReadReply(run, limits, b, end);
    var ids := Span(b, end)[..j - b + 1];
    assert ids[j - b] == j;
    assert Has(Last(run), ids, m) by {
      assert j in ids && Creates(Last(run).log, j, m);
    }
    run := HandleMany(run, limits, j - b + 1, m);
  }

  lemma {:induction false} SpanIsReady(b: nat, end: nat, trimmed: nat)
    requires trimmed <= b <= end
    ensures Ready(Span(b, end), trimmed) == Span(b, end)
    decreases end
  {
    if b < end {
      assert Span(b, end)[..end - b - 1] == Span(b, end - 1);
      SpanIsReady(b, end - 1, trimmed);
    }
  }

  /** After a restart the same reply is read again. */
  lemma ReadAgain(run: seq<Consumer>, limits: Limits, b: nat, end: nat) returns (longer: seq<Consumer>)
    requires IsRun(run, limits) && Last(run).trimmed <= b < end <= b + limits.count && Last(run).pel == Ids(Span(b, end))
    ensures IsRun(longer, limits) && run <= longer && Last(longer) == Last(run).(memory := FRESH_MEMORY.(todo := Span(b, end)))
  {
    var start := Last(run).(memory := FRESH_MEMORY);
    longer := Take(run, start, limits, Crashing);
    SpanIsReady(b, end, start.trimmed);
    longer := Take(longer, start.(memory := FRESH_MEMORY.(todo := Span(b, end))), limits, ReadingPending(Span(b, end)));
  }

  /** The reply is handled again, as far as the change of status at `p`. */
  lemma HandleAgain(run: seq<Consumer>, limits: Limits, b: nat, end: nat, p: nat, m: int) returns (longer: seq<Consumer>)
    requires IsRun(run, limits) && b <= p < end && Last(run).memory == FRESH_MEMORY.(todo := Span(b, end))
    requires m in Last(run).db.messages && ChangesStatus(Last(run).log, p, m)
    ensures IsRun(longer, limits) && run <= longer && Last(longer).log == Last(run).log && Last(longer).trimmed == Last(run).trimmed
    ensures forall i :: i in Last(longer).committed ==> i in Last(run).committed || i <= p
    ensures forall i :: i in Last(run).committed ==> i in Last(longer).committed
    ensures m in Last(longer).db.messages && CodeAt(Last(run).log, p, m) <= Last(longer).db.messages[m].status
  {
    longer := HandleMany(run, limits, p - b, m);
    var s, head := Last(longer), Span(b, end)[..p - b];
    assert (head + s.memory.todo)[p - b] == p;
    assert s.memory.todo[0] == p;
    var effect := EffectAt(s.log, p);
    var applied := s.(
      db := s.db.(messages := UpdateStatus(s.db.messages, effect.id, effect.code, effect.at)),
      committed := s.committed + {p});
    longer := Take(longer, applied, limits, ApplyingStatus);
  }

  /** In stream order, what stands up to the first create leaves the status that the create gives. */
  lemma {:induction false} InOrderBefore(log: seq<Entry>, entries: set<nat>, n: nat, m: int)
    requires forall i: nat :: i < n ==> !Creates(log, i, m)
    ensures m !in InOrder(log, entries, n).messages
  {
    if n > 0 {
      InOrderBefore(log, entries, n - 1, m);
      assert !Creates(log, n - 1, m);
    }
  }

  lemma {:induction false} InOrderAtCreate(log: seq<Entry>, entries: set<nat>, n: nat, j: nat, m: int)
    requires FirstCreate(log, j, m) && j in entries && (forall i :: i in entries ==> i <= j) && n > j
    ensures m in InOrder(log, entries, n).messages && InOrder(log, entries, n).messages[m].status == CodeAt(log, j, m)
  {
    if n == j + 1 {
      InOrderBefore(log, entries, j, m);
    } else {
      InOrderAtCreate(log, entries, n - 1, j, m);
    }
  }

  /** A change of status that overtakes the create is applied to the stored row by a run that loses nothing of the message. */
  lemma OvertakenRun(limits: Limits, log: seq<Entry>, p: nat, j: nat, m: int) returns (run: seq<Consumer>)
    requires limits.Valid() && Overtakes(log, limits, p, j, m)
    ensures IsRun(run, limits) && Last(run).log == log && NoCreateLost(Last(run), m) && !AppliedOnce(Last(run), m)
  {
    var b := if j + 1 >= limits.count then j + 1 - limits.count else 0;
    var end := if b + limits.count <= |log| then b + limits.count else |log|;
    run := HandleUpTo(limits, log, b, end, j, m);
    run := ReadAgain(run, limits, b, end);
    run := HandleAgain(run, limits, b, end, p, m);
    InOrderAtCreate(log, Last(run).committed, |log|, j, m);
  }

  // ---------- the exact condition ----------

  ghost predicate AppliedOnceThroughout(run: seq<Consumer>, m: int) {
    forall k :: 0 <= k < |run| ==> AppliedOnce(run[k], m)
  }

  /** In every run on this stream that loses no create of the message. */
  ghost predicate AlwaysAppliedOnce(log: seq<Entry>, limits: Limits, m: int) {
    forall run: seq<Consumer> ::
      IsRun(run, limits) && Last(run).log == log && NoCreateLost(Last(run), m) ==> AppliedOnceThroughout(run, m)
  }

  lemma {:induction false} SoundThroughout(run: seq<Consumer>, limits: Limits, k: nat, m: int)
    requires IsRun(run, limits) && k < |run| && Sound(Last(run), limits, m)
    ensures Sound(run[k], limits, m)
    decreases |run| - k
  {
    if k + 1 < |run| {
      SoundThroughout(run, limits, k + 1, m);
      StepAt(run, limits, k);
      RunKeepsInv(run, limits, k);
      SoundBefore(run[k], run[k + 1], limits, m);
    }
  }

  /**
   For a stream with one create event of a message: every run on it that loses no copy of the create applies
   each committed event once, in order, at every moment, exactly when no change of status stands before the
   first create, within one reply of it that can be read, with a code above the create's.
   */
  lemma AppliedOnceIff(log: seq<Entry>, limits: Limits, m: int)
    requires limits.Valid() && OneCreateEvent(log, m)
    ensures AlwaysAppliedOnce(log, limits, m) <==> NoneOvertakes(log, limits, m)
  {
    if NoneOvertakes(log, limits, m) {
      forall run: seq<Consumer> | IsRun(run, limits) && Last(run).log == log && NoCreateLost(Last(run), m)
        ensures AppliedOnceThroughout(run, m)
      {
        forall k | 0 <= k < |run|
          ensures AppliedOnce(run[k], m)
        {
          SoundThroughout(run, limits, k, m);
          MessagesAppliedOnceInOrder(run, limits, k, m);
        }
      }
    } else {
      var p: nat, j: nat :| Overtakes(log, limits, p, j, m);
      var run := OvertakenRun(limits, log, p, j, m);
      assert !AppliedOnce(run[|run| - 1], m);
    }
  }

  // ---------- the shortest such stream ----------

  const RECALL := Json(ImEvent(EventId("r"), MessageRecalled, Some(7), false, None, None, None, None, None, 20))
  const CREATED := Message(Some(7), Sent, None, false, 10, "hello")
  const CREATE := Json(ImEvent(EventId("c"), MessageCreated, Some(7), false, None, None, None, Some(CREATED), None, 10))
  const STREAM := [Entry(EventId("r"), RECALL), Entry(EventId("c"), CREATE)]

  /** A recall appended just before its message, and replies of two entries: nothing is lost, and the message ends up recalled by a re-read. */
  lemma RecallBeforeCreateIsNotAppliedOnce()
    ensures exists run :: IsRun(run, Limits(2, 1000)) && Last(run).log == STREAM && NoCreateLost(Last(run), 7) && !AppliedOnce(Last(run), 7)
  {
    assert Overtakes(STREAM, Limits(2, 1000), 0, 1, 7);
    var run := OvertakenRun(Limits(2, 1000), STREAM, 0, 1, 7);
  }
}
