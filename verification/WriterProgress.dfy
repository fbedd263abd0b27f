/**
 When delivery goes on: an entry that is never acknowledged stops the stream, and nothing else does, whatever
 is pending, batched or trimmed.
 */
module WriterProgress {
  import opened Options
  import opened Events
  import opened BackgroundDb
  import opened WriterMachine
  import opened WriterRuns
  import opened WriterOvertaking

  // ---------- going on ----------

  predicate Waiting(s: Consumer) {
    Max(s.delivered, s.trimmed) < |s.log|
  }

  ghost predicate NoneBlocked(s: Consumer) {
    forall id: nat :: !Blocked(s, id)
  }

  /** Some continuation hands on more of the stream as it is. */
  ghost predicate CanDeliver(run: seq<Consumer>, limits: Limits)
    requires run != []
  {
    exists longer: seq<Consumer> :: run <= longer && DeliversMore(Last(run), longer, limits)
  }

  ghost predicate DeliversMore(s: Consumer, longer: seq<Consumer>, limits: Limits) {
    && IsRun(longer, limits)
    && Last(longer).log == s.log && Last(longer).trimmed == s.trimmed && s.delivered < Last(longer).delivered
  }

  // ---------- emptying the pending list ----------

  lemma {:induction false} Listed(ids: set<nat>) returns (list: seq<nat>)
    ensures Ascending(list) && |list| == |ids| && forall id :: id in list <==> id in ids
  {
    list := [];
    if ids != {} {
      var e := LargestOf(ids);
      var init := Listed(ids - {e});
      list := init + [e];
      forall k | 0 <= k < |init|
        ensures init[k] < e
      {
        assert init[k] in init;
      }
    }
  }

  lemma {:induction false} NothingTrimmed(ids: seq<nat>, trimmed: nat)
    requires forall k :: 0 <= k < |ids| ==> trimmed <= ids[k]
    ensures Ready(ids, trimmed) == ids
  {
    if ids != [] {
      NothingTrimmed(ids[..|ids| - 1], trimmed);
    }
  }

  /** A restart, and the trimmed part of the pending list acknowledged. */
  lemma DropStale(run: seq<Consumer>, limits: Limits) returns (longer: seq<Consumer>)
    requires IsRun(run, limits)
    ensures IsRun(longer, limits) && run <= longer
    ensures Last(longer) == Last(run).(memory := FRESH_MEMORY, pel := set id | id in Last(run).pel && Last(run).trimmed <= id)
  {
    var start := Last(run).(memory := FRESH_MEMORY);
    longer := Take(run, start, limits, Crashing);
    longer := Take(longer, start.(pel := set id | id in start.pel && start.trimmed <= id), limits, AckingStale);
  }

  /** The pending list read again, handled and acknowledged. */
  lemma HandlePending(run: seq<Consumer>, limits: Limits) returns (longer: seq<Consumer>)
    requires IsRun(run, limits) && Last(run).memory == FRESH_MEMORY && Last(run).pel != {}
    requires forall id :: id in Last(run).pel ==> Last(run).trimmed <= id && !EffectAt(Last(run).log, id).Malformed?
    ensures IsRun(longer, limits) && run <= longer
    ensures Last(longer) == Last(run).(pel := {}, db := Last(longer).db, committed := Last(longer).committed)
  {
    var s := Last(run);
    RunKeepsInv(run, limits, |run| - 1);
    var ids := Listed(s.pel);
    forall k | 0 <= k < |ids|
      ensures s.trimmed <= ids[k]
    {
      assert ids[k] in ids;
    }
    NothingTrimmed(ids, s.trimmed);
    assert ids != [];
    longer := Take(run, s.(memory := FRESH_MEMORY.(todo := ids)), limits, ReadingPending(ids));
    assert ids[..|ids|] == ids;
    longer := HandleMany(longer, limits, |ids|, 0);
    longer := Acknowledge(longer, limits);
  }

  /** The next entries handed on, from behind whatever has been trimmed. */
  lemma ReadOn(run: seq<Consumer>, limits: Limits) returns (longer: seq<Consumer>)
    requires IsRun(run, limits) && Last(run).memory == FRESH_MEMORY && Last(run).pel == {} && Waiting(Last(run))
    ensures run <= longer && DeliversMore(Last(run), longer, limits)
  {
    var s := Last(run);
    var start: nat := Max(s.delivered, s.trimmed);
    var end := if start + limits.count <= |s.log| then start + limits.count else |s.log|;
    longer := Take(run, s.(delivered := end, pel := Ids(Span(start, end)), memory := s.memory.(todo := Span(start, end))), limits, ReadingNew);
  }

  lemma UnblockedDelivers(run: seq<Consumer>, limits: Limits)
    requires IsRun(run, limits) && Waiting(Last(run)) && NoneBlocked(Last(run))
    ensures CanDeliver(run, limits)
  {
    var s := Last(run);
    var dropped := DropStale(run, limits);
    var handled := dropped;
    if Last(dropped).pel != {} {
      assert forall id :: id in Last(dropped).pel ==> !Blocked(s, id);
      handled := HandlePending(dropped, limits);
    }
    var longer := ReadOn(handled, limits);
    assert run <= dropped <= handled <= longer;
    assert DeliversMore(s, longer, limits);
  }

  lemma {:induction false} TrimmedGrows(run: seq<Consumer>, limits: Limits, from: nat, to: nat)
    requires IsRun(run, limits) && from <= to < |run|
    ensures run[from].trimmed <= run[to].trimmed
  {
    if from < to {
      TrimmedGrows(run, limits, from, to - 1);
      StepAt(run, limits, to - 1);
    }
  }

  lemma BlockedDeliversNothing(run: seq<Consumer>, limits: Limits, longer: seq<Consumer>, id: nat)
    requires IsRun(run, limits) && IsRun(longer, limits) && run <= longer && Blocked(Last(run), id)
    requires Last(longer).trimmed == Last(run).trimmed
    ensures Last(longer).delivered == Last(run).delivered
  {
    var from, to := |run| - 1, |longer| - 1;
    assert longer[from] == Last(run);
    forall k | from <= k <= to
      ensures longer[k].trimmed <= id
    {
      TrimmedGrows(longer, limits, k, to);
    }
    MalformedEntryBlocksDelivery(longer, limits, from, to, id);
  }

  /**
   Delivery goes on: with entries waiting, any run has a continuation, on the stream as it stands, that hands
   on more of it, exactly when no entry that is never acknowledged is pending and untrimmed.
   */
  lemma DeliveryGoesOnIff(run: seq<Consumer>, limits: Limits)
    requires IsRun(run, limits) && Waiting(Last(run))
    ensures CanDeliver(run, limits) <==> NoneBlocked(Last(run))
  {
    if NoneBlocked(Last(run)) {
      UnblockedDelivers(run, limits);
    } else {
      var id: nat :| Blocked(Last(run), id);
      forall longer: seq<Consumer> | run <= longer && IsRun(longer, limits) && Last(longer).trimmed == Last(run).trimmed
        ensures Last(longer).delivered == Last(run).delivered
      {
        BlockedDeliversNothing(run, limits, longer, id);
      }
    }
  }

  // ---------- getting stuck ----------

  ghost predicate StuckAt(run: seq<Consumer>, limits: Limits, log: seq<Entry>, e: nat) {
    IsRun(run, limits) && Last(run).log == log && Blocked(Last(run), e)
  }

  lemma RunToStuck(limits: Limits, log: seq<Entry>, e: nat) returns (run: seq<Consumer>)
    requires limits.Valid() && e < |log| && EffectAt(log, e).Malformed? && Readable(log, limits, e)
    ensures StuckAt(run, limits, log, e)
  {
    var b := if e + 1 >= limits.count then e + 1 - limits.count else 0;
    var end := if b + limits.count <= |log| then b + limits.count else |log|;
    run := ReachQuiet(limits, log, b, 0);
    run := AppendTo(run, limits, log, |log|);
    assert log[..|log|] == log;
    run := ReadReply(run, limits, b, end);
    assert Span(b, end)[e - b] == e;
  }

  lemma StuckIsReadable(run: seq<Consumer>, limits: Limits, log: seq<Entry>, e: nat)
    requires StuckAt(run, limits, log, e)
    ensures limits.Valid() && e < |log| && EffectAt(log, e).Malformed? && Readable(log, limits, e)
  {
    var s := Last(run);
    RunKeepsInv(run, limits, |run| - 1);
    RunKeepsOneReply(run, limits, |run| - 1);
    forall other: nat | other + limits.count <= e && EffectAt(log, other).Malformed?
      ensures other + 1 + limits.maxLen <= |log|
    {
      assert other < s.trimmed || other in s.pel;
    }
  }

  /**
   Which entries can stop the stream: a run on it gets stuck at an entry exactly when that is never
   acknowledged and can be read, since no earlier such entry has to be in an earlier reply and still there.
   */
  lemma StuckIff(limits: Limits, log: seq<Entry>, e: nat)
    requires limits.Valid()
    ensures (exists run: seq<Consumer> :: StuckAt(run, limits, log, e))
      <==> e < |log| && EffectAt(log, e).Malformed? && Readable(log, limits, e)
  {
    if e < |log| && EffectAt(log, e).Malformed? && Readable(log, limits, e) {
      var run := RunToStuck(limits, log, e);
    }
    if run: seq<Consumer> :| StuckAt(run, limits, log, e) {
      StuckIsReadable(run, limits, log, e);
    }
  }

  /** A read receipt that names no reader, with a message behind it. */
  const NO_READER := Json(ImEvent(
    EventId("r"), MessageRead, None, false, None, None, None, None, Some(Receipt(None, None, 10, None, None)), 10))
  const STUCK_STREAM := [Entry(EventId("r"), NO_READER), Entry(EventId("c"), CREATE)]

  /** The receipt is read alone, and the message behind it is never handed on before MAXLEN removes the receipt. */
  lemma ReceiptWithoutReaderBlocks() returns (run: seq<Consumer>)
    ensures StuckAt(run, Limits(1, 1000), STUCK_STREAM, 0) && Waiting(Last(run)) && !CanDeliver(run, Limits(1, 1000))
  {
    var limits := Limits(1, 1000);
    assert EffectAt(STUCK_STREAM, 0).Malformed?;
    assert Readable(STUCK_STREAM, limits, 0);
    run := RunToStuck(limits, STUCK_STREAM, 0);
    RunKeepsOneReply(run, limits, |run| - 1);
    DeliveryGoesOnIff(run, limits);
  }
}
