/**
 Read cursors over every run: each is what the committed receipts give, however they were batched and replayed.
 */
module WriterCursors {
  import opened Options
  import opened Events
  import opened BackgroundDb
  import opened WriterMachine
  import opened WriterRuns

  // ---------- read cursors ----------

  predicate ReadsPrivate(log: seq<Entry>, id: nat, key: (int, int)) {
    var effect := EffectAt(log, id);
    effect.ReadPrivate? && PrivateKey(effect.private) == key
  }

  predicate ReadsGroup(log: seq<Entry>, id: nat, key: (int, int)) {
    var effect := EffectAt(log, id);
    effect.ReadGroup? && GroupKey(effect.group) == key
  }

  /** The stored time is the latest among the private receipts of `entries`. */
  ghost predicate PrivateReflects(t: Privates, log: seq<Entry>, entries: set<nat>, key: (int, int)) {
    && (key in t <==> exists i :: i in entries && ReadsPrivate(log, i, key))
    && (key in t ==>
          && (forall i :: i in entries && ReadsPrivate(log, i, key) ==> EffectAt(log, i).private.readAt <= t[key])
          && exists i :: i in entries && ReadsPrivate(log, i, key) && EffectAt(log, i).private.readAt == t[key])
  }

  /** The stored sequence is the greatest among the group receipts of `entries`; the time is that of one of them. */
  ghost predicate GroupReflects(t: Groups, log: seq<Entry>, entries: set<nat>, key: (int, int)) {
    && (key in t <==> exists i :: i in entries && ReadsGroup(log, i, key))
    && (key in t ==>
          && (forall i :: i in entries && ReadsGroup(log, i, key) ==> EffectAt(log, i).group.readSeq <= t[key].readSeq)
          && (exists i :: i in entries && ReadsGroup(log, i, key) && EffectAt(log, i).group.readSeq == t[key].readSeq)
          && exists i :: i in entries && ReadsGroup(log, i, key) && EffectAt(log, i).group.readAt == t[key].readAt)
  }

  lemma BatchedPrivate(s: Consumer, limits: Limits, c: PrivateCursor) returns (id: nat)
    requires Inv(s, limits) && c in s.memory.privateReadBatch
    ensures id in ReadIds(s.memory) && EffectAt(s.log, id) == ReadPrivate(c)
  {
    var k :| 0 <= k < |s.memory.privateReadBatch| && s.memory.privateReadBatch[k] == c;
    id := s.memory.privateReadAckIds[k];
  }

  lemma BatchedGroup(s: Consumer, limits: Limits, c: GroupCursor) returns (id: nat)
    requires Inv(s, limits) && c in s.memory.groupReadBatch
    ensures id in ReadIds(s.memory) && EffectAt(s.log, id) == ReadGroup(c)
  {
    var k :| 0 <= k < |s.memory.groupReadBatch| && s.memory.groupReadBatch[k] == c;
    id := s.memory.groupReadAckIds[k];
  }

  /** The receipts a flush commits are those in the batches, and the other way round. */
  lemma CommittedReads(s: Consumer, s': Consumer, limits: Limits, key: (int, int))
    requires Inv(s, limits) && CommitReads(s, s')
    ensures forall i :: i in s'.committed && i !in s.committed && ReadsPrivate(s.log, i, key) ==>
      EffectAt(s.log, i).private in s.memory.privateReadBatch
    ensures forall i :: i in s'.committed && i !in s.committed && ReadsGroup(s.log, i, key) ==>
      EffectAt(s.log, i).group in s.memory.groupReadBatch
    ensures forall c :: c in s.memory.privateReadBatch && PrivateKey(c) == key ==>
      exists i :: i in s'.committed && ReadsPrivate(s.log, i, key) && EffectAt(s.log, i).private == c
    ensures forall c :: c in s.memory.groupReadBatch && GroupKey(c) == key ==>
      exists i :: i in s'.committed && ReadsGroup(s.log, i, key) && EffectAt(s.log, i).group == c
  {
    forall i | i in s'.committed && i !in s.committed
      ensures ReadsPrivate(s.log, i, key) ==> EffectAt(s.log, i).private in s.memory.privateReadBatch
      ensures ReadsGroup(s.log, i, key) ==> EffectAt(s.log, i).group in s.memory.groupReadBatch
    {
      BatchedRead(s, limits, i);
    }
    forall c | c in s.memory.privateReadBatch && PrivateKey(c) == key
      ensures exists i :: i in s'.committed && ReadsPrivate(s.log, i, key) && EffectAt(s.log, i).private == c
    {
      var i := BatchedPrivate(s, limits, c);
      assert i in s'.committed && ReadsPrivate(s.log, i, key);
    }
    forall c | c in s.memory.groupReadBatch && GroupKey(c) == key
      ensures exists i :: i in s'.committed && ReadsGroup(s.log, i, key) && EffectAt(s.log, i).group == c
    {
      var i := BatchedGroup(s, limits, c);
      assert i in s'.committed && ReadsGroup(s.log, i, key);
    }
  }

  lemma PrivateBatchReflects(t: Privates, batch: seq<PrivateCursor>, log: seq<Entry>, old': set<nat>, now: set<nat>, key: (int, int))
    requires old' <= now && PrivateReflects(t, log, old', key)
    requires forall i :: i in now && i !in old' && ReadsPrivate(log, i, key) ==> EffectAt(log, i).private in batch
    requires forall c :: c in batch && PrivateKey(c) == key ==>
      exists i :: i in now && ReadsPrivate(log, i, key) && EffectAt(log, i).private == c
    ensures PrivateReflects(UpsertPrivates(t, batch), log, now, key)
  {
    UpsertPrivatesIsMax(t, batch, key);
    var r := UpsertPrivates(t, batch);
    if key in r && key in t && r[key] == t[key] {
      var i :| i in old' && ReadsPrivate(log, i, key) && EffectAt(log, i).private.readAt == t[key];
      assert i in now;
    }
  }

  lemma GroupBatchReflects(t: Groups, batch: seq<GroupCursor>, log: seq<Entry>, old': set<nat>, now: set<nat>, key: (int, int))
    requires old' <= now && GroupReflects(t, log, old', key)
    requires forall i :: i in now && i !in old' && ReadsGroup(log, i, key) ==> EffectAt(log, i).group in batch
    requires forall c :: c in batch && GroupKey(c) == key ==>
      exists i :: i in now && ReadsGroup(log, i, key) && EffectAt(log, i).group == c
    ensures GroupReflects(UpsertGroupMap(t, CoalesceGroup(batch)), log, now, key)
  {
    CoalesceGroupIsBelowOneByOne(t, batch, key);
    UpsertGroupsIsMax(t, batch, key);
    var r := UpsertGroupMap(t, CoalesceGroup(batch));
    if key in r {
      if key in t && r[key].readSeq == t[key].readSeq {
        var i :| i in old' && ReadsGroup(log, i, key) && EffectAt(log, i).group.readSeq == t[key].readSeq;
        assert i in now;
      }
      if key in t && r[key].readAt == t[key].readAt {
        var i :| i in old' && ReadsGroup(log, i, key) && EffectAt(log, i).group.readAt == t[key].readAt;
        assert i in now;
      } else {
        assert CoalesceGroup(batch)[key] in batch;
      }
    }
  }

  lemma CommitStoresReads(s: Consumer, s': Consumer, limits: Limits, key: (int, int))
    requires Inv(s, limits) && CommitReads(s, s')
    requires PrivateReflects(s.db.privates, s.log, s.committed, key) && GroupReflects(s.db.groups, s.log, s.committed, key)
    ensures PrivateReflects(s'.db.privates, s'.log, s'.committed, key) && GroupReflects(s'.db.groups, s'.log, s'.committed, key)
  {
    CommittedReads(s, s', limits, key);
    CoalescePrivateRefinesOneByOne(s.db.privates, s.memory.privateReadBatch);
    PrivateBatchReflects(s.db.privates, s.memory.privateReadBatch, s.log, s.committed, s'.committed, key);
    GroupBatchReflects(s.db.groups, s.memory.groupReadBatch, s.log, s.committed, s'.committed, key);
  }

  /** Every step but a flush of receipts leaves the cursor tables alone and commits no receipt. */
  lemma OtherStepsCommitNoReads(s: Consumer, s': Consumer, limits: Limits, action: Action)
    requires Inv(s, limits) && StepBy(s, s', limits, action) && !action.CommittingReads?
    ensures s'.db.privates == s.db.privates && s'.db.groups == s.db.groups
    ensures s.log <= s'.log && s.committed <= s'.committed
    ensures forall i :: i in s'.committed && i !in s.committed ==>
      !EffectAt(s'.log, i).ReadPrivate? && !EffectAt(s'.log, i).ReadGroup?
  {
    if action.CommittingMessages? {
      forall i | i in s'.committed && i !in s.committed
        ensures EffectAt(s.log, i).Insert?
      {
        BatchedId(s, limits, i);
      }
    }
  }

  lemma CursorsUnmoved(s: Consumer, s': Consumer, limits: Limits, key: (int, int))
    requires Inv(s, limits) && s.log <= s'.log && s.committed <= s'.committed
    requires forall i :: i in s'.committed && i !in s.committed ==>
      !EffectAt(s'.log, i).ReadPrivate? && !EffectAt(s'.log, i).ReadGroup?
    ensures PrivateReflects(s.db.privates, s.log, s.committed, key) ==>
      PrivateReflects(s.db.privates, s'.log, s'.committed, key)
    ensures GroupReflects(s.db.groups, s.log, s.committed, key) ==>
      GroupReflects(s.db.groups, s'.log, s'.committed, key)
  {
    assert forall i :: i in s.committed ==> i in s'.committed && EffectAt(s'.log, i) == EffectAt(s.log, i);
    assert forall i :: i in s.committed ==> (ReadsPrivate(s'.log, i, key) <==> ReadsPrivate(s.log, i, key));
    assert forall i :: i in s.committed ==> (ReadsGroup(s'.log, i, key) <==> ReadsGroup(s.log, i, key));
  }

  lemma StepKeepsCursors(s: Consumer, s': Consumer, limits: Limits, key: (int, int))
    requires limits.Valid() && Inv(s, limits) && Step(s, s', limits)
    requires PrivateReflects(s.db.privates, s.log, s.committed, key) && GroupReflects(s.db.groups, s.log, s.committed, key)
    ensures PrivateReflects(s'.db.privates, s'.log, s'.committed, key) && GroupReflects(s'.db.groups, s'.log, s'.committed, key)
  {
    var action :| StepBy(s, s', limits, action);
    if action.CommittingReads? {
      CommitStoresReads(s, s', limits, key);
    } else {
      OtherStepsCommitNoReads(s, s', limits, action);
      CursorsUnmoved(s, s', limits, key);
    }
  }

  /** Read cursors are exact at every moment of every run: the greatest committed time or sequence, once and for all. */
  lemma {:induction false} CursorsAreExact(run: seq<Consumer>, limits: Limits, k: nat, key: (int, int))
    requires IsRun(run, limits) && k < |run|
    ensures PrivateReflects(run[k].db.privates, run[k].log, run[k].committed, key)
    ensures GroupReflects(run[k].db.groups, run[k].log, run[k].committed, key)
  {
    if k > 0 {
      StepAt(run, limits, k - 1);
      RunKeepsInv(run, limits, k - 1);
      CursorsAreExact(run, limits, k - 1, key);
      StepKeepsCursors(run[k - 1], run[k], limits, key);
    }
  }

  lemma {:induction false} InOrderPrivates(log: seq<Entry>, entries: set<nat>, n: nat, key: (int, int))
    ensures PrivateReflects(InOrder(log, entries, n).privates, log, Below(entries, n), key)
  {
    if n > 0 {
      InOrderPrivates(log, entries, n - 1, key);
      if n - 1 in entries {
        assert InOrder(log, entries, n) == ApplyEffect(InOrder(log, entries, n - 1), EffectAt(log, n - 1));
        assert Below(entries, n) == Below(entries, n - 1) + {n - 1};
        PrivateOneMore(InOrder(log, entries, n - 1), log, Below(entries, n - 1), n - 1, key);
      } else {
        assert Below(entries, n) == Below(entries, n - 1);
      }
    }
  }

  lemma BelowNext(entries: set<nat>, n: nat)
    requires n > 0
    ensures Below(entries, n) == Below(entries, n - 1) + if n - 1 in entries then {n - 1} else {}
  {
  }

  lemma {:induction false} InOrderGroups(log: seq<Entry>, entries: set<nat>, n: nat, key: (int, int))
    ensures GroupReflects(InOrder(log, entries, n).groups, log, Below(entries, n), key)
  {
    if n > 0 {
      InOrderGroups(log, entries, n - 1, key);
      BelowNext(entries, n);
      if n - 1 in entries {
        GroupOneMore(InOrder(log, entries, n - 1), log, Below(entries, n - 1), n - 1, key);
      }
    }
  }

  lemma PrivateOneMore(tables: Tables, log: seq<Entry>, entries: set<nat>, i: nat, key: (int, int))
    requires PrivateReflects(tables.privates, log, entries, key)
    ensures PrivateReflects(ApplyEffect(tables, EffectAt(log, i)).privates, log, entries + {i}, key)
  {
    var t := tables.privates;
    assert i in entries + {i};
    if key in t {
      var w :| w in entries && ReadsPrivate(log, w, key) && EffectAt(log, w).private.readAt == t[key];
      assert w in entries + {i};
    }
  }

  lemma GroupOneMore(tables: Tables, log: seq<Entry>, entries: set<nat>, i: nat, key: (int, int))
    requires GroupReflects(tables.groups, log, entries, key)
    ensures GroupReflects(ApplyEffect(tables, EffectAt(log, i)).groups, log, entries + {i}, key)
  {
    var t, r, more := tables.groups, ApplyEffect(tables, EffectAt(log, i)).groups, entries + {i};
    assert i in more && forall e :: e in entries ==> e in more;
    if !ReadsGroup(log, i, key) {
      assert (key in r <==> key in t) && (key in t ==> r[key] == t[key]);
    } else if key in t {
      var w :| w in entries && ReadsGroup(log, w, key) && EffectAt(log, w).group.readSeq == t[key].readSeq;
      var x :| x in entries && ReadsGroup(log, x, key) && EffectAt(log, x).group.readAt == t[key].readAt;
      assert r[key] == JoinGroup(t[key], EffectAt(log, i).group);
      assert w in more && x in more;
    }
  }

  /** Batched, coalesced and replayed, the cursors still equal one application of each committed receipt in order. */
  lemma CursorsAppliedOnceInOrder(run: seq<Consumer>, limits: Limits, k: nat, key: (int, int))
    requires IsRun(run, limits) && k < |run|
    ensures var s := run[k]; var once := InOrder(s.log, s.committed, |s.log|);
      && (key in s.db.privates <==> key in once.privates)
      && (key in once.privates ==> s.db.privates[key] == once.privates[key])
      && (key in s.db.groups <==> key in once.groups)
      && (key in once.groups ==> s.db.groups[key].readSeq == once.groups[key].readSeq)
  {
    var s := run[k];
    RunKeepsInv(run, limits, k);
    CursorsAreExact(run, limits, k, key);
    InOrderPrivates(s.log, s.committed, |s.log|, key);
    InOrderGroups(s.log, s.committed, |s.log|, key);
    assert Below(s.committed, |s.log|) == s.committed;
  }
}
