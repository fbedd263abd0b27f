/**
 The registry's own code (im-server/src/route.rs) for one user: one task, with every command allowed to fail
 and other tasks, clocks and lock expiries free to move between any two of its commands.

 The ghost field `run` records the states gone through; `Valid` says they form a run of the machine.
 */
module RouteRegistry {
  import opened Options
  import opened Routes
  import opened RouteMachine

  const ATTEMPTS := 20

  predicate ByOthers(action: Action, me: nat) {
    match action
    case Acquire(p, _, _) => p != me
    case Clock(p, _) => p != me
    case Load(p, _) => p != me
    case Clean(p, _) => p != me
    case Persist(p, _) => p != me
    case Cancel(p) => p != me
    case Crash(p) => p != me
    case _ => true
  }

  class Registry {
    const me: nat
    /** No command of this task fails. */
    const reliable: bool
    var shared: State
    ghost var run: seq<State>

    ghost predicate Valid()
      reads this
    {
      IsRun(run) && Last(run) == shared
    }

    predicate Free()
      reads this
    {
      TaskOf(shared, me).Idle?
    }

    /** Inside the section for `request`, at `stage`. */
    predicate At(request: Request, stage: Stage)
      reads this
    {
      && TaskOf(shared, me).Critical?
      && TaskOf(shared, me).request == request && TaskOf(shared, me).stage == stage
      && TaskOf(shared, me).turn < |shared.tokens|
    }

    constructor (me: nat, stored: Stored, reliable: bool)
      ensures Valid() && Free() && this.me == me && this.reliable == reliable && shared.stored == stored
    {
      this.me, this.reliable := me, reliable;
      shared := State(0, None, stored, map[], [], {}, []);
      run := [State(0, None, stored, map[], [], {}, [])];
    }

    method Perform(action: Action)
      requires Valid() && Enabled(shared, action)
      modifies this
      ensures Valid() && old(run) <= run && run == old(run) + [shared] && shared == Do(old(shared), action)
    {
      shared := Do(shared, action);
      assert StepBy(Last(run), shared, action);
      Extend(run, shared);
      run := run + [shared];
    }

    /** Any number of steps of other tasks, of time, and of release scripts. */
    method Others()
      requires Valid()
      modifies this
      ensures Valid() && old(run) <= run && TaskOf(shared, me) == TaskOf(old(shared), me) && |old(shared).tokens| <= |shared.tokens|
    {
      var steps :| 0 <= steps;
      for i := 0 to steps
        invariant Valid() && old(run) <= run && TaskOf(shared, me) == TaskOf(old(shared), me)
        invariant |old(shared).tokens| <= |shared.tokens|
      {
        var action: Action := *;
        if ByOthers(action, me) && Enabled(shared, action) {
          Perform(action);
        }
      }
    }

    /** A uuid that nobody has used for a lock. */
    method FreshToken() returns (token: nat)
      ensures token !in shared.tokens
    {
      token := 0;
      for i := 0 to |shared.tokens|
        invariant forall j :: 0 <= j < i ==> shared.tokens[j] < token
      {
        token := Max(token, shared.tokens[i] + 1);
      }
    }

    /** Twenty attempts of the call, one after another, each found the lock taken. */
    ghost predicate TakenTwentyTimes(from: nat, tried: seq<nat>)
      reads this
    {
      && |tried| == 20
      && (forall i, j :: 0 <= i < j < 20 ==> tried[i] <= tried[j])
      && forall i :: 0 <= i < 20 ==> FoundTaken(from, tried[i])
    }

    ghost predicate FoundTaken(from: nat, k: nat)
      reads this
    {
      from <= k < |run| && !LockFree(run[k])
    }

    /**
     `acquire_lock`: up to twenty attempts; one that takes the lock and loses its reply counts as failed. Unless
     a command fails, it gives up only when each of them has found the lock taken.
     */
    method AcquireLock(request: Request) returns (ok: bool, ghost tried: seq<nat>)
      requires Valid() && Free()
      modifies this
      ensures Valid() && old(run) <= run
      ensures if ok then At(request, Locked) else Free()
      ensures reliable && !ok ==> TakenTwentyTimes(|old(run)| - 1, tried)
    {
      tried := [];
      for attempt := 0 to ATTEMPTS
        invariant Valid() && old(run) <= run && Free()
        invariant reliable ==> |tried| == attempt
        invariant forall i, j :: 0 <= i < j < |tried| ==> tried[i] <= tried[j]
        invariant forall i :: 0 <= i < |tried| ==> FoundTaken(|old(run)| - 1, tried[i])
      {
        Others();
        var token := FreshToken();
        var reached, answered: bool := *, *;
        reached, answered := reached || reliable, answered || reliable;
        if reached && LockFree(shared) {
          if answered {
            Perform(Acquire(me, token, request));
            return true, tried;
          }
          Perform(LoseReply(token));
        }
        if reliable {
          tried := tried + [|run| - 1];
        }
      }
      ok := false;
    }

    /** `load_snapshot`, with what it may delete. */
    method LoadSnapshot(ghost request: Request, now: int) returns (snapshot: Snapshot, ghost read: bool, ghost clean: bool)
      requires Valid() && At(request, Clocked(now))
      modifies this
      ensures Valid() && old(run) <= run
      ensures At(request, Read(now, read, false, clean, snapshot))
      ensures reliable ==> read
    {
      Others();
      var ok: bool := *;
      ok := ok || reliable;
      snapshot := map[];
      if ok && shared.stored.Leases? {
        var leases := shared.stored.leases;
        snapshot := map s | s in leases && !Blank(s.text) && Live(leases[s], now) :: leases[s];
      }
      var garbage := ok && shared.stored.Garbage?;
      Perform(Load(me, ok));
      read, clean := ok, false;
      if garbage {
        Others();
        var deleted: bool := *;
        Perform(Clean(me, deleted));
        clean := deleted;
      }
    }

    /** `persist_snapshot` and the end of the section. */
    method PersistSnapshot(ghost request: Request, snapshot: Snapshot, now: int, ghost stage: Stage)
      requires Valid() && At(request, stage) && stage.Read? && !stage.toClean
      requires stage.now == now && snapshot == Edited(stage.snapshot, request, now)
      modifies this
      ensures Valid() && old(run) <= run && Free()
      ensures Ended(request, now, stage.read)
      ensures reliable ==> shared.log[|shared.log| - 1].write
      ensures InTimeBefore(run, |run| - 1) ==> shared.stored == Serial(run[0].stored, shared.log)
      ensures InTimeBefore(run, |run| - 1) ==>
        stage.snapshot == Loaded(Serial(run[0].stored, shared.log[..|shared.log| - 1]), now, stage.read)
    {
      Others();
      var ok: bool := *;
      ok := ok || reliable;
      ghost var before := run;
      Perform(Persist(me, ok));
      if InTimeBefore(run, |run| - 1) {
        SectionEnded(before, run, me, ok);
      }
    }

    /** The last section in the log is this task's. */
    predicate Ended(request: Request, now: int, read: bool)
      reads this
    {
      && shared.log != []
      && var op := shared.log[|shared.log| - 1];
         op.request == request && op.now == now && op.read == read
    }

    /** The last section in the log read and wrote. */
    predicate TookEffect()
      reads this
    {
      shared.log != [] && shared.log[|shared.log| - 1].read && shared.log[|shared.log| - 1].write
    }

    /** `upsert_local_route`, and `remove_local_route` when there are no sessions. */
    method UpsertLocalRoute(server: ServerId, sessions: nat, ttl: int, url: string) returns (ok: bool, ghost tried: seq<nat>)
      requires Valid() && Free()
      modifies this
      ensures Valid() && old(run) <= run && Free()
      ensures reliable && !ok ==> TakenTwentyTimes(|old(run)| - 1, tried)
      ensures reliable && ok ==> TookEffect()
      ensures ok ==> exists now, read :: Ended(Upsert(server, sessions, ttl, url), now, read)
      ensures ok && InTimeBefore(run, |run| - 1) ==> shared.stored == Serial(run[0].stored, shared.log)
    {
      ghost var request := Upsert(server, sessions, ttl, url);
      ok, tried := AcquireLock(Upsert(server, sessions, ttl, url));
      if !ok {
        return;
      }
      Others();
      var now: int := *;
      Perform(Clock(me, now));
      var snapshot, read, clean := LoadSnapshot(request, now);
      ghost var stage := Read(now, read, false, clean, snapshot);
      if sessions == 0 {
        snapshot := snapshot - {server};
      } else {
        snapshot := snapshot[server := Lease(Sessions32(sessions), SaturatingAdd(now, Max(ttl, 1000)), Some(url))];
      }
      PersistSnapshot(request, snapshot, now, stage);
    }

    /** The counts are those of the snapshot that the sections before this one left. */
    ghost predicate Counted(counts: map<ServerId, int>, now: int, read: bool)
      requires run != []
      reads this
    {
      && Ended(Count, now, read)
      && counts == SessionCounts(Loaded(Serial(run[0].stored, shared.log[..|shared.log| - 1]), now, read))
    }

    /** `get_instance_session_counts`. */
    method GetInstanceSessionCounts() returns (ok: bool, counts: map<ServerId, int>, ghost tried: seq<nat>)
      requires Valid() && Free()
      modifies this
      ensures Valid() && old(run) <= run && Free()
      ensures reliable && !ok ==> TakenTwentyTimes(|old(run)| - 1, tried)
      ensures reliable && ok ==> TookEffect()
      ensures !ok ==> counts == map[]
      ensures ok && InTimeBefore(run, |run| - 1) ==>
        && shared.stored == Serial(run[0].stored, shared.log)
        && exists now, read :: Counted(counts, now, read)
    {
      counts := map[];
      ok, tried := AcquireLock(Count);
      if !ok {
        return;
      }
      Others();
      var now: int := *;
      Perform(Clock(me, now));
      var snapshot, read, clean := LoadSnapshot(Count, now);
      PersistSnapshot(Count, snapshot, now, Read(now, read, false, clean, snapshot));
      counts := map s | s in snapshot && snapshot[s].sessions > 0 :: snapshot[s].sessions;
      assert InTimeBefore(run, |run| - 1) ==> Counted(counts, now, read);
    }
  }

  /** What a task has read and written, told by the sections before its own. */
  lemma SectionEnded(before: seq<State>, run: seq<State>, me: nat, ok: bool)
    requires before != [] && IsRun(run) && run == before + [Last(run)] && InTimeBefore(run, |before|)
    requires StepBy(Last(before), Last(run), Persist(me, ok))
    ensures Last(run).log != [] && Last(run).stored == Serial(run[0].stored, Last(run).log)
    ensures TaskOf(Last(before), me).stage.snapshot
      == Loaded(Serial(run[0].stored, Last(run).log[..|Last(run).log| - 1]), TaskOf(Last(before), me).stage.now, TaskOf(Last(before), me).stage.read)
  {
    assert run[|before| - 1] == Last(before);
    assert InTimeBefore(run, |before| - 1);
    RunKeepsInv(run, |before| - 1);
    PersistKeepsStored(Last(before), Last(run), me, ok, run[0].stored);
    SectionReadsTheLast(run, |before| - 1, me);
    assert Last(run).log[..|Last(run).log| - 1] == Last(before).log;
  }
}
