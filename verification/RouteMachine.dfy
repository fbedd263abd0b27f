/**
 Many servers rewriting one user's snapshot under an expiring lock (im-server/src/route.rs), cut at every
 Redis command. Every task of every server may stop between any two commands, for any time, or for good.
 */
module RouteMachine {
  import opened Options
  import opened Routes

  const LOCK_MS := 3000

  datatype Lock = Lock(token: nat, expires: nat)

  /** How far a critical section has come; `toClean` says that a value it could not parse is still to be deleted. */
  datatype Stage =
    | Locked
    | Clocked(now: int)
    | Read(now: int, read: bool, toClean: bool, clean: bool, snapshot: Snapshot)

  /** `turn` is how many locks had been taken before this one; `deadline` is when this one expires. */
  datatype Task = Idle | Critical(turn: nat, deadline: nat, request: Request, stage: Stage)

  /**
   `tokens` are those of the locks taken, in that order; `releases` those whose release script has still to
   run; `log` the critical sections that have ended.
   */
  datatype State = State(
    time: nat,
    lock: Option<Lock>,
    stored: Stored,
    tasks: map<nat, Task>,
    tokens: seq<nat>,
    releases: set<nat>,
    log: seq<Op>)

  function TaskOf(s: State, p: nat): Task {
    if p in s.tasks then s.tasks[p] else Idle
  }

  /** `SET lock token NX PX 3000` succeeds. */
  predicate LockFree(s: State) {
    s.lock.None? || s.lock.value.expires <= s.time
  }

  datatype Action =
    | Stutter
    | Tick(time: nat)
    | Acquire(p: nat, token: nat, request: Request)
    | LoseReply(token: nat)
    | Clock(p: nat, now: int)
    | Load(p: nat, ok: bool)
    | Clean(p: nat, ok: bool)
    | Persist(p: nat, ok: bool)
    | Release(token: nat)
    | Forget(token: nat)
    | Cancel(p: nat)
    | Crash(p: nat)

  predicate Enabled(s: State, action: Action) {
    match action
    case Stutter => true
    case Tick(time) => s.time <= time
    case Acquire(p, token, _) => TaskOf(s, p).Idle? && token !in s.tokens && LockFree(s)
    case LoseReply(token) => token !in s.tokens && LockFree(s)
    case Clock(p, _) => TaskOf(s, p).Critical? && TaskOf(s, p).stage.Locked?
    case Load(p, _) => TaskOf(s, p).Critical? && TaskOf(s, p).stage.Clocked?
    case Clean(p, _) => TaskOf(s, p).Critical? && TaskOf(s, p).stage.Read? && TaskOf(s, p).stage.toClean
    case Persist(p, _) => TaskOf(s, p).Critical? && TaskOf(s, p).stage.Read? && !TaskOf(s, p).stage.toClean
      && TaskOf(s, p).turn < |s.tokens|
    case Release(token) => token in s.releases
    case Forget(token) => token in s.releases
    case Cancel(p) => TaskOf(s, p).Critical? && TaskOf(s, p).turn < |s.tokens|
    case Crash(p) => TaskOf(s, p).Critical?
  }

  function OpOf(task: Task, write: bool): Op
    requires task.Critical? && task.stage.Read?
  {
    Op(task.turn, task.request, task.stage.now, task.stage.read, task.stage.clean, write)
  }

  /** What its write stores, if it takes effect. */
  function AfterPersist(s: State, p: nat, ok: bool): Stored
    requires TaskOf(s, p).Critical? && TaskOf(s, p).stage.Read?
  {
    var task := TaskOf(s, p);
    Persisted(s.stored, Edited(task.stage.snapshot, task.request, task.stage.now), task.stage.now, ok)
  }

  function WithStage(s: State, p: nat, stage: Stage): State
    requires TaskOf(s, p).Critical?
  {
    s.(tasks := s.tasks[p := TaskOf(s, p).(stage := stage)])
  }

  /** A section that ends without its write. */
  function Ended(s: State, p: nat): State
    requires TaskOf(s, p).Critical?
  {
    s.(log := if TaskOf(s, p).stage.Read? then s.log + [OpOf(TaskOf(s, p), false)] else s.log, tasks := s.tasks[p := Idle])
  }

  /**
   A lock whose reply is lost is nobody's until it expires. A section that is cancelled drops its guard, which
   sends the release script; one whose process dies does not.
   */
  function Do(s: State, action: Action): State
    requires Enabled(s, action)
  {
    match action
    case Stutter => s
    case Tick(time) => s.(time := time)
    case Acquire(p, token, request) =>
      s.(lock := Some(Lock(token, s.time + LOCK_MS)),
         tokens := s.tokens + [token],
         tasks := s.tasks[p := Critical(|s.tokens|, s.time + LOCK_MS, request, Locked)])
    case LoseReply(token) => s.(lock := Some(Lock(token, s.time + LOCK_MS)))
    case Clock(p, now) => WithStage(s, p, Clocked(now))
    case Load(p, ok) =>
      var now := TaskOf(s, p).stage.now;
      WithStage(s, p, Read(now, ok, ok && s.stored.Garbage?, false, Loaded(s.stored, now, ok)))
    case Clean(p, ok) =>
      WithStage(s, p, TaskOf(s, p).stage.(toClean := false, clean := ok)).(stored := if ok then Absent else s.stored)
    case Persist(p, ok) =>
      s.(stored := AfterPersist(s, p, ok),
         log := s.log + [OpOf(TaskOf(s, p), ok)],
         tasks := s.tasks[p := Idle],
         releases := s.releases + {s.tokens[TaskOf(s, p).turn]})
    case Release(token) =>
      s.(lock := if s.lock.Some? && s.lock.value.token == token then None else s.lock, releases := s.releases - {token})
    case Forget(token) => s.(releases := s.releases - {token})
    case Cancel(p) => Ended(s, p).(releases := s.releases + {s.tokens[TaskOf(s, p).turn]})
    case Crash(p) => Ended(s, p)
  }

  ghost predicate StepBy(s: State, s': State, action: Action) {
    Enabled(s, action) && s' == Do(s, action)
  }

  ghost predicate Step(s: State, s': State) {
    exists action: Action :: StepBy(s, s', action)
  }

  /** Each critical section is over within the 3000 ms that its lock lasts. */
  ghost predicate InTime(s: State) {
    forall p :: p in s.tasks && s.tasks[p].Critical? ==> s.time < s.tasks[p].deadline
  }

  // ---------- what every step keeps ----------

  ghost predicate TokensRight(s: State) {
    && (forall i, j :: 0 <= i < j < |s.tokens| ==> s.tokens[i] != s.tokens[j])
    && (forall token :: token in s.releases ==> token in s.tokens)
  }

  /** The log is in the order in which the locks were taken. */
  ghost predicate LogRight(s: State) {
    && (forall i, j :: 0 <= i < j < |s.log| ==> s.log[i].turn < s.log[j].turn)
    && (forall i :: 0 <= i < |s.log| ==> s.log[i].turn < |s.tokens|)
  }

  /** A task in its critical section holds the lock, and took it after every section in the log. */
  ghost predicate Holds(s: State, task: Task)
    requires task.Critical?
  {
    && task.turn == |s.tokens| - 1
    && s.lock == Some(Lock(s.tokens[task.turn], task.deadline))
    && s.tokens[task.turn] !in s.releases
    && forall i :: 0 <= i < |s.log| ==> s.log[i].turn < task.turn
  }

  ghost predicate HoldersRight(s: State) {
    forall p :: p in s.tasks && s.tasks[p].Critical? ==> Holds(s, s.tasks[p])
  }

  ghost predicate Alone(s: State) {
    forall p, q :: p in s.tasks && q in s.tasks && s.tasks[p].Critical? && s.tasks[q].Critical? ==> p == q
  }

  /** What the section has read, and what has been stored since, are those of the sections before it. */
  ghost predicate Sees(stage: Stage, stored: Stored, before: Stored) {
    match stage
    case Locked => stored == before
    case Clocked(_) => stored == before
    case Read(now, read, toClean, clean, snapshot) =>
      && stored == Cleaned(before, read, clean)
      && snapshot == Loaded(before, now, read)
      && (toClean ==> read && before.Garbage? && !clean)
  }

  predicate AllIdle(s: State) {
    forall p :: p in s.tasks ==> s.tasks[p].Idle?
  }

  ghost predicate StoredRight(s: State, first: Stored) {
    && (AllIdle(s) ==> s.stored == Serial(first, s.log))
    && forall p :: p in s.tasks && s.tasks[p].Critical? ==> Sees(s.tasks[p].stage, s.stored, Serial(first, s.log))
  }

  ghost predicate Inv(s: State, first: Stored) {
    TokensRight(s) && LogRight(s) && HoldersRight(s) && Alone(s) && StoredRight(s, first)
  }

  lemma TokensKept(s: State, s': State, action: Action)
    requires TokensRight(s) && StepBy(s, s', action)
    ensures TokensRight(s')
  {
  }

  lemma LogKept(s: State, s': State, action: Action)
    requires LogRight(s) && HoldersRight(s) && StepBy(s, s', action)
    ensures LogRight(s')
  {
  }

  /** While a section is in time its lock is alive, so nobody takes another. */
  lemma NoneHoldsAFreeLock(s: State)
    requires HoldersRight(s) && InTime(s) && LockFree(s)
    ensures AllIdle(s)
  {
  }

  lemma AloneKept(s: State, s': State, action: Action)
    requires Alone(s) && HoldersRight(s) && InTime(s) && StepBy(s, s', action)
    ensures Alone(s')
  {
  }

  lemma HoldersKept(s: State, s': State, action: Action)
    requires TokensRight(s) && LogRight(s) && HoldersRight(s) && Alone(s) && InTime(s) && StepBy(s, s', action)
    ensures HoldersRight(s')
  {
  }

  lemma SerialOneMore(first: Stored, log: seq<Op>, op: Op)
    ensures Serial(first, log + [op]) == Apply(Serial(first, log), op)
  {
    assert (log + [op])[..|log|] == log;
  }

  /** Ending its only section leaves every task idle. */
  lemma EndLeavesIdle(s: State, p: nat)
    requires Alone(s) && TaskOf(s, p).Critical?
    ensures forall q :: q in s.tasks && q != p ==> s.tasks[q].Idle?
  {
  }

  /** What has been read and cleaned, edited and written, is what the section does when it runs alone. */
  lemma EndIsApply(stage: Stage, stored: Stored, before: Stored, op: Op)
    requires Sees(stage, stored, before) && stage.Read?
    requires op.now == stage.now && op.read == stage.read && op.clean == stage.clean
    ensures Persisted(stored, Edited(stage.snapshot, op.request, op.now), op.now, op.write) == Apply(before, op)
  {
  }

  /** A section that ends leaves what it would have left had it run alone. */
  lemma EndKeepsStored(s: State, s': State, p: nat, op: Op, first: Stored)
    requires Alone(s) && TaskOf(s, p).Critical? && s'.tasks == s.tasks[p := Idle]
    requires s'.log == s.log + [op] && s'.stored == Apply(Serial(first, s.log), op)
    ensures AllIdle(s') && s'.stored == Serial(first, s'.log)
  {
    EndLeavesIdle(s, p);
    SerialOneMore(first, s.log, op);
  }

  lemma HolderSees(s: State, p: nat, first: Stored)
    requires StoredRight(s, first) && TaskOf(s, p).Critical?
    ensures Sees(TaskOf(s, p).stage, s.stored, Serial(first, s.log))
  {
  }

  lemma PersistKeepsStored(s: State, s': State, p: nat, ok: bool, first: Stored)
    requires Alone(s) && StoredRight(s, first) && TaskOf(s, p).Critical? && TaskOf(s, p).stage.Read?
    requires s'.tasks == s.tasks[p := Idle] && s'.log == s.log + [OpOf(TaskOf(s, p), ok)] && s'.stored == AfterPersist(s, p, ok)
    ensures AllIdle(s') && s'.stored == Serial(first, s'.log)
  {
    HolderSees(s, p, first);
    EndIsApply(TaskOf(s, p).stage, s.stored, Serial(first, s.log), OpOf(TaskOf(s, p), ok));
    EndKeepsStored(s, s', p, OpOf(TaskOf(s, p), ok), first);
  }

  /** One that ends without its write has still emptied what it could not parse. */
  lemma CrashKeepsStored(s: State, s': State, p: nat, first: Stored)
    requires Alone(s) && StoredRight(s, first) && TaskOf(s, p).Critical? && s' == Ended(s, p)
    ensures AllIdle(s') && s'.stored == Serial(first, s'.log)
  {
    var task := TaskOf(s, p);
    HolderSees(s, p, first);
    if task.stage.Read? {
      EndIsApply(task.stage, s.stored, Serial(first, s.log), OpOf(task, false));
      EndKeepsStored(s, s', p, OpOf(task, false), first);
    } else {
      EndLeavesIdle(s, p);
    }
  }

  lemma StoredKept(s: State, s': State, action: Action, first: Stored)
    requires Inv(s, first) && InTime(s) && StepBy(s, s', action)
    ensures StoredRight(s', first)
  {
    if action.Acquire? {
      NoneHoldsAFreeLock(s);
    } else if action.Persist? {
      PersistKeepsStored(s, s', action.p, action.ok, first);
    } else if action.Crash? {
      CrashKeepsStored(s, s', action.p, first);
    } else if action.Cancel? {
      CrashKeepsStored(s, Ended(s, action.p), action.p, first);
    } else if action.Clock? || action.Load? || action.Clean? {
      assert s'.tasks[action.p].Critical?;
    }
  }

  lemma StepKeepsInv(s: State, s': State, first: Stored)
    requires Inv(s, first) && InTime(s) && Step(s, s')
    ensures Inv(s', first)
  {
    var action: Action :| StepBy(s, s', action);
    TokensKept(s, s', action);
    LogKept(s, s', action);
    AloneKept(s, s', action);
    HoldersKept(s, s', action);
    StoredKept(s, s', action, first);
  }

  // ---------- every run ----------

  function Nth(run: seq<State>, k: nat): State
    requires k < |run|
  {
    run[k]
  }

  function Last(run: seq<State>): State
    requires run != []
  {
    run[|run| - 1]
  }

  /** Whatever the hash holds for the user at first. */
  predicate IsInitial(s: State) {
    s.lock.None? && s.tasks == map[] && s.tokens == [] && s.releases == {} && s.log == []
  }

  ghost predicate IsRun(run: seq<State>) {
    && run != []
    && IsInitial(run[0])
    && forall k: nat {:trigger Nth(run, k)} :: k < |run| - 1 ==> Step(Nth(run, k), Nth(run, k + 1))
  }

  ghost predicate InTimeBefore(run: seq<State>, k: nat)
    requires k <= |run|
  {
    forall j: nat {:trigger Nth(run, j)} :: j < k ==> InTime(Nth(run, j))
  }

  lemma Extend(run: seq<State>, s: State)
    requires IsRun(run) && Step(Last(run), s)
    ensures IsRun(run + [s])
  {
    var longer := run + [s];
    forall k: nat | k < |longer| - 1
      ensures Step(Nth(longer, k), Nth(longer, k + 1))
    {
      if k < |run| - 1 {
        assert Step(Nth(run, k), Nth(run, k + 1));
      }
    }
  }

  lemma {:induction false} RunKeepsInv(run: seq<State>, k: nat)
    requires IsRun(run) && k < |run| && InTimeBefore(run, k)
    ensures Inv(run[k], run[0].stored)
  {
    if k > 0 {
      RunKeepsInv(run, k - 1);
      assert InTime(Nth(run, k - 1)) && Step(Nth(run, k - 1), Nth(run, k - 1 + 1));
      StepKeepsInv(run[k - 1], run[k], run[0].stored);
    }
  }

  /** While sections are in time, at most one task of all the servers is in its section, and the lock is its own. */
  lemma OneAtATime(run: seq<State>, k: nat, p: nat, q: nat)
    requires IsRun(run) && k < |run| && InTimeBefore(run, k)
    requires TaskOf(run[k], p).Critical? && TaskOf(run[k], q).Critical?
    ensures p == q && TaskOf(run[k], p).turn < |run[k].tokens|
    ensures run[k].lock == Some(Lock(run[k].tokens[TaskOf(run[k], p).turn], TaskOf(run[k], p).deadline))
  {
    RunKeepsInv(run, k);
  }

  /**
   Any interleaving of the servers' commands, with commands that fail and tasks that stop for good, leaves the
   snapshot that the sections leave when they run one after another in the order of their locks.
   */
  lemma SectionsAreSerial(run: seq<State>, k: nat)
    requires IsRun(run) && k < |run| && InTimeBefore(run, k) && AllIdle(run[k])
    ensures run[k].stored == Serial(run[0].stored, run[k].log)
    ensures forall i, j :: 0 <= i < j < |run[k].log| ==> run[k].log[i].turn < run[k].log[j].turn
  {
    RunKeepsInv(run, k);
  }

  /** A section decides on what the sections before it left, even when others' release scripts run late. */
  lemma SectionReadsTheLast(run: seq<State>, k: nat, p: nat)
    requires IsRun(run) && k < |run| && InTimeBefore(run, k)
    requires TaskOf(run[k], p).Critical? && TaskOf(run[k], p).stage.Read?
    ensures var stage := TaskOf(run[k], p).stage;
      stage.snapshot == Loaded(Serial(run[0].stored, run[k].log), stage.now, stage.read)
  {
    RunKeepsInv(run, k);
    assert Sees(TaskOf(run[k], p).stage, run[k].stored, Serial(run[0].stored, run[k].log));
  }

  /** A release script that runs late never deletes the lock of a section still going on. */
  lemma LateReleaseSparesOthers(run: seq<State>, k: nat, token: nat, p: nat)
    requires IsRun(run) && k + 1 < |run| && InTimeBefore(run, k)
    requires StepBy(run[k], run[k + 1], Release(token)) && TaskOf(run[k], p).Critical?
    ensures run[k + 1].lock == run[k].lock && run[k].lock.Some?
  {
    RunKeepsInv(run, k);
    assert Holds(run[k], TaskOf(run[k], p));
  }

  /** The last thing the server wrote, spared by the sections after it. */
  ghost predicate WrittenAndSpared(log: seq<Op>, i: nat, server: ServerId) {
    && i < |log| && !Blank(server.text)
    && log[i].write && log[i].request.Upsert? && log[i].request.server == server
    && log[i].request.sessions > 0 && log[i].now < I64_MAX
    && forall j :: i < j < |log| ==> Spares(log[j], server, NewLease(log[i].request, log[i].now))
  }

  /** No server's unexpired lease is lost to another's section, unless that section's read failed. */
  lemma LeaseSurvives(run: seq<State>, k: nat, i: nat, server: ServerId)
    requires IsRun(run) && k < |run| && InTimeBefore(run, k) && AllIdle(run[k])
    requires WrittenAndSpared(run[k].log, i, server)
    ensures LeaseOf(run[k].stored, server) == Some(NewLease(run[k].log[i].request, run[k].log[i].now))
  {
    SectionsAreSerial(run, k);
    UnexpiredLeaseKept(run[0].stored, run[k].log, i, server);
  }

  // ---------- a section that outlives its lock ----------

  /** No section has lasted longer than `d` so far. */
  ghost predicate LastsAtMost(s: State, d: nat) {
    forall p :: p in s.tasks && s.tasks[p].Critical? ==> s.time + LOCK_MS <= s.tasks[p].deadline + d
  }

  ghost predicate AllLastAtMost(run: seq<State>, d: nat) {
    forall k: nat {:trigger Nth(run, k)} :: k < |run| ==> LastsAtMost(Nth(run, k), d)
  }

  lemma Then(run: seq<State>, action: Action, d: nat) returns (longer: seq<State>)
    requires IsRun(run) && AllLastAtMost(run, d) && Enabled(Last(run), action) && LastsAtMost(Do(Last(run), action), d)
    ensures IsRun(longer) && AllLastAtMost(longer, d) && Last(longer) == Do(Last(run), action)
  {
    longer := run + [Do(Last(run), action)];
    assert StepBy(Last(run), Do(Last(run), action), action);
    Extend(run, Do(Last(run), action));
    forall k: nat | k < |longer|
      ensures LastsAtMost(Nth(longer, k), d)
    {
      if k < |run| {
        assert LastsAtMost(Nth(run, k), d);
      }
    }
  }

  const A := ServerId("a")
  const B := ServerId("b")

  function StoryOf(server: ServerId): Request {
    Upsert(server, 1, 90000, "http")
  }

  const START := State(0, None, Absent, map[], [], {}, [])
  const ASLEEP := State(3000, Some(Lock(1, 3000)), Absent,
                        map[0 := Critical(0, 3000, StoryOf(A), Read(0, true, false, false, map[]))], [1], {}, [])
  const LEASED := State(3000, Some(Lock(2, 6000)), Leases(map[B := NewLease(StoryOf(B), 3000)]),
                        ASLEEP.tasks[1 := Idle], [1, 2], {2}, [Op(1, StoryOf(B), 3000, true, false, true)])

  /** A lease is gone, or is another, that the sections after it should have spared. */
  ghost predicate LosesALease(s: State) {
    && AllIdle(s)
    && exists i: nat, server ::
         WrittenAndSpared(s.log, i, server) && LeaseOf(s.stored, server) != Some(NewLease(s.log[i].request, s.log[i].now))
  }

  /** No run in which sections last at most `d` loses a lease. */
  ghost predicate LeasesAreKept(d: nat) {
    forall run: seq<State> :: IsRun(run) && AllLastAtMost(run, d) ==> !LosesALease(Last(run))
  }

  lemma FallsAsleep(d: nat) returns (run: seq<State>)
    requires d >= LOCK_MS
    ensures IsRun(run) && AllLastAtMost(run, d) && Last(run) == ASLEEP
  {
    run := [START];
    assert IsRun(run);
    run := Then(run, Acquire(0, 1, StoryOf(A)), d);
    run := Then(run, Clock(0, 0), d);
    run := Then(run, Load(0, true), d);
    run := Then(run, Tick(3000), d);
    assert Last(run).tasks == ASLEEP.tasks;
  }

  const READ_BOTH := ASLEEP.(
    lock := Some(Lock(2, 6000)),
    tasks := ASLEEP.tasks[1 := Critical(1, 6000, StoryOf(B), Read(3000, true, false, false, map[]))],
    tokens := [1, 2])

  lemma OtherReads(d: nat) returns (run: seq<State>)
    requires d >= LOCK_MS
    ensures IsRun(run) && AllLastAtMost(run, d) && Last(run) == READ_BOTH
  {
    run := FallsAsleep(d);
    run := Then(run, Acquire(1, 2, StoryOf(B)), d);
    run := Then(run, Clock(1, 3000), d);
    run := Then(run, Load(1, true), d);
    assert Last(run).tasks == READ_BOTH.tasks;
  }

  lemma OtherGetsItsLease(d: nat) returns (run: seq<State>)
    requires d >= LOCK_MS
    ensures IsRun(run) && AllLastAtMost(run, d) && Last(run) == LEASED
  {
    run := OtherReads(d);
    run := Then(run, Persist(1, true), d);
    var lease := NewLease(StoryOf(B), 3000);
    assert Fresh(map[B := lease], 3000) == map[B := lease];
    assert B in map[B := lease];
    assert Last(run).stored == LEASED.stored;
    assert Last(run).tasks == LEASED.tasks;
  }

  /** With a task that sleeps between its read and its write until its lock has expired, no command failing, a lease is lost. */
  lemma LateHolderLosesALease(d: nat) returns (run: seq<State>)
    requires d >= LOCK_MS
    ensures IsRun(run) && AllLastAtMost(run, d) && LosesALease(Last(run))
    ensures Last(run).log == LEASED.log + [Op(0, StoryOf(A), 0, true, false, true)] && LeaseOf(Last(run).stored, B).None?
  {
    run := OtherGetsItsLease(d);
    run := Then(run, Persist(0, true), d);
    var s := Last(run);
    assert "a"[0] != "b"[0] && "b"[0] == 'b' && !Blank(B.text);
    assert B !in Edited(map[], StoryOf(A), 0);
    PersistedOfServer(LEASED.stored, Edited(map[], StoryOf(A), 0), 0, B);
    assert s.log[0].request == StoryOf(B);
    assert WrittenAndSpared(s.log, 0, B);
  }

  /** Every run whose sections last at most `d` keeps every lease, exactly when `d` is within the lock. */
  lemma LeasesAreKeptIff(d: nat)
    ensures LeasesAreKept(d) <==> d < 3000
  {
    if d < LOCK_MS {
      forall run: seq<State> | IsRun(run) && AllLastAtMost(run, d)
        ensures !LosesALease(Last(run))
      {
        forall j: nat | j < |run| - 1
          ensures InTime(Nth(run, j))
        {
          assert LastsAtMost(Nth(run, j), d);
        }
        forall i: nat, server | AllIdle(Last(run)) && WrittenAndSpared(Last(run).log, i, server)
          ensures LeaseOf(Last(run).stored, server) == Some(NewLease(Last(run).log[i].request, Last(run).log[i].now))
        {
          LeaseSurvives(run, |run| - 1, i, server);
        }
      }
    } else {
      var run := LateHolderLosesALease(d);
    }
  }
}
