/**
 Rotation of one user's refresh tokens (auth_token.rs): logins, refreshes and revocations over one Redis key,
 cut at every command, with any number of tasks that may stop anywhere.

 A refresh token is its jti; one can be presented only once it has been built, since its signature cannot be
 forged. A presentation that fails before it reaches the key changes nothing and is no step.
 */
module RefreshTokens {
  import opened Options
  import Tokens

  datatype Stored = Stored(jti: nat, expires: nat)

  /** After the compare-and-set a new pair is still to be built; after that, its jti is still to be stored. */
  datatype Task = Idle | Swapped(family: nat) | Issuing(jti: nat, family: nat)

  /**
   `families` gives each built refresh token the login it goes back to; `consumed` are the tokens whose
   compare-and-set succeeded, in that order; `used` every uuid drawn; `revocations` the records of the user's
   revocations, which only access tokens are checked against.
   */
  datatype State = State(
    time: nat,
    key: Option<Stored>,
    tasks: map<nat, Task>,
    used: set<nat>,
    families: map<nat, nat>,
    logins: nat,
    consumed: seq<nat>,
    revocations: seq<Tokens.Revocation>)

  const EMPTY := State(0, None, map[], {}, map[], 0, [], [])

  function TaskOf(s: State, p: nat): Task {
    if p in s.tasks then s.tasks[p] else Idle
  }

  /** What `GET` of the key answers. */
  function Current(s: State): Option<nat> {
    if s.key.Some? && s.time < s.key.value.expires then Some(s.key.value.jti) else None
  }

  datatype Action =
    | Stutter
    | Tick(time: nat)
    | Login(p: nat, jti: nat)
    | Present(p: nat, jti: nat, cas: nat, ms: nat)
    | Build(p: nat, jti: nat)
    | Store(p: nat, ms: nat)
    | Mark(after: nat)
    | Revoke
    | Crash(p: nat)

  predicate Enabled(s: State, action: Action) {
    match action
    case Stutter => true
    case Tick(time) => s.time <= time
    case Login(p, jti) => TaskOf(s, p).Idle? && jti !in s.used
    case Present(p, jti, cas, _) => TaskOf(s, p).Idle? && jti in s.families && cas !in s.used
    case Build(p, jti) => TaskOf(s, p).Swapped? && jti !in s.used
    case Store(p, _) => TaskOf(s, p).Issuing?
    case Mark(after) => after <= s.time
    case Revoke => true
    case Crash(_) => true
  }

  function Do(s: State, action: Action): State
    requires Enabled(s, action)
  {
    match action
    case Stutter => s
    case Tick(time) => s.(time := time)
    case Login(p, jti) =>
      s.(tasks := s.tasks[p := Issuing(jti, s.logins)],
         used := s.used + {jti},
         families := s.families[jti := s.logins],
         logins := s.logins + 1)
    case Present(p, jti, cas, ms) =>
      var drawn := s.(used := s.used + {cas});
      if Current(s) != Some(jti) then drawn
      else drawn.(key := Some(Stored(cas, s.time + ms)),
                  tasks := s.tasks[p := Swapped(s.families[jti])],
                  consumed := s.consumed + [jti])
    case Build(p, jti) =>
      var family := TaskOf(s, p).family;
      s.(tasks := s.tasks[p := Issuing(jti, family)], used := s.used + {jti}, families := s.families[jti := family])
    case Store(p, ms) =>
      s.(key := Some(Stored(TaskOf(s, p).jti, s.time + ms)), tasks := s.tasks[p := Idle])
    case Mark(after) => s.(revocations := s.revocations + [Tokens.Revocation(after, s.time)])
    case Revoke => s.(key := None)
    case Crash(p) => s.(tasks := s.tasks[p := Idle])
  }

  ghost predicate StepBy(s: State, s': State, action: Action) {
    Enabled(s, action) && s' == Do(s, action)
  }

  ghost predicate Step(s: State, s': State) {
    exists action: Action :: StepBy(s, s', action)
  }

  // ---------- what every step keeps ----------

  ghost predicate UuidsRight(s: State) {
    && (forall jti :: jti in s.families ==> jti in s.used && s.families[jti] < s.logins)
    && (s.key.Some? ==> s.key.value.jti in s.used)
  }

  ghost predicate ConsumedRight(s: State) {
    && (forall i, j :: 0 <= i < j < |s.consumed| ==> s.consumed[i] != s.consumed[j])
    && (forall jti :: jti in s.consumed ==> jti in s.families)
    && (s.key.Some? ==> s.key.value.jti !in s.consumed)
  }

  /** A pair about to be stored was built, and never stored or consumed before. */
  ghost predicate TaskRight(s: State, task: Task) {
    match task
    case Idle => true
    case Swapped(family) => family < s.logins
    case Issuing(jti, family) =>
      && jti in s.families && s.families[jti] == family
      && jti !in s.consumed
      && (s.key.Some? ==> s.key.value.jti != jti)
  }

  ghost predicate TasksRight(s: State) {
    && (forall p :: p in s.tasks ==> TaskRight(s, s.tasks[p]))
    && (forall p, q :: p in s.tasks && q in s.tasks && p != q && s.tasks[p].Issuing? && s.tasks[q].Issuing? ==>
          s.tasks[p].jti != s.tasks[q].jti)
  }

  ghost predicate RevocationsRight(s: State) {
    && (forall i, j :: 0 <= i < j < |s.revocations| ==> s.revocations[i].stored <= s.revocations[j].stored)
    && (forall i :: 0 <= i < |s.revocations| ==> s.revocations[i].after <= s.revocations[i].stored <= s.time)
  }

  ghost predicate Inv(s: State) {
    UuidsRight(s) && ConsumedRight(s) && TasksRight(s) && RevocationsRight(s)
  }

  lemma UuidsKept(s: State, s': State, action: Action)
    requires Inv(s) && StepBy(s, s', action)
    ensures UuidsRight(s')
  {
  }

  lemma ConsumedKept(s: State, s': State, action: Action)
    requires Inv(s) && StepBy(s, s', action)
    ensures ConsumedRight(s')
  {
  }

  lemma TasksKept(s: State, s': State, action: Action)
    requires Inv(s) && StepBy(s, s', action)
    ensures TasksRight(s')
  {
  }

  lemma RevocationsKept(s: State, s': State, action: Action)
    requires Inv(s) && StepBy(s, s', action)
    ensures RevocationsRight(s')
  {
  }

  lemma StepKeepsInv(s: State, s': State)
    requires Inv(s) && Step(s, s')
    ensures Inv(s')
  {
    var action: Action :| StepBy(s, s', action);
    UuidsKept(s, s', action);
    ConsumedKept(s, s', action);
    TasksKept(s, s', action);
    RevocationsKept(s, s', action);
  }

  // ---------- every run ----------

  function Nth(run: seq<State>, k: nat): State
    requires k < |run|
  {
    run[k]
  }

  function Last(run: seq<State>): State
    requires run != []
  {
    run[|run| - 1]
  }

  /** A run from a state on. */
  ghost predicate Continues(s: State, run: seq<State>) {
    && run != []
    && run[0] == s
    && forall k: nat {:trigger Nth(run, k)} :: k < |run| - 1 ==> Step(Nth(run, k), Nth(run, k + 1))
  }

  ghost predicate IsRun(run: seq<State>) {
    Continues(EMPTY, run)
  }

  lemma Extend(s: State, run: seq<State>, action: Action) returns (longer: seq<State>)
    requires Continues(s, run) && Enabled(Last(run), action)
    ensures Continues(s, longer) && longer == run + [Do(Last(run), action)]
  {
    longer := run + [Do(Last(run), action)];
    assert StepBy(Last(run), Do(Last(run), action), action);
    forall k: nat | k < |longer| - 1
      ensures Step(Nth(longer, k), Nth(longer, k + 1))
    {
      if k < |run| - 1 {
        assert Step(Nth(run, k), Nth(run, k + 1));
      }
    }
  }

  lemma {:induction false} RunKeepsInv(s: State, run: seq<State>, k: nat)
    requires Inv(s) && Continues(s, run) && k < |run|
    ensures Inv(run[k])
  {
    if k > 0 {
      RunKeepsInv(s, run, k - 1);
      assert Step(Nth(run, k - 1), Nth(run, k - 1 + 1));
      StepKeepsInv(run[k - 1], run[k]);
    }
  }

  /** A refresh token refreshes at most once, over all interleavings of refreshes, logins and revocations. */
  lemma RefreshesAtMostOnce(run: seq<State>, k: nat, i: nat, j: nat)
    requires IsRun(run) && k < |run| && i < j < |run[k].consumed|
    ensures run[k].consumed[i] != run[k].consumed[j]
  {
    RunKeepsInv(EMPTY, run, k);
  }

  lemma {:induction false} ConsumedGrows(s: State, run: seq<State>, k: nat, j: nat)
    requires Continues(s, run) && k <= j < |run|
    ensures run[k].consumed <= run[j].consumed && run[k].logins <= run[j].logins
  {
    if k < j {
      ConsumedGrows(s, run, k, j - 1);
      assert Step(Nth(run, j - 1), Nth(run, j - 1 + 1));
    }
  }

  /** A consumed token is never stored again, nor is it about to be. */
  lemma ConsumedStaysOut(run: seq<State>, k: nat, j: nat, jti: nat, p: nat)
    requires IsRun(run) && k <= j < |run| && jti in run[k].consumed
    ensures Current(run[j]) != Some(jti)
    ensures TaskOf(run[j], p).Issuing? ==> TaskOf(run[j], p).jti != jti
  {
    ConsumedGrows(EMPTY, run, k, j);
    RunKeepsInv(EMPTY, run, j);
    if p in run[j].tasks {
      assert TaskRight(run[j], run[j].tasks[p]);
    }
  }

  // ---------- revocation ----------

  predicate InFlight(s: State) {
    exists p :: p in s.tasks && !s.tasks[p].Idle?
  }

  /** From here on, everything that can still refresh goes back to login `n` or a later one. */
  ghost predicate OnlySince(s: State, n: nat, past: nat) {
    && n <= s.logins && past <= |s.consumed|
    && (s.key.Some? && s.key.value.jti in s.families ==> s.families[s.key.value.jti] >= n)
    && (forall p :: p in s.tasks && !s.tasks[p].Idle? ==> s.tasks[p].family >= n)
    && (forall i :: past <= i < |s.consumed| ==> s.consumed[i] in s.families && s.families[s.consumed[i]] >= n)
  }

  lemma OnlySinceKept(s: State, s': State, action: Action, n: nat, past: nat)
    requires Inv(s) && OnlySince(s, n, past) && StepBy(s, s', action)
    ensures OnlySince(s', n, past)
  {
  }

  lemma {:induction false} OnlySinceForGood(s: State, run: seq<State>, k: nat, n: nat, past: nat)
    requires Inv(s) && OnlySince(s, n, past) && Continues(s, run) && k < |run|
    ensures OnlySince(run[k], n, past)
  {
    if k > 0 {
      OnlySinceForGood(s, run, k - 1, n, past);
      RunKeepsInv(s, run, k - 1);
      assert Step(Nth(run, k - 1), Nth(run, k - 1 + 1));
      var action: Action :| StepBy(run[k - 1], run[k], action);
      OnlySinceKept(run[k - 1], run[k], action, n, past);
    }
  }

  /** What has refreshed between the two states belongs to logins that had not begun in the first. */
  ghost predicate NewLoginsOnly(s: State, s': State) {
    forall i :: |s.consumed| <= i < |s'.consumed| ==>
      s'.consumed[i] in s'.families && s'.families[s'.consumed[i]] >= s.logins
  }

  ghost predicate RevokesAll(s: State) {
    forall run: seq<State> :: Continues(s, run) ==> NewLoginsOnly(s, Last(run))
  }

  lemma RevokesAllWhenQuiet(s: State)
    requires Inv(s) && s.key.None? && !InFlight(s)
    ensures RevokesAll(s)
  {
    forall run: seq<State> | Continues(s, run)
      ensures NewLoginsOnly(s, Last(run))
    {
      OnlySinceForGood(s, run, |run| - 1, s.logins, |s.consumed|);
    }
  }

  lemma {:induction false} UnusedExists(used: set<nat>) returns (uuid: nat)
    ensures forall u :: u in used ==> u < uuid
  {
    uuid := 0;
    if used != {} {
      var u :| u in used;
      var above := UnusedExists(used - {u});
      uuid := Max(above, u + 1);
      assert forall v :: v in used ==> v == u || v in used - {u};
    }
  }

  lemma SwappedCanBuild(s: State, p: nat) returns (run: seq<State>)
    requires Inv(s) && TaskOf(s, p).Swapped?
    ensures Continues(s, run) && Last(run).logins == s.logins && Last(run).consumed == s.consumed
    ensures TaskOf(Last(run), p).Issuing? && TaskOf(Last(run), p).family < s.logins
  {
    run := [s];
    var jti := UnusedExists(s.used);
    run := Extend(s, run, Build(p, jti));
  }

  lemma IssuingCanRefresh(s: State, run: seq<State>, p: nat) returns (longer: seq<State>)
    requires Inv(s) && Continues(s, run) && TaskOf(Last(run), p).Issuing? && TaskOf(Last(run), p).family < s.logins
    requires Last(run).consumed == s.consumed
    ensures Continues(s, longer) && |Last(longer).consumed| == |s.consumed| + 1
    ensures var jti := Last(longer).consumed[|s.consumed|];
      jti in Last(longer).families && Last(longer).families[jti] < s.logins
  {
    RunKeepsInv(s, run, |run| - 1);
    var before := Last(run);
    var jti := TaskOf(before, p).jti;
    longer := Extend(s, run, Store(p, 1));
    var cas := UnusedExists(before.used);
    longer := Extend(s, longer, Present(p, jti, cas, 1));
    assert Last(longer).consumed == s.consumed + [jti];
  }

  /**
   Once the key is deleted, no token of an earlier login ever refreshes again, exactly when no login or refresh
   is then between its first command and the storing of its pair.
   */
  lemma RevocationIsFinalIff(s: State)
    requires Inv(s) && s.key.None?
    ensures RevokesAll(s) <==> !InFlight(s)
  {
    if InFlight(s) {
      var p :| p in s.tasks && !s.tasks[p].Idle?;
      assert TaskRight(s, s.tasks[p]);
      var run := [s];
      if s.tasks[p].Swapped? {
        run := SwappedCanBuild(s, p);
      }
      run := IssuingCanRefresh(s, run, p);
      assert !NewLoginsOnly(s, Last(run));
    } else {
      RevokesAllWhenQuiet(s);
    }
  }

  /** The same for the revocation of a run: its deletion of the key. */
  lemma RevocationInRunIsFinalIff(run: seq<State>, k: nat)
    requires IsRun(run) && k + 1 < |run| && StepBy(run[k], run[k + 1], Revoke)
    ensures RevokesAll(run[k + 1]) <==> !InFlight(run[k])
  {
    RunKeepsInv(EMPTY, run, k + 1);
    RevocationIsFinalIff(run[k + 1]);
  }

  /**
   An access token issued before a revocation of the run is refused by every check that begins once the record
   is stored, as long as the check takes at most `slack` and the records outlive the tokens by that.
   */
  lemma RevokedForGoodInRuns(run: seq<State>, k: nat, i: nat, listed: seq<Tokens.Listed>, ttl: nat, token: Tokens.Claims,
                             issued: nat, lifetime: int, slack: nat, parsed: nat, listing: nat, checked: nat)
    requires IsRun(run) && k < |run| && i < |run[k].revocations| && Tokens.RisingAfter(run[k].revocations)
    requires token == Tokens.Build(token.user, token.jti, issued, lifetime) && issued <= run[k].revocations[i].after
    requires lifetime + slack <= ttl * 1000
    requires run[k].revocations[i].stored <= parsed <= checked <= parsed + slack
    ensures var verdict := Tokens.Validate(Tokens.Records(run[k].revocations, listed, ttl), token, parsed, listing, checked);
      verdict.TokenExpired? || verdict.TokenInvalid?
  {
    RunKeepsInv(EMPTY, run, k);
    Tokens.RevokedForGood(
      Tokens.Records(run[k].revocations, listed, ttl), i, token, issued, lifetime, slack, parsed, listing, checked);
  }

  /** A pair that has been stored is current for the time it was stored for, as long as nothing else happens to the key. */
  lemma PairLasts(s: State, p: nat, ms: nat, t: nat)
    requires TaskOf(s, p).Issuing? && s.time <= t
    ensures var stored := Do(s, Store(p, ms));
      Current(Do(stored, Tick(t))) == if t < s.time + ms then Some(TaskOf(s, p).jti) else None
  {
  }
}
