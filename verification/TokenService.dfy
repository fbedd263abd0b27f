/**
 The token code itself (auth_token.rs) for one user: one task, with every command allowed to fail and other
 tasks, clocks and expiries free to move between any two of its commands.

 The ghost field `run` records the states gone through; `Valid` says they form a run of the machine.
 */
module TokenService {
  import opened Options
  import opened RefreshTokens
  import Tokens

  /** What `parse_token` makes of the refresh token presented. */
  datatype Presented = Forged | Genuine(jti: nat, exp: int, isRefresh: bool, rememberMe: bool)

  datatype Outcome = Paired(jti: nat) | Unauthorized(verdict: Tokens.Verdict) | Failed

  predicate ByOthers(action: Action, me: nat) {
    match action
    case Login(p, _) => p != me
    case Present(p, _, _, _) => p != me
    case Build(p, _) => p != me
    case Store(p, _) => p != me
    case Crash(p) => p != me
    case _ => true
  }

  /** What is never taken back. */
  ghost predicate Later(s: State, s': State) {
    && s.consumed <= s'.consumed
    && s.time <= s'.time
    && s.revocations <= s'.revocations
    && forall jti :: jti in s.families ==> jti in s'.families && s'.families[jti] == s.families[jti]
  }

  lemma StepIsLater(s: State, s': State, action: Action)
    requires Inv(s) && StepBy(s, s', action)
    ensures Later(s, s')
  {
  }

  class Service {
    const me: nat
    const refreshMs: nat
    const rememberMs: nat
    /** No command of this task fails. */
    const reliable: bool
    var shared: State
    ghost var run: seq<State>

    ghost predicate Valid()
      reads this
    {
      IsRun(run) && Last(run) == shared && Inv(shared)
    }

    predicate Free()
      reads this
    {
      TaskOf(shared, me).Idle?
    }

    constructor (me: nat, refreshMs: nat, rememberMs: nat, reliable: bool)
      ensures Valid() && Free() && this.me == me && this.reliable == reliable
      ensures this.refreshMs == refreshMs && this.rememberMs == rememberMs
    {
      this.me, this.refreshMs, this.rememberMs, this.reliable := me, refreshMs, rememberMs, reliable;
      shared := EMPTY;
      run := [EMPTY];
    }

    method Perform(action: Action)
      requires Valid() && Enabled(shared, action)
      modifies this
      ensures Valid() && old(run) <= run && shared == Do(old(shared), action) && Later(old(shared), shared)
    {
      run := Extend(EMPTY, run, action);
      ghost var before := shared;
      shared := Do(shared, action);
      assert StepBy(before, shared, action);
      StepIsLater(before, shared, action);
      StepKeepsInv(before, shared);
    }

    /** Any number of steps of other tasks, of time, and of revocations. */
    method Others()
      requires Valid()
      modifies this
      ensures Valid() && old(run) <= run && TaskOf(shared, me) == TaskOf(old(shared), me) && Later(old(shared), shared)
    {
      var steps :| 0 <= steps;
      for i := 0 to steps
        invariant Valid() && old(run) <= run && TaskOf(shared, me) == TaskOf(old(shared), me) && Later(old(shared), shared)
      {
        var action: Action := *;
        if ByOthers(action, me) && Enabled(shared, action) {
          Perform(action);
        }
      }
    }

    /** A uuid never drawn before. */
    method FreshUuid() returns (uuid: nat)
      ensures uuid !in shared.used
    {
      var rest := shared.used;
      uuid := 0;
      while rest != {}
        invariant rest <= shared.used
        invariant forall u :: u in shared.used && u !in rest ==> u < uuid
      {
        var u :| u in rest;
        uuid := Max(uuid, u + 1);
        rest := rest - {u};
      }
    }

    /** The pair is stored for the longer time when the client is to be remembered. */
    predicate StoredNow(jti: nat, rememberMe: bool)
      reads this
    {
      shared.key == Some(Stored(jti, shared.time + if rememberMe then rememberMs else refreshMs))
    }

    /** The end of `issue_token_pair`: the pair goes to the client only if its jti was stored without an error. */
    method StorePair(rememberMe: bool) returns (outcome: Outcome)
      requires Valid() && TaskOf(shared, me).Issuing?
      modifies this
      ensures Valid() && old(run) <= run && Free() && Later(old(shared), shared)
      ensures outcome == Failed || (outcome == Paired(TaskOf(old(shared), me).jti) && StoredNow(outcome.jti, rememberMe))
      ensures reliable ==> outcome.Paired?
    {
      Others();
      var jti := TaskOf(shared, me).jti;
      var stored, answered: bool := *, *;
      stored, answered := stored || reliable, answered || reliable;
      if stored {
        Perform(Store(me, if rememberMe then rememberMs else refreshMs));
      } else {
        Perform(Crash(me));
      }
      outcome := if stored && answered then Paired(jti) else Failed;
    }

    /** `issue_token_pair` of a login. */
    method IssueTokenPair(rememberMe: bool) returns (outcome: Outcome)
      requires Valid() && Free()
      modifies this
      ensures Valid() && old(run) <= run && Free() && Later(old(shared), shared)
      ensures !outcome.Unauthorized? && (reliable ==> outcome.Paired?)
      ensures outcome.Paired? ==>
        && outcome.jti in shared.families && shared.families[outcome.jti] >= old(shared.logins)
        && outcome.jti !in old(shared.used) && StoredNow(outcome.jti, rememberMe)
    {
      var jti := FreshUuid();
      Perform(Login(me, jti));
      outcome := StorePair(rememberMe);
    }

    /** The compare-and-set; an answer lost on its way back counts as a refusal. */
    method Swap(jti: nat) returns (ok: bool)
      requires Valid() && Free() && jti in shared.families
      modifies this
      ensures Valid() && old(run) <= run && Later(old(shared), shared)
      ensures !ok ==> Free()
      ensures ok ==> TaskOf(shared, me) == Swapped(old(shared).families[jti])
      ensures ok ==> shared.consumed == old(shared).consumed + [jti] && jti !in old(shared).consumed
      ensures ok ==> shared.key.Some? && shared.key.value.jti !in old(shared).used && shared.key.value.expires == shared.time + refreshMs
      ensures ok ==> Current(old(shared)) == Some(jti)
      ensures reliable && Current(old(shared)) == Some(jti) ==> ok
    {
      var cas := FreshUuid();
      var current := Current(shared);
      var swapped, answered: bool := *, *;
      swapped, answered := swapped || reliable, answered || reliable;
      if swapped {
        Perform(Present(me, jti, cas, refreshMs));
      }
      ok := current == Some(jti) && swapped && answered;
      if !ok {
        Perform(Crash(me));
      }
    }

    /** `issue_token_pair` of a refresh: a pair of the same login. */
    method IssueNext(rememberMe: bool) returns (outcome: Outcome)
      requires Valid() && TaskOf(shared, me).Swapped?
      modifies this
      ensures Valid() && old(run) <= run && Free() && Later(old(shared), shared)
      ensures !outcome.Unauthorized? && (reliable ==> outcome.Paired?)
      ensures outcome.Paired? ==>
        && outcome.jti in shared.families && shared.families[outcome.jti] == TaskOf(old(shared), me).family
        && StoredNow(outcome.jti, rememberMe)
    {
      Others();
      var jti := FreshUuid();
      Perform(Build(me, jti));
      outcome := StorePair(rememberMe);
    }

    /** At some moment of the call the token was not the current one. */
    ghost predicate WasNotCurrent(from: nat, jti: nat)
      reads this
    {
      exists k: nat :: from <= k < |run| && Current(Nth(run, k)) != Some(jti)
    }

    /**
     `refresh_token_pair`: a token is good for one pair of its own login, and only while its jti is the current
     one. Unless a command fails, a token that is genuine, unexpired and for refreshing is refused only if it was
     not current at some moment of the call.
     */
    method RefreshTokenPair(token: Presented) returns (outcome: Outcome)
      requires Valid() && Free()
      requires token.Genuine? && token.isRefresh ==> token.jti in shared.families
      modifies this
      ensures Valid() && old(run) <= run && Free() && Later(old(shared), shared)
      ensures token.Forged? ==> outcome == Unauthorized(Tokens.TokenInvalid) && run == old(run)
      ensures token.Genuine? && token.exp * 1000 <= old(shared.time) ==>
        outcome == Unauthorized(Tokens.TokenExpired) && run == old(run)
      ensures token.Genuine? && token.exp * 1000 > old(shared.time) && !token.isRefresh ==>
        outcome == Unauthorized(Tokens.TokenInvalid) && run == old(run)
      ensures outcome.Paired? ==>
        && token.Genuine? && token.isRefresh && old(shared.time) < token.exp * 1000
        && token.jti in shared.consumed && token.jti !in old(shared.consumed)
        && outcome.jti in shared.families && shared.families[outcome.jti] == shared.families[token.jti]
        && StoredNow(outcome.jti, token.rememberMe)
      ensures reliable && token.Genuine? && token.isRefresh && old(shared.time) < token.exp * 1000 && !outcome.Paired? ==>
        outcome == Unauthorized(Tokens.TokenInvalid) && WasNotCurrent(|old(run)| - 1, token.jti)
    {
      if token.Forged? {
        return Unauthorized(Tokens.TokenInvalid);
      }
      if token.exp * 1000 <= shared.time {
        return Unauthorized(Tokens.TokenExpired);
      }
      if !token.isRefresh {
        return Unauthorized(Tokens.TokenInvalid);
      }
      Others();
      ghost var at := |run| - 1;
      ghost var current := Current(shared);
      var swapped := Swap(token.jti);
      if !swapped {
        assert Current(Nth(run, at)) == current;
        return Unauthorized(Tokens.TokenInvalid);
      }
      ghost var last := |shared.consumed| - 1;
      assert shared.consumed[last] == token.jti;
      outcome := IssueNext(token.rememberMe);
      assert shared.consumed[last] == token.jti;
    }

    /** `internal_revoke_user_tokens`: the record for access tokens first, then the end of refreshing. */
    method RevokeUserTokens() returns (ok: bool)
      requires Valid() && Free()
      modifies this
      ensures Valid() && old(run) <= run && Free() && Later(old(shared), shared)
      ensures reliable ==> ok
      ensures ok ==>
        && shared.key.None? && (RevokesAll(shared) <==> !InFlight(shared))
        && exists i :: |old(shared.revocations)| <= i < |shared.revocations| && shared.revocations[i].after == old(shared.time)
    {
      var now := shared.time;
      Others();
      var marked: bool := *;
      if !marked && !reliable {
        return false;
      }
      ghost var i := |shared.revocations|;
      Perform(Mark(now));
      assert shared.revocations[i].after == now;
      Others();
      var deleted: bool := *;
      if !deleted && !reliable {
        return false;
      }
      Perform(Revoke);
      RevocationIsFinalIff(shared);
      ok := true;
    }
  }
}
