/**
 Access tokens over time (auth_token.rs): claims in whole seconds, revocations in milliseconds, and records
 of them that expire. `exp` and `iat` are those of sections 4.1.4 and 4.1.6 of RFC 7519.

 The clock is in milliseconds since the epoch, and never before it.
 */
module Tokens {
  import opened Options

  /** A signed token cannot be forged, so it is its claims. */
  datatype Claims = Claims(user: int, jti: nat, iat: int, exp: int)

  /** Division of `i64`, which truncates towards zero. */
  function Quotient(a: int, b: nat): int
    requires b > 0
  {
    if a >= 0 then a / b else -(-a / b)
  }

  /** `build_token`. */
  function Build(user: int, jti: nat, now: nat, lifetime: int): Claims {
    Claims(user, jti, Quotient(now, 1000), Quotient(now + lifetime, 1000))
  }

  predicate Expired(token: Claims, now: nat) {
    token.exp * 1000 <= now
  }

  // ---------- the records of revocations ----------

  /** The clock read by the server that revokes, and the instant at which Redis stored it. */
  datatype Revocation = Revocation(after: nat, stored: nat)

  datatype Listed = Listed(token: Claims, stored: nat)

  /** All records of one user ever written, in the order of writing; both live `ttl` seconds. */
  datatype Records = Records(users: seq<Revocation>, tokens: seq<Listed>, ttl: nat)

  ghost predicate InOrder(records: Records) {
    && (forall i, j :: 0 <= i < j < |records.users| ==> records.users[i].stored <= records.users[j].stored)
    && (forall i :: 0 <= i < |records.users| ==> records.users[i].after <= records.users[i].stored)
  }

  /** A later record of the user replaces the earlier ones, whatever it says. */
  function LatestAt(users: seq<Revocation>, now: nat): Option<Revocation> {
    if users == [] then None
    else if users[|users| - 1].stored <= now then Some(users[|users| - 1])
    else LatestAt(users[..|users| - 1], now)
  }

  predicate UserRevoked(records: Records, token: Claims, now: nat) {
    var latest := LatestAt(records.users, now);
    latest.Some? && now < latest.value.stored + records.ttl * 1000 && token.iat * 1000 <= latest.value.after
  }

  predicate TokenListed(records: Records, token: Claims, now: nat) {
    exists i :: 0 <= i < |records.tokens| && records.tokens[i].token == token
                && records.tokens[i].stored <= now < records.tokens[i].stored + records.ttl * 1000
  }

  datatype Verdict = Accepted | TokenExpired | TokenInvalid

  /**
   `validate_access_token_result` with its revocation check: the clock is read when the token is parsed, the
   two records later.
   */
  function Validate(records: Records, token: Claims, parsed: nat, listing: nat, checked: nat): Verdict {
    if Expired(token, parsed) then TokenExpired
    else if TokenListed(records, token, listing) || UserRevoked(records, token, checked) then TokenInvalid
    else Accepted
  }

  /** The three verdicts told apart: expired comes first, and a record counts for its time to live from when it was stored. */
  lemma VerdictIs(records: Records, token: Claims, parsed: nat, listing: nat, checked: nat)
    ensures var verdict := Validate(records, token, parsed, listing, checked);
      && (verdict == TokenExpired <==> token.exp * 1000 <= parsed)
      && (verdict == TokenInvalid <==>
            && parsed < token.exp * 1000
            && (|| (exists i :: 0 <= i < |records.tokens| && records.tokens[i].token == token
                      && records.tokens[i].stored <= listing < records.tokens[i].stored + records.ttl * 1000)
                || (LatestAt(records.users, checked).Some?
                    && checked < LatestAt(records.users, checked).value.stored + records.ttl * 1000
                    && token.iat * 1000 <= LatestAt(records.users, checked).value.after)))
  {
  }

  /** Division drops the fraction, on either side of zero. */
  lemma QuotientDropsFraction(a: int, b: nat)
    requires b > 0
    ensures a >= 0 ==> 0 <= a - Quotient(a, b) * b < b
    ensures a <= 0 ==> 0 <= Quotient(a, b) * b - a < b
  {
  }

  // ---------- seconds against milliseconds ----------

  /** A token is hit by a revocation exactly when it was issued no later than the second of the revocation. */
  lemma RevokedIffNoLaterSecond(user: int, jti: nat, issued: nat, lifetime: int, after: nat)
    ensures Build(user, jti, issued, lifetime).iat * 1000 <= after <==> issued / 1000 <= after / 1000
  {
  }

  /** Whatever its claims say, a token lives no longer than asked, and less than a second shorter. */
  lemma ExpiryWithinASecond(user: int, jti: nat, issued: nat, lifetime: nat)
    ensures var exp := Build(user, jti, issued, lifetime).exp * 1000; issued + lifetime - 1000 < exp <= issued + lifetime
    ensures Build(user, jti, issued, lifetime).user == user && Build(user, jti, issued, lifetime).jti == jti
  {
  }

  // ---------- which record is in force ----------

  lemma {:induction false} LatestAtIs(users: seq<Revocation>, now: nat)
    ensures match LatestAt(users, now)
      case None => forall i :: 0 <= i < |users| ==> now < users[i].stored
      case Some(r) => exists i :: 0 <= i < |users| && users[i] == r && r.stored <= now
                        && forall j :: i < j < |users| ==> now < users[j].stored
  {
    if users != [] {
      var n := |users| - 1;
      if users[n].stored > now {
        LatestAtIs(users[..n], now);
        if LatestAt(users, now).Some? {
          var i :| 0 <= i < n && users[..n][i] == LatestAt(users, now).value && users[i].stored <= now
            && forall j :: i < j < n ==> now < users[..n][j].stored;
          assert forall j :: i < j < |users| ==> now < (if j < n then users[..n][j] else users[n]).stored;
        }
      }
    }
  }

  /** Revocations stored in the order of the clocks they read. */
  ghost predicate RisingAfter(users: seq<Revocation>) {
    forall i, j :: 0 <= i < j < |users| ==> users[i].after <= users[j].after
  }

  // ---------- revoked for good ----------

  /**
   Every token issued at or before a user's revocation is refused at every later instant, as long as a check
   takes at most `slack` and the records outlive the tokens by that: the record is alive or the token expired.
   */
  lemma RevokedForGood(records: Records, i: nat, token: Claims, issued: nat, lifetime: int, slack: nat, parsed: nat, listing: nat, checked: nat)
    requires InOrder(records) && RisingAfter(records.users) && i < |records.users|
    requires token == Build(token.user, token.jti, issued, lifetime) && issued <= records.users[i].after
    requires lifetime + slack <= records.ttl * 1000
    requires records.users[i].stored <= parsed <= checked <= parsed + slack
    ensures Validate(records, token, parsed, listing, checked) != Accepted
  {
    LatestAtIs(records.users, checked);
    var latest := LatestAt(records.users, checked).value;
    assert issued <= latest.after <= latest.stored;
    assert token.iat * 1000 <= issued;
    assert token.exp * 1000 <= Max(issued + lifetime, 0);
  }

  /** A token revoked by itself is refused in the same way. */
  lemma ListedForGood(records: Records, i: nat, token: Claims, issued: nat, lifetime: int, slack: nat, parsed: nat, listing: nat, checked: nat)
    requires i < |records.tokens| && records.tokens[i].token == token && issued <= records.tokens[i].stored
    requires token == Build(token.user, token.jti, issued, lifetime)
    requires lifetime + slack <= records.ttl * 1000
    requires records.tokens[i].stored <= parsed <= listing <= parsed + slack
    ensures Validate(records, token, parsed, listing, checked) != Accepted
  {
  }

  /** A token issued a second or more after every revocation is never refused by that check. */
  lemma LaterTokenNotRevoked(records: Records, user: int, jti: nat, issued: nat, lifetime: int, now: nat)
    requires forall i :: 0 <= i < |records.users| ==> records.users[i].after + 1000 <= issued
    ensures !UserRevoked(records, Build(user, jti, issued, lifetime), now)
  {
    LatestAtIs(records.users, now);
  }

  // ---------- exactly when it is for good ----------

  /** Refused by every check that begins at `from` or later and takes at most `slack`. */
  ghost predicate RefusedForGood(records: Records, token: Claims, from: nat, slack: nat) {
    forall parsed: nat, listing: nat, checked: nat ::
      from <= parsed <= listing <= checked <= parsed + slack ==> Validate(records, token, parsed, listing, checked) != Accepted
  }

  /** When the record `i` stops being the user's latest, or `end` if that is earlier. */
  function ReignEnd(users: seq<Revocation>, i: nat, end: int): int
    requires i < |users|
  {
    if i + 1 < |users| && users[i + 1].stored < end then users[i + 1].stored else end
  }

  predicate Reigns(users: seq<Revocation>, i: nat, from: int, end: int)
    requires i < |users|
  {
    Max(users[i].stored, from) < ReignEnd(users, i, end)
  }

  /** A record is there at `from`, and each one in force before `end` hits the token and lives until it is replaced. */
  ghost predicate CoveredUntil(records: Records, token: Claims, from: nat, end: int) {
    && |records.users| > 0 && records.users[0].stored <= from
    && forall i :: 0 <= i < |records.users| && Reigns(records.users, i, from, end) ==>
         && token.iat * 1000 <= records.users[i].after
         && ReignEnd(records.users, i, end) <= records.users[i].stored + records.ttl * 1000
  }

  lemma {:induction false} LatestAtIndex(users: seq<Revocation>, now: nat, i: nat)
    requires i < |users| && users[i].stored <= now && forall j :: i < j < |users| ==> now < users[j].stored
    ensures LatestAt(users, now) == Some(users[i])
  {
    if i + 1 < |users| {
      assert forall j :: i < j < |users| - 1 ==> users[..|users| - 1][j] == users[j];
      LatestAtIndex(users[..|users| - 1], now, i);
    }
  }

  /** The record that reigns at an instant is the latest one. */
  lemma ReigningIsLatest(records: Records, i: nat, now: nat, from: nat, end: int)
    requires InOrder(records) && i < |records.users|
    requires Max(records.users[i].stored, from) <= now < ReignEnd(records.users, i, end)
    ensures LatestAt(records.users, now) == Some(records.users[i])
  {
    LatestAtIndex(records.users, now, i);
  }

  lemma {:induction false} SomeoneReigns(users: seq<Revocation>, now: nat) returns (i: nat)
    requires |users| > 0 && users[0].stored <= now
    ensures i < |users| && users[i].stored <= now && forall j :: i < j < |users| ==> now < users[j].stored
  {
    i := |users| - 1;
    if users[i].stored > now {
      var init := users[..i];
      i := SomeoneReigns(init, now);
      assert forall j :: i < j < |users| ==> now < (if j < |init| then init[j] else users[j]).stored;
    }
  }

  /** The user is revoked throughout an interval exactly when the records that reign in it cover it. */
  lemma RevokedThroughoutIff(records: Records, token: Claims, from: nat, end: int)
    requires InOrder(records) && from < end
    ensures (forall now: nat :: from <= now < end ==> UserRevoked(records, token, now)) <==> CoveredUntil(records, token, from, end)
  {
    if CoveredUntil(records, token, from, end) {
      forall now: nat | from <= now < end
        ensures UserRevoked(records, token, now)
      {
        var i := SomeoneReigns(records.users, now);
        ReigningIsLatest(records, i, now, from, end);
        assert Reigns(records.users, i, from, end);
      }
    }
    if forall now: nat :: from <= now < end ==> UserRevoked(records, token, now) {
      assert UserRevoked(records, token, from);
      LatestAtIs(records.users, from);
      forall i | 0 <= i < |records.users| && Reigns(records.users, i, from, end)
        ensures token.iat * 1000 <= records.users[i].after
        ensures ReignEnd(records.users, i, end) <= records.users[i].stored + records.ttl * 1000
      {
        var first, last: nat := Max(records.users[i].stored, from), ReignEnd(records.users, i, end) - 1;
        ReigningIsLatest(records, i, first, from, end);
        ReigningIsLatest(records, i, last, from, end);
        assert UserRevoked(records, token, first) && UserRevoked(records, token, last);
      }
    }
  }

  /**
   For any sequence of revocations and any token: from an instant on, every check that takes at most `slack`
   refuses the token exactly when it has expired by then, or the records in force up to the last check that
   could still find it unexpired leave no gap, and none is older than the token.
   */
  lemma RefusedForGoodIff(records: Records, token: Claims, from: nat, slack: nat)
    requires InOrder(records) && records.tokens == []
    ensures RefusedForGood(records, token, from, slack)
      <==> Expired(token, from) || CoveredUntil(records, token, from, token.exp * 1000 + slack)
  {
    var end := token.exp * 1000 + slack;
    if !Expired(token, from) {
      RevokedThroughoutIff(records, token, from, end);
      if RefusedForGood(records, token, from, slack) {
        forall now: nat | from <= now < end
          ensures UserRevoked(records, token, now)
        {
          var parsed: nat := if now < token.exp * 1000 then now else token.exp * 1000 - 1;
          assert Validate(records, token, parsed, now, now) != Accepted;
        }
      }
    }
  }

  /** The last instant at which a check that reads the list at `listing` can still read the user's record. */
  function LastCheck(token: Claims, listing: nat, slack: nat): int {
    (if listing < token.exp * 1000 then listing else token.exp * 1000 - 1) + slack
  }

  /**
   The same with both kinds of records: refused exactly when expired by then, or when for every instant at which
   a check could read the list and not find the token there, the user's records cover what is left of the check.
   */
  lemma RefusedByEitherIff(records: Records, token: Claims, from: nat, slack: nat)
    requires InOrder(records)
    ensures RefusedForGood(records, token, from, slack) <==>
      || Expired(token, from)
      || forall listing: nat :: from <= listing < token.exp * 1000 + slack && !TokenListed(records, token, listing) ==>
           CoveredUntil(records, token, listing, LastCheck(token, listing, slack) + 1)
  {
    if !Expired(token, from) {
      forall listing: nat | from <= listing < token.exp * 1000 + slack && !TokenListed(records, token, listing)
        ensures CoveredUntil(records, token, listing, LastCheck(token, listing, slack) + 1)
          <==> forall checked: nat :: listing <= checked <= LastCheck(token, listing, slack) ==> UserRevoked(records, token, checked)
      {
        RevokedThroughoutIff(records, token, listing, LastCheck(token, listing, slack) + 1);
      }
      if RefusedForGood(records, token, from, slack) {
        RefusedCovers(records, token, from, slack);
      }
    }
  }

  lemma RefusedCovers(records: Records, token: Claims, from: nat, slack: nat)
    requires !Expired(token, from) && RefusedForGood(records, token, from, slack)
    ensures forall listing: nat, checked: nat ::
      from <= listing <= checked <= LastCheck(token, listing, slack) && !TokenListed(records, token, listing) ==>
        UserRevoked(records, token, checked)
  {
    forall listing: nat, checked: nat | from <= listing <= checked <= LastCheck(token, listing, slack) && !TokenListed(records, token, listing)
      ensures UserRevoked(records, token, checked)
    {
      var parsed: nat := if listing < token.exp * 1000 then listing else token.exp * 1000 - 1;
      assert Validate(records, token, parsed, listing, checked) != Accepted;
    }
  }

  /** With one revocation: expired already, or of no later second and outlived by the record, slack included. */
  lemma RefusedByOneIff(after: nat, stored: nat, ttl: nat, token: Claims, slack: nat)
    requires after <= stored
    ensures RefusedForGood(Records([Revocation(after, stored)], [], ttl), token, stored, slack)
      <==> Expired(token, stored) || (token.iat * 1000 <= after && token.exp * 1000 + slack <= stored + ttl * 1000)
  {
    var records := Records([Revocation(after, stored)], [], ttl);
    RefusedForGoodIff(records, token, stored, slack);
    assert !Expired(token, stored) ==> Reigns(records.users, 0, stored, token.exp * 1000 + slack);
  }

  /** The same for a token revoked by itself. */
  lemma ListedForGoodIff(token: Claims, stored: nat, ttl: nat, slack: nat)
    ensures RefusedForGood(Records([], [Listed(token, stored)], ttl), token, stored, slack)
      <==> Expired(token, stored) || token.exp * 1000 + slack <= stored + ttl * 1000
  {
    var records := Records([], [Listed(token, stored)], ttl);
    var dead := stored + ttl * 1000;
    if !Expired(token, stored) && token.exp * 1000 + slack > dead {
      var parsed: nat := if dead < token.exp * 1000 then dead else token.exp * 1000 - 1;
      assert Validate(records, token, parsed, dead, dead) == Accepted;
    }
    assert records.tokens[0] == Listed(token, stored);
  }

  /** With records that live exactly as long as tokens, a check that reads its record 1 ms late accepts a revoked token. */
  lemma SlowCheckAcceptsARevokedToken(user: int, jti: nat)
    ensures var records := Records([Revocation(1000, 1000)], [], 86400);
      Validate(records, Build(user, jti, 1000, 86400000), 86400999, 86400999, 86401000) == Accepted
  {
  }

  /** Two revocations stored out of the order of their clocks: the one that came first for its clock brings a revoked token back. */
  lemma LateStoreBringsATokenBack(user: int, jti: nat)
    ensures var records := Records([Revocation(3000, 3000), Revocation(1000, 3001)], [], 86400);
      var token := Build(user, jti, 2000, 86400000);
      && InOrder(records)
      && Validate(records, token, 3000, 3000, 3000) == TokenInvalid
      && Validate(records, token, 3001, 3001, 3001) == Accepted
  {
  }
}
