/**
 What fanning an event out must come to (push_dispatcher.rs): which (server, recipient) pairs there are,
 how they are grouped by server, and that grouping and cutting neither loses nor repeats one.
 */
module Fanout {
  import opened Options
  import opened Routes

  // ---------- distinct recipients ----------

  /** `distinct`: the values present, each where it first occurs. */
  function Distinct(values: seq<Option<int>>): seq<int> {
    if values == [] then []
    else
      var init, last := Distinct(values[..|values| - 1]), values[|values| - 1];
      if last.Some? && last.value !in init then init + [last.value] else init
  }

  /** `at` is where the value first occurs. */
  predicate FirstAt(values: seq<Option<int>>, at: nat, value: int) {
    at < |values| && values[at] == Some(value) && forall k :: 0 <= k < at ==> values[k] != Some(value)
  }

  lemma {:induction false} DistinctHasAll(values: seq<Option<int>>)
    ensures forall v :: v in Distinct(values) <==> Some(v) in values
    ensures forall i, j :: 0 <= i < j < |Distinct(values)| ==> Distinct(values)[i] != Distinct(values)[j]
  {
    if values != [] {
      DistinctHasAll(values[..|values| - 1]);
    }
  }

  /** Recipients keep the order in which they are first named. */
  lemma {:induction false} DistinctKeepsOrder(values: seq<Option<int>>, i: nat, j: nat, a: nat, b: nat)
    requires i < j < |Distinct(values)|
    requires FirstAt(values, a, Distinct(values)[i]) && FirstAt(values, b, Distinct(values)[j])
    ensures a < b
  {
    var n := |values| - 1;
    var init := values[..n];
    DistinctHasAll(init);
    var first := Distinct(values)[i];
    assert Some(first) in init;
    assert a < n;
    if j < |Distinct(init)| {
      assert Some(Distinct(values)[j]) in init;
      assert b < n;
      DistinctKeepsOrder(init, i, j, a, b);
    } else {
      assert Some(Distinct(values)[j]) !in init;
    }
  }

  /** Taking the distinct values again changes nothing. */
  lemma {:induction false} DistinctTwice(values: seq<int>)
    requires forall i, j :: 0 <= i < j < |values| ==> values[i] != values[j]
    ensures Distinct(Somes(values)) == values
  {
    if values != [] {
      var n := |values| - 1;
      DistinctTwice(values[..n]);
      assert Somes(values)[..n] == Somes(values[..n]);
      assert values == values[..n] + [values[n]];
    }
  }

  function Somes(values: seq<int>): seq<Option<int>> {
    seq(|values|, k requires 0 <= k < |values| => Some(values[k]))
  }

  // ---------- where a batch goes ----------

  const NUL := '\0'

  /** One constructor round the text of `server_id\0url`. */
  datatype Key = Key(text: string)

  function KeyOf(route: UserRoute): Key {
    Key(route.server.text + [NUL] + route.url)
  }

  predicate SameTarget(a: UserRoute, b: UserRoute) {
    a.server == b.server && a.url == b.url
  }

  lemma {:induction false} PrefixBeforeNul(a: string, b: string, x: string, y: string)
    requires NUL !in a && NUL !in b && a + [NUL] + x == b + [NUL] + y
    ensures a == b && x == y
  {
    var whole := a + [NUL] + x;
    assert whole[|a|] == NUL && (b + [NUL] + y)[|b|] == NUL;
    assert forall i :: 0 <= i < |a| ==> whole[i] == a[i];
    assert forall i :: 0 <= i < |b| ==> (b + [NUL] + y)[i] == b[i];
    assert |a| == |b|;
    assert whole[..|a|] == a && (b + [NUL] + y)[..|b|] == b;
    assert whole[|a| + 1..] == x && (b + [NUL] + y)[|b| + 1..] == y;
  }

  /** With server ids free of NUL, two routes share a batch exactly when they lead to the same address of the same server. */
  lemma KeysEqualIffSameTarget(a: UserRoute, b: UserRoute)
    requires NUL !in a.server.text && NUL !in b.server.text
    ensures KeyOf(a) == KeyOf(b) <==> SameTarget(a, b)
  {
    if KeyOf(a) == KeyOf(b) {
      PrefixBeforeNul(a.server.text, b.server.text, a.url, b.url);
    }
  }

  /** No other target shares the batch of a route, exactly when neither its server id nor its address holds a NUL. */
  lemma TargetIsAloneIff(a: UserRoute)
    ensures (forall b: UserRoute :: KeyOf(a) == KeyOf(b) ==> SameTarget(a, b)) <==> NUL !in a.server.text && NUL !in a.url
  {
    if k :| 0 <= k < |a.server.text| && a.server.text[k] == NUL {
      var text := a.server.text;
      var b := UserRoute(ServerId(text[..k]), text[k + 1..] + [NUL] + a.url, a.expires);
      assert text == text[..k] + [NUL] + text[k + 1..];
      assert KeyOf(b).text == KeyOf(a).text;
      assert |b.server.text| != |text|;
    } else if k :| 0 <= k < |a.url| && a.url[k] == NUL {
      var b := UserRoute(ServerId(a.server.text + [NUL] + a.url[..k]), a.url[k + 1..], a.expires);
      assert a.url == a.url[..k] + [NUL] + a.url[k + 1..];
      assert KeyOf(b).text == KeyOf(a).text;
      assert |b.server.text| != |a.server.text|;
    } else {
      forall b: UserRoute | KeyOf(a) == KeyOf(b)
        ensures SameTarget(a, b)
      {
        OneNul(a.server.text, a.url, b.server.text, b.url);
      }
    }
  }

  lemma OneNul(a: string, x: string, b: string, y: string)
    requires NUL !in a && NUL !in x && a + [NUL] + x == b + [NUL] + y
    ensures a == b && x == y
  {
    var whole := a + [NUL] + x;
    assert whole[|b|] == (b + [NUL] + y)[|b|] == NUL;
    assert forall i :: 0 <= i < |whole| && i != |a| ==> whole[i] == if i < |a| then a[i] else x[i - |a| - 1];
    assert |a| == |b|;
    assert whole[..|a|] == a && (b + [NUL] + y)[..|b|] == b;
    assert whole[|a| + 1..] == x && (b + [NUL] + y)[|b| + 1..] == y;
  }

  /** A NUL in a server id puts two servers in one batch. */
  lemma NulMixesServers()
    ensures exists a: UserRoute, b: UserRoute :: KeyOf(a) == KeyOf(b) && a.server != b.server
  {
    var a := UserRoute(ServerId("a\0b"), "c", 1);
    var b := UserRoute(ServerId("a"), "b\0c", 1);
    assert KeyOf(a).text == KeyOf(b).text;
    assert |a.server.text| != |b.server.text|;
  }

  // ---------- the pairs of one event ----------

  type RouteMap = map<int, seq<UserRoute>>

  function RoutesFor(routes: RouteMap, user: int): seq<UserRoute> {
    if user in routes then routes[user] else []
  }

  function PairsOf(routes: seq<UserRoute>, user: int): (pairs: seq<(Key, int)>)
    ensures |pairs| == |routes| && forall k :: 0 <= k < |routes| ==> pairs[k] == (KeyOf(routes[k]), user)
  {
    seq(|routes|, k requires 0 <= k < |routes| => (KeyOf(routes[k]), user))
  }

  /** Every recipient occurrence with every one of its routes. */
  function Pairs(users: seq<int>, routes: RouteMap): seq<(Key, int)> {
    if users == [] then []
    else
      var n := |users| - 1;
      Pairs(users[..n], routes) + PairsOf(RoutesFor(routes, users[n]), users[n])
  }

  function UsersOf(pairs: seq<(Key, int)>, key: Key): seq<int> {
    if pairs == [] then []
    else
      var n := |pairs| - 1;
      UsersOf(pairs[..n], key) + if pairs[n].0 == key then [pairs[n].1] else []
  }

  function Within(pairs: seq<(Key, int)>, keys: set<Key>): seq<(Key, int)> {
    if pairs == [] then []
    else
      var n := |pairs| - 1;
      Within(pairs[..n], keys) + if pairs[n].0 in keys then [pairs[n]] else []
  }

  function Tagged(key: Key, users: seq<int>): (pairs: seq<(Key, int)>)
    ensures |pairs| == |users| && forall k :: 0 <= k < |users| ==> pairs[k] == (key, users[k])
  {
    seq(|users|, k requires 0 <= k < |users| => (key, users[k]))
  }

  lemma TaggedAppend(key: Key, a: seq<int>, b: seq<int>)
    ensures Tagged(key, a + b) == Tagged(key, a) + Tagged(key, b)
  {
  }

  /** The pairs of one more key are the users of its batch. */
  lemma {:induction false} OneMoreKey(pairs: seq<(Key, int)>, keys: set<Key>, key: Key)
    requires key !in keys
    ensures multiset(Within(pairs, keys + {key})) == multiset(Within(pairs, keys)) + multiset(Tagged(key, UsersOf(pairs, key)))
  {
    if pairs != [] {
      var n := |pairs| - 1;
      OneMoreKey(pairs[..n], keys, key);
      var one := if pairs[n].0 == key then [pairs[n]] else [];
      var users := if pairs[n].0 == key then [pairs[n].1] else [];
      TaggedAppend(key, UsersOf(pairs[..n], key), users);
      assert Tagged(key, users) == one;
      assert Within(pairs, keys + {key}) == Within(pairs[..n], keys + {key}) + if pairs[n].0 in keys then [pairs[n]] else one;
    }
  }

  lemma {:induction false} WithinAll(pairs: seq<(Key, int)>, keys: set<Key>)
    requires forall i :: 0 <= i < |pairs| ==> pairs[i].0 in keys
    ensures Within(pairs, keys) == pairs
  {
    if pairs != [] {
      WithinAll(pairs[..|pairs| - 1], keys);
    }
  }

  lemma {:induction false} WithinNone(pairs: seq<(Key, int)>)
    ensures Within(pairs, {}) == []
  {
    if pairs != [] {
      WithinNone(pairs[..|pairs| - 1]);
    }
  }

  // ---------- the requests sent ----------

  const CHUNK := 500

  datatype Send = Send(route: UserRoute, users: seq<int>)

  function Delivered(sends: seq<Send>): multiset<(Key, int)> {
    if sends == [] then multiset{}
    else
      var n := |sends| - 1;
      Delivered(sends[..n]) + multiset(Tagged(KeyOf(sends[n].route), sends[n].users))
  }

  /** How many of the routes lead to the target of `route`. */
  function RoutesTo(routes: seq<UserRoute>, key: Key): nat {
    if routes == [] then 0
    else
      var n := |routes| - 1;
      RoutesTo(routes[..n], key) + if KeyOf(routes[n]) == key then 1 else 0
  }

  lemma {:induction false} PairsOfCount(routes: seq<UserRoute>, user: int, key: Key, other: int)
    ensures multiset(PairsOf(routes, user))[(key, other)] == if other == user then RoutesTo(routes, key) else 0
  {
    if routes != [] {
      var n := |routes| - 1;
      PairsOfCount(routes[..n], user, key, other);
      assert PairsOf(routes, user) == PairsOf(routes[..n], user) + [(KeyOf(routes[n]), user)];
    }
  }

  lemma LastCounts(users: seq<int>, user: int)
    requires users != []
    ensures multiset(users)[user] == multiset(users[..|users| - 1])[user] + if users[|users| - 1] == user then 1 else 0
  {
    assert users == users[..|users| - 1] + [users[|users| - 1]];
  }

  lemma OneMoreTimes(times: nat, each: nat)
    ensures (times + 1) * each == times * each + each
  {
  }

  lemma {:induction false} PairsCount(users: seq<int>, routes: RouteMap, key: Key, user: int)
    ensures multiset(Pairs(users, routes))[(key, user)] == multiset(users)[user] * RoutesTo(RoutesFor(routes, user), key)
  {
    if users != [] {
      var n := |users| - 1;
      PairsCount(users[..n], routes, key, user);
      PairsOfCount(RoutesFor(routes, users[n]), users[n], key, user);
      LastCounts(users, user);
      OneMoreTimes(multiset(users[..n])[user], RoutesTo(RoutesFor(routes, user), key));
    }
  }

  predicate OneRoutePerServer(routes: seq<UserRoute>) {
    forall i, j :: 0 <= i < j < |routes| ==> routes[i].server != routes[j].server
  }

  /** Whatever shares the batch of the target has the same target. */
  ghost predicate Unmixed(routes: seq<UserRoute>, target: UserRoute) {
    forall i :: 0 <= i < |routes| && KeyOf(routes[i]) == KeyOf(target) ==> SameTarget(routes[i], target)
  }

  ghost predicate LeadsTo(routes: seq<UserRoute>, target: UserRoute) {
    exists i :: 0 <= i < |routes| && SameTarget(routes[i], target)
  }

  lemma {:induction false} OneRouteToEachIff(routes: seq<UserRoute>, target: UserRoute)
    requires OneRoutePerServer(routes)
    ensures RoutesTo(routes, KeyOf(target)) >= if LeadsTo(routes, target) then 1 else 0
    ensures RoutesTo(routes, KeyOf(target)) == (if LeadsTo(routes, target) then 1 else 0) <==> Unmixed(routes, target)
  {
    if routes != [] {
      var n := |routes| - 1;
      var init := routes[..n];
      OneRouteToEachIff(init, target);
      assert forall i :: 0 <= i < n ==> init[i] == routes[i];
      assert SameTarget(routes[n], target) ==> !LeadsTo(init, target);
      assert LeadsTo(routes, target) <==> LeadsTo(init, target) || SameTarget(routes[n], target);
      assert Unmixed(routes, target) <==> Unmixed(init, target) && (KeyOf(routes[n]) == KeyOf(target) ==> SameTarget(routes[n], target));
    }
  }

  /**
   Conservation: to an address of a server, a recipient is scheduled exactly once for every time it is named
   if one of its routes leads there, and not at all otherwise; exactly when none of its other routes shares
   the batch of that address.
   */
  lemma EachRecipientOnceIff(users: seq<int>, routes: RouteMap, sends: seq<Send>, target: UserRoute, user: int)
    requires Delivered(sends) == multiset(Pairs(users, routes))
    requires user in users && OneRoutePerServer(RoutesFor(routes, user))
    ensures Delivered(sends)[(KeyOf(target), user)] == (if LeadsTo(RoutesFor(routes, user), target) then multiset(users)[user] else 0)
      <==> Unmixed(RoutesFor(routes, user), target)
  {
    var mine := RoutesFor(routes, user);
    PairsCount(users, routes, KeyOf(target), user);
    OneRouteToEachIff(mine, target);
    OnceIff(multiset(users)[user], RoutesTo(mine, KeyOf(target)), if LeadsTo(mine, target) then 1 else 0);
  }

  lemma OnceIff(times: nat, found: nat, wanted: nat)
    requires times > 0
    ensures times * found == times * wanted <==> found == wanted
  {
    if found < wanted {
      assert times * found < times * wanted;
    } else if found > wanted {
      assert times * found > times * wanted;
    }
  }

  /** So it is for every recipient and every address while server ids are free of NUL. */
  lemma EachRecipientOnce(users: seq<int>, routes: RouteMap, sends: seq<Send>, target: UserRoute, user: int)
    requires Delivered(sends) == multiset(Pairs(users, routes))
    requires OneRoutePerServer(RoutesFor(routes, user))
    requires NUL !in target.server.text && forall route :: route in RoutesFor(routes, user) ==> NUL !in route.server.text
    ensures Delivered(sends)[(KeyOf(target), user)] == if LeadsTo(RoutesFor(routes, user), target) then multiset(users)[user] else 0
  {
    PairsCount(users, routes, KeyOf(target), user);
    if user in users {
      var mine := RoutesFor(routes, user);
      forall i | 0 <= i < |mine| && KeyOf(mine[i]) == KeyOf(target)
        ensures SameTarget(mine[i], target)
      {
        KeysEqualIffSameTarget(mine[i], target);
      }
      EachRecipientOnceIff(users, routes, sends, target, user);
    }
  }

  lemma {:induction false} DeliveredHas(sends: seq<Send>, i: nat, user: int)
    requires i < |sends| && user in sends[i].users
    ensures Delivered(sends)[(KeyOf(sends[i].route), user)] > 0
  {
    var n := |sends| - 1;
    if i < n {
      DeliveredHas(sends[..n], i, user);
    } else {
      var k :| 0 <= k < |sends[n].users| && sends[n].users[k] == user;
      assert Tagged(KeyOf(sends[n].route), sends[n].users)[k] == (KeyOf(sends[n].route), user);
    }
  }

  lemma {:induction false} RoutesToSome(routes: seq<UserRoute>, key: Key)
    requires RoutesTo(routes, key) > 0
    ensures exists i :: 0 <= i < |routes| && KeyOf(routes[i]) == key
  {
    var n := |routes| - 1;
    if KeyOf(routes[n]) != key {
      RoutesToSome(routes[..n], key);
      var i :| 0 <= i < n && KeyOf(routes[..n][i]) == key;
      assert KeyOf(routes[i]) == key;
    }
  }

  lemma BothPositive(times: nat, each: nat)
    requires times * each > 0
    ensures times > 0 && each > 0
  {
  }

  /** A route of the user leads to where the request goes. */
  ghost predicate FollowsRoute(routes: seq<UserRoute>, send: Send) {
    exists k :: 0 <= k < |routes| && KeyOf(routes[k]) == KeyOf(send.route)
  }

  /** Every user of a request was named, and has a route to where the request goes. */
  lemma SendFollowsRoutes(users: seq<int>, routes: RouteMap, sends: seq<Send>, i: nat, user: int)
    requires Delivered(sends) == multiset(Pairs(users, routes)) && i < |sends| && user in sends[i].users
    ensures user in users && FollowsRoute(RoutesFor(routes, user), sends[i])
  {
    var key := KeyOf(sends[i].route);
    DeliveredHas(sends, i, user);
    PairsCount(users, routes, key, user);
    BothPositive(multiset(users)[user], RoutesTo(RoutesFor(routes, user), key));
    RoutesToSome(RoutesFor(routes, user), key);
  }

  /** Without NUL in server ids, that is the same address of the same server. */
  lemma SendGoesToATarget(routes: seq<UserRoute>, send: Send)
    requires FollowsRoute(routes, send) && NUL !in send.route.server.text
    requires forall route :: route in routes ==> NUL !in route.server.text
    ensures LeadsTo(routes, send.route)
  {
    var k :| 0 <= k < |routes| && KeyOf(routes[k]) == KeyOf(send.route);
    KeysEqualIffSameTarget(routes[k], send.route);
  }
}
