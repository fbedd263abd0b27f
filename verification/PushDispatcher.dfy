/**
 The dispatcher's own code (push_dispatcher.rs): the loops that look routes up behind a cache and regroup
 the recipients of an event by server.
 */
module PushDispatcher {
  import opened Options
  import opened Routes
  import opened Fanout

  datatype CachedRoutes = CachedRoutes(routes: seq<UserRoute>, cachedAt: int) {
    /** `valid_at`. */
    predicate ValidAt(now: int, ttl: int) {
      now - cachedAt <= ttl && AllLive(routes, now)
    }
  }

  predicate AllLive(routes: seq<UserRoute>, now: int) {
    forall k :: 0 <= k < |routes| ==> routes[k].expires > now
  }

  predicate LiveAt(stored: Stored, server: ServerId, now: int) {
    stored.Leases? && server in stored.leases && stored.leases[server].sessions > 0 && stored.leases[server].expires > now
  }

  predicate HasRoute(routes: seq<UserRoute>, server: ServerId) {
    exists k :: 0 <= k < |routes| && routes[k].server == server
  }

  /** One route for each live lease of the snapshot, in some order, each saying what its lease says. */
  ghost predicate IsRoutesOf(routes: seq<UserRoute>, stored: Stored, now: int, fallback: string) {
    && OneRoutePerServer(routes)
    && (forall k :: 0 <= k < |routes| ==> RouteSays(routes[k], stored, now, fallback))
    && (forall server :: LiveAt(stored, server, now) ==> HasRoute(routes, server))
  }

  /** The servers routed to are the keys of the filtered snapshot. */
  lemma RoutedServersAre(routes: seq<UserRoute>, stored: Stored, now: int, fallback: string)
    requires IsRoutesOf(routes, stored, now, fallback)
    ensures forall s :: s in UserRoutes(stored, now, fallback) <==> HasRoute(routes, s)
  {
    forall s
      ensures s in UserRoutes(stored, now, fallback) <==> LiveAt(stored, s, now)
    {
      RoutesSay(stored, now, fallback, s);
    }
  }

  /** What a read of the routes hash answered, and the clock it was parsed at. */
  datatype Reading = Reading(user: int, now: int, stored: Stored)

  function StoredOf(store: map<int, Stored>, user: int): Stored {
    if user in store then store[user] else Absent
  }

  /** Parsed at some clock between `now` and `end`. */
  ghost predicate FromStored(routes: seq<UserRoute>, stored: Stored, now: int, end: int, fallback: string) {
    exists later :: now <= later <= end && IsRoutesOf(routes, stored, later, fallback)
  }

  method ParseUserRoutes(stored: Stored, now: int, fallback: string) returns (routes: seq<UserRoute>)
    ensures IsRoutesOf(routes, stored, now, fallback) && AllLive(routes, now)
  {
    routes := [];
    if stored.Leases? {
      var rest := stored.leases.Keys;
      while rest != {}
        invariant rest <= stored.leases.Keys
        invariant forall k :: 0 <= k < |routes| ==> RouteSays(routes[k], stored, now, fallback) && routes[k].server !in rest
        invariant forall s :: LiveAt(stored, s, now) && s !in rest ==> HasRoute(routes, s)
        invariant OneRoutePerServer(routes)
      {
        var s :| s in rest;
        var lease := stored.leases[s];
        if !(lease.sessions <= 0 || lease.expires <= now) {
          ghost var before := routes;
          routes := routes + [RouteOf(s, lease, fallback)];
          assert routes[|before|].server == s;
          assert forall other :: HasRoute(before, other) ==> HasRoute(routes, other) by {
            assert forall k :: 0 <= k < |before| ==> routes[k] == before[k];
          }
        }
        rest := rest - {s};
      }
    }
  }

  lemma DistinctNext(values: seq<Option<int>>, i: nat)
    requires i < |values|
    ensures var before := Distinct(values[..i]);
      Distinct(values[..i + 1]) == if values[i].Some? && values[i].value !in before then before + [values[i].value] else before
  {
    var longer := values[..i + 1];
    assert longer[..|longer| - 1] == values[..i] && longer[|longer| - 1] == values[i];
  }

  /** `distinct`. */
  method DistinctValues(values: seq<Option<int>>) returns (result: seq<int>)
    ensures result == Distinct(values)
  {
    var seen: set<int> := {};
    result := [];
    for i := 0 to |values|
      invariant forall v :: v in seen <==> v in result
      invariant result == Distinct(values[..i])
    {
      DistinctNext(values, i);
      if values[i].Some? {
        var value: int := values[i].value;
        if value !in seen {
          seen := seen + {value};
          result := result + [value];
        }
      }
    }
    assert values[..|values|] == values;
  }

  // ---------- regrouping ----------

  datatype RouteBatch = RouteBatch(route: UserRoute, users: seq<int>)

  /** The batches hold exactly the pairs met so far. */
  ghost predicate Represents(batches: map<Key, RouteBatch>, pairs: seq<(Key, int)>) {
    && (forall i :: 0 <= i < |pairs| ==> pairs[i].0 in batches)
    && (forall key :: key in batches ==> KeyOf(batches[key].route) == key && batches[key].users == UsersOf(pairs, key))
  }

  lemma UsersOfAbsent(pairs: seq<(Key, int)>, key: Key)
    requires forall i :: 0 <= i < |pairs| ==> pairs[i].0 != key
    ensures UsersOf(pairs, key) == []
  {
  }

  method AddToBatch(batches: map<Key, RouteBatch>, route: UserRoute, user: int, ghost pairs: seq<(Key, int)>)
    returns (more: map<Key, RouteBatch>)
    requires Represents(batches, pairs)
    ensures Represents(more, pairs + [(KeyOf(route), user)])
    ensures forall key :: key in more ==> more[key].route == route || (key in batches && more[key].route == batches[key].route)
  {
    var key := KeyOf(route);
    var batch := if key in batches then batches[key] else RouteBatch(route, []);
    if key !in batches {
      UsersOfAbsent(pairs, key);
    }
    more := batches[key := batch.(users := batch.users + [user])];
    ghost var longer := pairs + [(key, user)];
    assert longer[..|pairs|] == pairs;
  }

  method AddRoutes(batches: map<Key, RouteBatch>, routes: seq<UserRoute>, user: int, ghost pairs: seq<(Key, int)>, ghost now: int)
    returns (more: map<Key, RouteBatch>)
    requires Represents(batches, pairs) && AllLive(routes, now)
    requires forall key :: key in batches ==> batches[key].route.expires > now
    ensures Represents(more, pairs + PairsOf(routes, user))
    ensures forall key :: key in more ==> more[key].route.expires > now
  {
    more := batches;
    ghost var added := pairs;
    assert pairs + PairsOf(routes[..0], user) == pairs;
    for j := 0 to |routes|
      invariant added == pairs + PairsOf(routes[..j], user)
      invariant Represents(more, added)
      invariant forall key :: key in more ==> more[key].route.expires > now
    {
      more := AddToBatch(more, routes[j], user, added);
      added := added + [(KeyOf(routes[j]), user)];
      assert pairs + PairsOf(routes[..j + 1], user) == added;
    }
    assert routes[..|routes|] == routes;
  }

  /** The first `n` recipients that have no route, by their place. */
  function Offline(users: seq<int>, routes: RouteMap, n: nat): set<nat>
    requires n <= |users|
  {
    set i: nat | i < n && RoutesFor(routes, users[i]) == []
  }

  lemma OfflineNext(users: seq<int>, routes: RouteMap, n: nat)
    requires n < |users|
    ensures |Offline(users, routes, n + 1)| == |Offline(users, routes, n)| + if RoutesFor(routes, users[n]) == [] then 1 else 0
  {
    var more := if RoutesFor(routes, users[n]) == [] then {n} else {};
    assert Offline(users, routes, n + 1) == Offline(users, routes, n) + more;
  }

  /** The first half of `dispatch_event`: recipients without a route are only counted. */
  method GroupByRoute(users: seq<int>, routes: RouteMap, ghost now: int) returns (batches: map<Key, RouteBatch>, offline: nat)
    requires forall user :: user in routes ==> AllLive(routes[user], now)
    ensures Represents(batches, Pairs(users, routes))
    ensures forall key :: key in batches ==> batches[key].route.expires > now
    ensures offline == |Offline(users, routes, |users|)|
  {
    batches, offline := map[], 0;
    for i := 0 to |users|
      invariant Represents(batches, Pairs(users[..i], routes))
      invariant forall key :: key in batches ==> batches[key].route.expires > now
      invariant offline == |Offline(users, routes, i)|
    {
      var user := users[i];
      var mine := RoutesFor(routes, user);
      ghost var before := Pairs(users[..i], routes);
      ghost var longer := users[..i + 1];
      assert longer[..|longer| - 1] == users[..i];
      OfflineNext(users, routes, i);
      if mine == [] {
        offline := offline + 1;
      }
      batches := AddRoutes(batches, mine, user, before, now);
    }
    assert users[..|users|] == users;
  }

  // ---------- cutting ----------

  lemma DeliveredAppend(sends: seq<Send>, send: Send)
    ensures Delivered(sends + [send]) == Delivered(sends) + multiset(Tagged(KeyOf(send.route), send.users))
  {
    assert (sends + [send])[..|sends|] == sends;
  }

  /** One more chunk of a batch. */
  lemma DeliveredChunk(sends: seq<Send>, route: UserRoute, users: seq<int>, from: nat, to: nat, start: multiset<(Key, int)>)
    requires from <= to <= |users|
    requires Delivered(sends) == start + multiset(Tagged(KeyOf(route), users[..from]))
    ensures Delivered(sends + [Send(route, users[from..to])]) == start + multiset(Tagged(KeyOf(route), users[..to]))
  {
    DeliveredAppend(sends, Send(route, users[from..to]));
    TaggedAppend(KeyOf(route), users[..from], users[from..to]);
    assert users[..to] == users[..from] + users[from..to];
  }

  predicate GoodSend(send: Send, now: int) {
    0 < |send.users| <= 500 && send.route.expires > now
  }

  /** `chunks(500)` of one batch. */
  method SendBatch(batch: RouteBatch, sends: seq<Send>, ghost now: int) returns (more: seq<Send>)
    requires batch.route.expires > now && forall k :: 0 <= k < |sends| ==> GoodSend(sends[k], now)
    ensures Delivered(more) == Delivered(sends) + multiset(Tagged(KeyOf(batch.route), batch.users))
    ensures forall k :: 0 <= k < |more| ==> GoodSend(more[k], now)
  {
    more := sends;
    var from := 0;
    while from < |batch.users|
      invariant 0 <= from <= |batch.users|
      invariant Delivered(more) == Delivered(sends) + multiset(Tagged(KeyOf(batch.route), batch.users[..from]))
      invariant forall k :: 0 <= k < |more| ==> GoodSend(more[k], now)
    {
      var to := if from + CHUNK <= |batch.users| then from + CHUNK else |batch.users|;
      var send := Send(batch.route, batch.users[from..to]);
      DeliveredChunk(more, batch.route, batch.users, from, to, Delivered(sends));
      more := more + [send];
      from := to;
    }
    assert batch.users[..|batch.users|] == batch.users;
  }

  /** The second half of `dispatch_event`, whatever the order of the hash map. */
  method SendBatches(batches: map<Key, RouteBatch>, ghost pairs: seq<(Key, int)>, ghost now: int) returns (sends: seq<Send>)
    requires Represents(batches, pairs) && forall key :: key in batches ==> batches[key].route.expires > now
    ensures Delivered(sends) == multiset(pairs)
    ensures forall k :: 0 <= k < |sends| ==> GoodSend(sends[k], now)
  {
    sends := [];
    var rest := batches.Keys;
    ghost var done: set<Key> := {};
    WithinNone(pairs);
    while rest != {}
      invariant rest == batches.Keys - done && done <= batches.Keys
      invariant Delivered(sends) == multiset(Within(pairs, done))
      invariant forall k :: 0 <= k < |sends| ==> GoodSend(sends[k], now)
    {
      var key :| key in rest;
      OneMoreKey(pairs, done, key);
      sends := SendBatch(batches[key], sends, now);
      rest := rest - {key};
      done := done + {key};
    }
    WithinAll(pairs, done);
  }

  /** Every user of every request has a route to where the request goes. */
  ghost predicate AllFollow(sends: seq<Send>, routes: RouteMap) {
    forall i: nat, user :: i < |sends| && user in sends[i].users ==> FollowsRoute(RoutesFor(routes, user), sends[i])
  }

  /** `dispatch_event`, once the routes are known. */
  method Schedule(users: seq<int>, routes: RouteMap, ghost now: int) returns (sends: seq<Send>, offline: nat)
    requires forall user :: user in routes ==> AllLive(routes[user], now)
    ensures Delivered(sends) == multiset(Pairs(users, routes)) && AllFollow(sends, routes)
    ensures forall k :: 0 <= k < |sends| ==> GoodSend(sends[k], now)
    ensures offline == |Offline(users, routes, |users|)|
  {
    var batches;
    batches, offline := GroupByRoute(users, routes, now);
    sends := SendBatches(batches, Pairs(users, routes), now);
    forall i: nat, user | i < |sends| && user in sends[i].users
      ensures FollowsRoute(RoutesFor(routes, user), sends[i])
    {
      SendFollowsRoutes(users, routes, sends, i, user);
    }
  }

  function SetOf(users: seq<int>): set<int> {
    set user | user in users
  }

  // ---------- routes behind the cache ----------

  /** The cache once the users of `done` have been read: their answers unless empty, and otherwise what was there before. */
  ghost predicate CacheHas(cache: map<int, CachedRoutes>, done: seq<int>, found: RouteMap, before: map<int, CachedRoutes>, now: int) {
    forall user ::
      if user in done && user in found then
        if found[user] == [] then user !in cache else user in cache && cache[user] == CachedRoutes(found[user], now)
      else (user in cache <==> user in before) && (user in cache ==> cache[user] == before[user])
  }

  lemma OneMoreCached(cache: map<int, CachedRoutes>, done: seq<int>, found: RouteMap, before: map<int, CachedRoutes>, now: int,
                      user: int, routes: seq<UserRoute>)
    requires CacheHas(cache, done, found, before, now) && forall other :: other in done ==> other in found
    ensures CacheHas(
      if routes == [] then cache - {user} else cache[user := CachedRoutes(routes, now)],
      done + [user], found[user := routes], before, now)
  {
    assert forall other :: other in done + [user] <==> other in done || other == user;
  }

  class Dispatcher {
    const batchSize: nat
    const cacheMs: int
    const fallback: string
    var routeCache: map<int, CachedRoutes>
    /** Every answer of the routes hash so far. */
    ghost var readings: set<Reading>

    /** Every cached entry is what a read no older than it claims to be has found. */
    ghost predicate Valid()
      reads this
    {
      forall user :: user in routeCache ==> WasRead(user, routeCache[user].routes, routeCache[user].cachedAt)
    }

    ghost predicate WasRead(user: int, routes: seq<UserRoute>, since: int)
      reads this
    {
      exists now, stored :: Reading(user, now, stored) in readings && since <= now && IsRoutesOf(routes, stored, now, fallback)
    }

    function Ttl(): int {
      Max(cacheMs, 100)
    }

    constructor (batchSize: nat, cacheMs: int, fallback: string)
      ensures Valid() && routeCache == map[]
    {
      this.batchSize, this.cacheMs, this.fallback := batchSize, cacheMs, fallback;
      routeCache := map[];
      readings := {};
    }

    /** What can be used for a user: unexpired at `now`, and read at most the cache's lifetime before it. */
    ghost predicate Usable(user: int, routes: seq<UserRoute>, now: int)
      reads this
    {
      AllLive(routes, now) && OneRoutePerServer(routes) && WasRead(user, routes, now - Ttl())
    }

    /** The only new readings are of what the hash holds, at clocks within the call. */
    ghost predicate ReadingsFrom(before: set<Reading>, store: map<int, Stored>, now: int, end: int)
      reads this
    {
      && before <= readings
      && forall r :: r in readings && r !in before ==> r.stored == StoredOf(store, r.user) && now <= r.now <= end
    }

    predicate Hit(cache: map<int, CachedRoutes>, user: int, now: int) {
      user in cache && cache[user].ValidAt(now, Ttl())
    }

    /** An entry counts for as long as is configured, and never for less than a tenth of a second, while all its routes are live. */
    lemma HitIff(cache: map<int, CachedRoutes>, user: int, now: int)
      ensures Hit(cache, user, now) <==>
        && user in cache
        && (now - cache[user].cachedAt <= cacheMs || now - cache[user].cachedAt <= 100)
        && forall k :: 0 <= k < |cache[user].routes| ==> now < cache[user].routes[k].expires
    {
    }

    predicate AllHit(cache: map<int, CachedRoutes>, users: seq<int>, now: int) {
      forall user :: user in users ==> Hit(cache, user, now)
    }

    /** A valid cached entry as it was, and otherwise what the hash holds for the user. */
    ghost predicate Answers(cache: map<int, CachedRoutes>, user: int, routes: seq<UserRoute>, store: map<int, Stored>, now: int, end: int) {
      if Hit(cache, user, now) then routes == cache[user].routes
      else FromStored(routes, StoredOf(store, user), now, end, fallback)
    }

    /** An entry of the cache afterwards: the answer just read, or an entry that was there and was not read again. */
    ghost predicate Kept(before: map<int, CachedRoutes>, user: int, found: RouteMap, now: int)
      reads this
      requires user in routeCache
    {
      if user in found && !Hit(before, user, now) then routeCache[user] == CachedRoutes(found[user], now) && found[user] != []
      else user in before && routeCache[user] == before[user]
    }

    /** Answers with routes are in the cache afterwards, and valid entries of other users have stayed. */
    ghost predicate Remembered(before: map<int, CachedRoutes>, found: RouteMap, now: int)
      reads this
    {
      forall user :: (if user in found then found[user] != [] else Hit(before, user, now)) ==> user in routeCache
    }

    /** The answer for one miss, parsed at a clock of its own, after `now` and before the call ends. */
    method ReadOne(user: int, stored: Stored, now: int, end: int) returns (routes: seq<UserRoute>)
      requires Valid() && now <= end
      modifies this
      ensures Valid() && old(readings) <= readings
      ensures forall r :: r in readings && r !in old(readings) ==> r.user == user && r.stored == stored && now <= r.now <= end
      ensures Usable(user, routes, now) && FromStored(routes, stored, now, end, fallback)
      ensures routeCache == if routes == [] then old(routeCache) - {user} else old(routeCache)[user := CachedRoutes(routes, now)]
    {
      var later :| now <= later <= end;
      routes := ParseUserRoutes(stored, later, fallback);
      readings := readings + {Reading(user, later, stored)};
      assert Reading(user, later, stored) in readings;
      if routes == [] {
        routeCache := routeCache - {user};
      } else {
        routeCache := routeCache[user := CachedRoutes(routes, now)];
      }
    }

    /** The users of `done` have been read: the answers are in `found`, and in the cache unless empty. */
    ghost predicate HasRead(done: seq<int>, found: RouteMap, before: map<int, CachedRoutes>, store: map<int, Stored>, now: int, end: int)
      reads this
    {
      && (forall user :: user in done ==>
            user in found && Usable(user, found[user], now) && FromStored(found[user], StoredOf(store, user), now, end, fallback))
      && CacheHas(routeCache, done, found, before, now)
    }

    /** One more miss. */
    method ReadNext(user: int, ghost done: seq<int>, ghost found: RouteMap, ghost before: map<int, CachedRoutes>, store: map<int, Stored>,
                    now: int, end: int)
        returns (routes: seq<UserRoute>)
      requires Valid() && now <= end && HasRead(done, found, before, store, now, end)
      modifies this
      ensures Valid() && ReadingsFrom(old(readings), store, now, end)
      ensures HasRead(done + [user], found[user := routes], before, store, now, end)
    {
      routes := ReadOne(user, StoredOf(store, user), now, end);
      OneMoreCached(old(routeCache), done, found, before, now, user, routes);
    }

    /** The answers of the pipeline, one by one. */
    method ReadMisses(hits: RouteMap, misses: seq<int>, store: map<int, Stored>, now: int, end: int) returns (found: RouteMap)
      requires Valid() && now <= end && forall user :: user in misses ==> user !in hits
      modifies this
      ensures Valid() && ReadingsFrom(old(readings), store, now, end)
      ensures found.Keys == hits.Keys + SetOf(misses)
      ensures forall user :: user in hits ==> found[user] == hits[user]
      ensures HasRead(misses, found, old(routeCache), store, now, end)
    {
      found := hits;
      for i := 0 to |misses|
        invariant Valid() && ReadingsFrom(old(readings), store, now, end)
        invariant found.Keys == hits.Keys + SetOf(misses[..i])
        invariant forall user :: user in hits ==> found[user] == hits[user]
        invariant HasRead(misses[..i], found, old(routeCache), store, now, end)
      {
        var user := misses[i];
        var routes := ReadNext(user, misses[..i], found, old(routeCache), store, now, end);
        found := found[user := routes];
        assert misses[..i + 1] == misses[..i] + [user];
        assert SetOf(misses[..i + 1]) == SetOf(misses[..i]) + {user};
      }
      assert misses[..|misses|] == misses;
    }

    /** The first pass: what the cache answers, and who is left. */
    method LookUp(users: seq<int>, now: int) returns (hits: RouteMap, misses: seq<int>)
      requires Valid()
      ensures hits.Keys + SetOf(misses) == SetOf(users)
      ensures misses == [] <==> AllHit(routeCache, users, now)
      ensures forall user :: user in hits <==> user in users && Hit(routeCache, user, now)
      ensures forall user :: user in hits ==> user in routeCache && hits[user] == routeCache[user].routes && Usable(user, hits[user], now)
      ensures forall user :: user in misses <==> user in users && !Hit(routeCache, user, now)
    {
      hits, misses := map[], [];
      for i := 0 to |users|
        invariant forall user :: user in hits <==> user in users[..i] && Hit(routeCache, user, now)
        invariant forall user :: user in hits ==> user in routeCache && hits[user] == routeCache[user].routes && Usable(user, hits[user], now)
        invariant forall user :: user in misses <==> user in users[..i] && !Hit(routeCache, user, now)
      {
        var user := users[i];
        assert users[..i + 1] == users[..i] + [user];
        if user in routeCache && routeCache[user].ValidAt(now, Ttl()) {
          hits := hits[user := routeCache[user].routes];
        } else {
          misses := misses + [user];
        }
      }
      assert users[..|users|] == users;
      assert forall user :: user in hits.Keys + SetOf(misses) <==> user in SetOf(users);
      if misses != [] {
        ghost var miss: int := misses[0];
        assert miss in misses && !Hit(routeCache, miss, now);
      }
    }

    /** A cache that has grown too large keeps only its valid entries. */
    method ShrinkCache(now: int)
      requires Valid()
      modifies `routeCache
      ensures Valid()
      ensures forall user :: user in routeCache ==> user in old(routeCache) && routeCache[user] == old(routeCache)[user]
      ensures |old(routeCache)| > Max(batchSize, 1000) * 10 ==> forall user :: user in routeCache ==> routeCache[user].ValidAt(now, Ttl())
      ensures forall user :: Hit(old(routeCache), user, now) ==> user in routeCache
      ensures |old(routeCache)| <= Max(batchSize, 1000) * 10 ==> routeCache == old(routeCache)
    {
      if |routeCache| > Max(batchSize, 1000) * 10 {
        routeCache := map user | user in routeCache && routeCache[user].ValidAt(now, Ttl()) :: routeCache[user];
      }
    }

    /** The answers of the cache and of the pipeline. */
    method Gather(users: seq<int>, store: map<int, Stored>, answered: bool, now: int, end: int) returns (found: Option<RouteMap>)
      requires Valid() && now <= end
      modifies this
      ensures Valid() && ReadingsFrom(old(readings), store, now, end)
      ensures found.None? <==> !answered && !AllHit(old(routeCache), users, now)
      ensures found.None? ==> routeCache == old(routeCache)
      ensures found.Some? ==> found.value.Keys == SetOf(users)
      ensures found.Some? ==> forall user :: user in found.value ==>
        Answers(old(routeCache), user, found.value[user], store, now, end) && Usable(user, found.value[user], now)
      ensures found.Some? ==> forall user :: user in routeCache ==> Kept(old(routeCache), user, found.value, now)
      ensures found.Some? ==> Remembered(old(routeCache), found.value, now)
    {
      var hits, misses := LookUp(users, now);
      if misses == [] {
        return Some(hits);
      }
      if !answered {
        return None;
      }
      var all := ReadMisses(hits, misses, store, now, end);
      found := Some(all);
    }

    /** `routes_for_users`. A pipeline that is not answered fails the call and leaves the cache alone; nothing else fails it. */
    method RoutesForUsers(users: seq<int>, store: map<int, Stored>, answered: bool, now: int, end: int) returns (result: Option<RouteMap>)
      requires Valid() && now <= end
      modifies this
      ensures Valid() && ReadingsFrom(old(readings), store, now, end)
      ensures result.None? <==> !answered && !AllHit(old(routeCache), users, now)
      ensures result.None? ==> routeCache == old(routeCache)
      ensures result.Some? ==> result.value.Keys == SetOf(users)
      ensures result.Some? ==> forall user :: user in result.value ==>
        Answers(old(routeCache), user, result.value[user], store, now, end) && Usable(user, result.value[user], now)
      ensures result.Some? ==> forall user :: user in routeCache ==> Kept(old(routeCache), user, result.value, now)
      ensures result.Some? ==> Remembered(old(routeCache), result.value, now)
      ensures result.Some? && |routeCache| > Max(batchSize, 1000) * 10 ==>
        forall user :: user in routeCache ==> routeCache[user].ValidAt(now, Ttl())
    {
      result := Gather(users, store, answered, now, end);
      if result.Some? {
        ShrinkCache(now);
      }
    }

    /**
     `dispatch_event`: for every recipient occurrence and each of its routes one delivery is scheduled, in a
     request of at most 500 recipients, and no request uses a route that had expired when the call began. The
     routes are those of the routes hash, or of entries of the cache that are still valid.
     */
    method DispatchEvent(users: seq<int>, store: map<int, Stored>, answered: bool, now: int, end: int)
      returns (sends: Option<seq<Send>>, ghost routes: RouteMap, offline: nat)
      requires Valid() && now <= end
      modifies this
      ensures Valid() && ReadingsFrom(old(readings), store, now, end)
      ensures sends.None? <==> !answered && !AllHit(old(routeCache), users, now)
      ensures sends.Some? ==> routes.Keys == SetOf(users)
      ensures sends.Some? ==> forall user :: user in routes ==>
        Answers(old(routeCache), user, routes[user], store, now, end) && Usable(user, routes[user], now)
      ensures sends.Some? ==> Delivered(sends.value) == multiset(Pairs(users, routes))
      ensures sends.Some? ==> forall k :: 0 <= k < |sends.value| ==> GoodSend(sends.value[k], now)
      ensures sends.Some? ==> AllFollow(sends.value, routes)
      ensures sends.Some? ==> offline == |Offline(users, routes, |users|)|
    {
      var result := RoutesForUsers(users, store, answered, now, end);
      routes, offline := map[], 0;
      if result.None? {
        return None, routes, 0;
      }
      routes := result.value;
      var requests;
      requests, offline := Schedule(users, result.value, now);
      sends := Some(requests);
    }
  }
}
