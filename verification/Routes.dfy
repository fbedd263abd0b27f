/**
 The leased snapshot of one user's routes: what the im-servers write (im-server/src/route.rs) and what the
 api-server reads (api-server/src/route.rs).
 */
module Routes {
  import opened Options

  /** One constructor round the text, so that snapshots are not compared string by string. */
  datatype ServerId = ServerId(text: string)

  datatype Lease = Lease(sessions: int, expires: int, url: Option<string>)

  type Snapshot = map<ServerId, Lease>

  /** A field of the routes hash: `Garbage` holds no JSON object, or one that is not a snapshot. */
  datatype Stored = Absent | Garbage | Leases(leases: Snapshot)

  /** `char::is_whitespace`. */
  predicate IsWhite(c: char) {
    || '\U{9}' <= c <= '\U{d}' || c == ' ' || c == '\U{85}' || c == '\U{a0}' || c == '\U{1680}'
    || '\U{2000}' <= c <= '\U{200a}' || c in "\U{2028}\U{2029}\U{202f}\U{205f}\U{3000}"
  }

  /** `text.trim().is_empty()`. */
  predicate Blank(text: string) {
    forall k :: 0 <= k < |text| ==> IsWhite(text[k])
  }

  const I32_MAX := 0x7fff_ffff
  const I64_MAX := 0x7fff_ffff_ffff_ffff
  const I64_MIN := -0x8000_0000_0000_0000

  /** `session_count_i32`. */
  function Sessions32(sessions: nat): int {
    if sessions <= I32_MAX then sessions else I32_MAX
  }

  /** `i64::saturating_add`. */
  function SaturatingAdd(a: int, b: int): int {
    if a + b > I64_MAX then I64_MAX else if a + b < I64_MIN then I64_MIN else a + b
  }

  // ---------- the critical section ----------

  /** `Upsert` with no sessions is `remove_local_route`; `Count` is `get_instance_session_counts`. */
  datatype Request =
    | Upsert(server: ServerId, sessions: nat, ttl: int, url: string)
    | Count

  predicate Live(lease: Lease, now: int) {
    lease.sessions > 0 && lease.expires > now
  }

  /** `load_snapshot`, when the read succeeds or fails. */
  function Loaded(stored: Stored, now: int, read: bool): Snapshot {
    if read && stored.Leases?
    then map s | s in stored.leases && !Blank(s.text) && Live(stored.leases[s], now) :: stored.leases[s]
    else map[]
  }

  /** Loading deletes a value it cannot parse. */
  function Cleaned(stored: Stored, read: bool, clean: bool): Stored {
    if read && clean && stored.Garbage? then Absent else stored
  }

  function NewLease(request: Request, now: int): Lease
    requires request.Upsert?
  {
    Lease(Sessions32(request.sessions), SaturatingAdd(now, Max(request.ttl, 1000)), Some(request.url))
  }

  function Edited(snapshot: Snapshot, request: Request, now: int): Snapshot {
    match request
    case Count => snapshot
    case Upsert(server, sessions, _, _) =>
      if sessions == 0 then snapshot - {server} else snapshot[server := NewLease(request, now)]
  }

  function Fresh(snapshot: Snapshot, now: int): Snapshot {
    map s | s in snapshot && Live(snapshot[s], now) :: snapshot[s]
  }

  /** `persist_snapshot`, when the write succeeds or fails. */
  function Persisted(stored: Stored, snapshot: Snapshot, now: int, write: bool): Stored {
    if !write then stored
    else if Fresh(snapshot, now) == map[] then Absent
    else Leases(Fresh(snapshot, now))
  }

  /** A whole critical section: the clock it read and which of its commands took effect. */
  datatype Op = Op(turn: nat, request: Request, now: int, read: bool, clean: bool, write: bool)

  function Apply(stored: Stored, op: Op): Stored {
    var snapshot := Edited(Loaded(stored, op.now, op.read), op.request, op.now);
    Persisted(Cleaned(stored, op.read, op.clean), snapshot, op.now, op.write)
  }

  /** The critical sections one after another. */
  function Serial(first: Stored, ops: seq<Op>): Stored {
    if ops == [] then first else Apply(Serial(first, ops[..|ops| - 1]), ops[|ops| - 1])
  }

  // ---------- one server at a time ----------

  function LeaseOf(stored: Stored, server: ServerId): Option<Lease> {
    if stored.Leases? && server in stored.leases then Some(stored.leases[server]) else None
  }

  function WhileLive(lease: Option<Lease>, now: int): Option<Lease> {
    if lease.Some? && Live(lease.value, now) then lease else None
  }

  /** What becomes of one server's lease, told without any other server's lease. */
  function LeaseAfter(lease: Option<Lease>, server: ServerId, op: Op): Option<Lease> {
    if !op.write then lease
    else if op.request.Upsert? && op.request.server == server then
      if op.request.sessions == 0 then None else WhileLive(Some(NewLease(op.request, op.now)), op.now)
    else if op.read && !Blank(server.text) then WhileLive(lease, op.now)
    else None
  }

  function LeaseHistory(lease: Option<Lease>, server: ServerId, ops: seq<Op>): Option<Lease> {
    if ops == [] then lease else LeaseAfter(LeaseHistory(lease, server, ops[..|ops| - 1]), server, ops[|ops| - 1])
  }

  lemma EditedOfServer(snapshot: Snapshot, request: Request, now: int, server: ServerId)
    requires request.Upsert?
    ensures var edited := Edited(snapshot, request, now);
      if request.server != server then (server in edited <==> server in snapshot) && (server in snapshot ==> edited[server] == snapshot[server])
      else if request.sessions == 0 then server !in edited
      else server in edited && edited[server] == NewLease(request, now)
  {
  }

  lemma PersistedOfServer(stored: Stored, snapshot: Snapshot, now: int, server: ServerId)
    ensures LeaseOf(Persisted(stored, snapshot, now, true), server)
      == (if server in snapshot then WhileLive(Some(snapshot[server]), now) else None)
  {
    assert server in Fresh(snapshot, now) <==> server in snapshot && Live(snapshot[server], now);
  }

  lemma LoadedOfServer(stored: Stored, now: int, read: bool, server: ServerId)
    ensures var loaded := Loaded(stored, now, read);
      (if server in loaded then Some(loaded[server]) else None)
      == (if read && !Blank(server.text) then WhileLive(LeaseOf(stored, server), now) else None)
  {
  }

  lemma ApplyOfServer(stored: Stored, op: Op, server: ServerId)
    ensures LeaseOf(Apply(stored, op), server) == LeaseAfter(LeaseOf(stored, server), server, op)
  {
    var loaded := Loaded(stored, op.now, op.read);
    var edited := Edited(loaded, op.request, op.now);
    LoadedOfServer(stored, op.now, op.read, server);
    if op.request.Upsert? {
      EditedOfServer(loaded, op.request, op.now, server);
    }
    PersistedOfServer(Cleaned(stored, op.read, op.clean), edited, op.now, server);
  }

  /** Rewriting the whole snapshot each time is the same as updating each server's lease on its own. */
  lemma {:induction false} ServersDoNotInterfere(first: Stored, ops: seq<Op>, server: ServerId)
    ensures LeaseOf(Serial(first, ops), server) == LeaseHistory(LeaseOf(first, server), server, ops)
  {
    if ops != [] {
      var n := |ops| - 1;
      ServersDoNotInterfere(first, ops[..n], server);
      ApplyOfServer(Serial(first, ops[..n]), ops[n], server);
    }
  }

  /** A critical section that leaves this server's lease alone while the lease is unexpired. */
  predicate Spares(op: Op, server: ServerId, lease: Lease) {
    !op.write || (op.read && op.now < lease.expires && !(op.request.Upsert? && op.request.server == server))
  }

  /** The last thing a server wrote is what the snapshot says of it, whoever else came after. */
  lemma {:induction false} UnexpiredLeaseKept(first: Stored, ops: seq<Op>, i: nat, server: ServerId)
    requires i < |ops| && ops[i].write && ops[i].request.Upsert? && ops[i].request.server == server
    requires ops[i].request.sessions > 0 && ops[i].now < I64_MAX && !Blank(server.text)
    requires forall j :: i < j < |ops| ==> Spares(ops[j], server, NewLease(ops[i].request, ops[i].now))
    ensures LeaseOf(Serial(first, ops), server) == Some(NewLease(ops[i].request, ops[i].now))
  {
    var n := |ops| - 1;
    ServersDoNotInterfere(first, ops, server);
    ServersDoNotInterfere(first, ops[..n], server);
    if i < n {
      UnexpiredLeaseKept(first, ops[..n], i, server);
    }
  }

  /** One server's section keeps another's live lease exactly when its read succeeded, or its write did not. */
  lemma LeaseLostIff(stored: Stored, op: Op, server: ServerId)
    requires LeaseOf(stored, server).Some? && Live(LeaseOf(stored, server).value, op.now) && !Blank(server.text)
    requires op.request.Upsert? ==> op.request.server != server
    ensures LeaseOf(Apply(stored, op), server) == LeaseOf(stored, server) <==> op.read || !op.write
  {
    ApplyOfServer(stored, op, server);
  }

  // ---------- the two readers ----------

  datatype UserRoute = UserRoute(server: ServerId, url: string, expires: int)

  /** The route of one lease: a blank address falls back to the configured one. */
  function RouteOf(server: ServerId, lease: Lease, fallback: string): UserRoute {
    var url := if lease.url.Some? && !Blank(lease.url.value) then lease.url.value else fallback;
    UserRoute(server, url, lease.expires)
  }

  /** `parse_user_routes`. */
  function UserRoutes(stored: Stored, now: int, fallback: string): map<ServerId, UserRoute> {
    if stored.Leases?
    then map s | s in stored.leases && Live(stored.leases[s], now) :: RouteOf(s, stored.leases[s], fallback)
    else map[]
  }

  /**
   A route leads to the server of a lease with sessions that has not expired, at the address the lease gives,
   or at the configured one when it gives none or a blank one.
   */
  predicate RouteSays(route: UserRoute, stored: Stored, now: int, fallback: string) {
    && stored.Leases? && route.server in stored.leases
    && var lease := stored.leases[route.server];
       && lease.sessions > 0 && lease.expires > now && route.expires == lease.expires
       && (lease.url.Some? && !Blank(lease.url.value) ==> route.url == lease.url.value)
       && (lease.url == None || Blank(lease.url.value) ==> route.url == fallback)
  }

  lemma RoutesSay(stored: Stored, now: int, fallback: string, s: ServerId)
    ensures s in UserRoutes(stored, now, fallback) <==>
      stored.Leases? && s in stored.leases && stored.leases[s].sessions > 0 && stored.leases[s].expires > now
    ensures s in UserRoutes(stored, now, fallback) ==>
      UserRoutes(stored, now, fallback)[s].server == s && RouteSays(UserRoutes(stored, now, fallback)[s], stored, now, fallback)
  {
  }

  /** A text is blank exactly when each of its characters is; of the first 128 those are the six that ASCII has. */
  lemma BlankIs(a: string, b: string, c: char)
    ensures Blank("") && (Blank(a + b) <==> Blank(a) && Blank(b)) && (Blank([c]) <==> IsWhite(c))
    ensures c < '\U{80}' ==> (IsWhite(c) <==> c in " \t\n\r\U{b}\U{c}")
  {
    assert forall k :: 0 <= k < |a| ==> (a + b)[k] == a[k];
    assert forall k :: 0 <= k < |b| ==> (a + b)[|a| + k] == b[k];
    assert [c][0] == c;
  }

  /** How long a lease is good for: what is configured, and never less than a second. */
  predicate Lifetime(ttl: int, ms: int) {
    (ttl >= 1000 && ms == ttl) || (ttl < 1000 && ms == 1000)
  }

  /** What a server registers is what both readers find, up to the instant at which it expires, and no longer. */
  lemma LeaseIsReadBack(stored: Stored, op: Op, ms: int, t: int, fallback: string)
    requires op.write && op.request.Upsert? && op.request.sessions > 0 && !Blank(op.request.server.text)
    requires Lifetime(op.request.ttl, ms) && -0x8000_0000_0000_0000 <= op.now && op.now + ms <= 0x7fff_ffff_ffff_ffff
    ensures var after, server := Apply(stored, op), op.request.server;
      && (server in UserRoutes(after, t, fallback) <==> t < op.now + ms)
      && (server in SessionCounts(Loaded(after, t, true)) <==> t < op.now + ms)
      && (t < op.now + ms ==>
            && UserRoutes(after, t, fallback)[server].expires == op.now + ms
            && (!Blank(op.request.url) ==> UserRoutes(after, t, fallback)[server].url == op.request.url)
            && (Blank(op.request.url) ==> UserRoutes(after, t, fallback)[server].url == fallback)
            && (op.request.sessions <= 2147483647 ==> SessionCounts(Loaded(after, t, true))[server] == op.request.sessions)
            && (op.request.sessions > 2147483647 ==> SessionCounts(Loaded(after, t, true))[server] == 2147483647))
  {
    var after, server := Apply(stored, op), op.request.server;
    ApplyOfServer(stored, op, server);
    assert LeaseOf(after, server) == Some(NewLease(op.request, op.now));
    RoutesSay(after, t, fallback, server);
    LoadedOfServer(after, t, true, server);
  }

  /** A lease that would last beyond the last instant of 64 bits lasts until that. */
  lemma LongestLease(request: Request, now: int)
    requires request.Upsert? && now <= 0x7fff_ffff_ffff_ffff
    requires now + request.ttl > 0x7fff_ffff_ffff_ffff || now + 1000 > 0x7fff_ffff_ffff_ffff
    ensures NewLease(request, now).expires == 0x7fff_ffff_ffff_ffff
  {
  }

  /** A section whose write takes effect leaves leases, or no field; one that only loads takes away what it cannot parse. */
  lemma FieldIsDeletedIff(stored: Stored, op: Op)
    ensures op.write ==>
      && !Apply(stored, op).Garbage?
      && (Apply(stored, op).Absent? <==> forall server: ServerId :: LeaseOf(Apply(stored, op), server) == None)
    ensures !op.write ==> Apply(stored, op) == if stored.Garbage? && op.read && op.clean then Absent else stored
  {
    if Apply(stored, op).Leases? && op.write {
      var server :| server in Apply(stored, op).leases;
      assert LeaseOf(Apply(stored, op), server).Some?;
    }
  }

  /** A server without sessions takes its lease away. */
  lemma LeaseIsRemoved(stored: Stored, op: Op)
    requires op.write && op.request.Upsert? && op.request.sessions == 0
    ensures LeaseOf(Apply(stored, op), op.request.server) == None
  {
    ApplyOfServer(stored, op, op.request.server);
  }

  /** What `get_instance_session_counts` returns for what it has loaded. */
  function SessionCounts(snapshot: Snapshot): map<ServerId, int> {
    map s | s in snapshot && snapshot[s].sessions > 0 :: snapshot[s].sessions
  }

  predicate NoBlankIds(stored: Stored, now: int) {
    stored.Leases? ==> forall s :: s in stored.leases && Live(stored.leases[s], now) ==> !Blank(s.text)
  }

  /** Pushes go to exactly the servers that count as online, unless a blank server id has got into the snapshot. */
  lemma ReadersAgreeIff(stored: Stored, now: int, fallback: string)
    ensures UserRoutes(stored, now, fallback).Keys == SessionCounts(Loaded(stored, now, true)).Keys <==> NoBlankIds(stored, now)
  {
    var routes, counts := UserRoutes(stored, now, fallback), SessionCounts(Loaded(stored, now, true));
    assert forall s :: s in counts <==> s in routes && !Blank(s.text);
    if !NoBlankIds(stored, now) {
      var s :| s in stored.leases && Live(stored.leases[s], now) && Blank(s.text);
      assert s in routes.Keys && s !in counts.Keys;
    }
  }

  predicate NamedRequest(request: Request) {
    request.Upsert? ==> !Blank(request.server.text)
  }

  /** Sections of servers with names never store a blank id, whatever was stored before the first write. */
  lemma {:induction false} WrittenIdsAreNotBlank(first: Stored, ops: seq<Op>, now: int)
    requires forall j :: 0 <= j < |ops| ==> NamedRequest(ops[j].request)
    requires NoBlankIds(first, now) || exists j :: 0 <= j < |ops| && ops[j].write
    ensures NoBlankIds(Serial(first, ops), now)
  {
    if ops != [] {
      var n := |ops| - 1;
      if !ops[n].write {
        WrittenIdsAreNotBlank(first, ops[..n], now);
      } else {
        var snapshot := Loaded(Serial(first, ops[..n]), ops[n].now, ops[n].read);
        assert forall s :: s in Edited(snapshot, ops[n].request, ops[n].now) ==> !Blank(s.text);
      }
    }
  }

  /** The mathematical sum; the source adds in 32 bits. */
  ghost function Sum(counts: map<ServerId, int>): int {
    if counts == map[] then 0
    else
      var s :| s in counts;
      counts[s] + Sum(counts - {s})
  }

  /** An `i32` sum in a release build. */
  function Wrap32(n: int): int {
    (n + 0x8000_0000) % 0x1_0000_0000 - 0x8000_0000
  }

  /** `is_user_globally_online`. */
  ghost predicate Online(stored: Stored, now: int) {
    Wrap32(Sum(SessionCounts(Loaded(stored, now, true)))) > 0
  }

  lemma {:induction false} SumIsPositive(counts: map<ServerId, int>)
    requires forall s :: s in counts ==> counts[s] > 0
    ensures Sum(counts) >= 0 && (Sum(counts) > 0 <==> counts != map[])
  {
    if counts != map[] {
      var s :| s in counts && Sum(counts) == counts[s] + Sum(counts - {s});
      SumIsPositive(counts - {s});
    }
  }

  lemma WrapsPositiveIff(n: nat)
    ensures Wrap32(n) > 0 <==> 0 < n % 0x1_0000_0000 < 0x8000_0000
  {
  }

  lemma CountedIffRouted(stored: Stored, now: int, fallback: string)
    requires NoBlankIds(stored, now)
    ensures SessionCounts(Loaded(stored, now, true)) == map[] <==> UserRoutes(stored, now, fallback) == map[]
  {
    ReadersAgreeIff(stored, now, fallback);
    var counts, routes := SessionCounts(Loaded(stored, now, true)), UserRoutes(stored, now, fallback);
    assert counts == map[] <==> counts.Keys == {};
    assert routes == map[] <==> routes.Keys == {};
  }

  /** A user is online exactly when there is a route to push to, as long as the 32-bit sum does not turn negative or to zero. */
  lemma OnlineIffRouted(stored: Stored, now: int, fallback: string)
    requires NoBlankIds(stored, now)
    ensures var sum := Sum(SessionCounts(Loaded(stored, now, true)));
      (Online(stored, now) <==> UserRoutes(stored, now, fallback) != map[]) <==> sum == 0 || 0 < sum % 0x1_0000_0000 < 0x8000_0000
  {
    CountedIffRouted(stored, now, fallback);
    SumIsPositive(SessionCounts(Loaded(stored, now, true)));
    WrapsPositiveIff(Sum(SessionCounts(Loaded(stored, now, true))));
  }

  /** One lease of the largest session count for each of two servers. */
  function BothFull(a: ServerId, b: ServerId): Snapshot {
    map[a := Lease(I32_MAX, 1, None), b := Lease(I32_MAX, 1, None)]
  }

  lemma BothFullCount(a: ServerId, b: ServerId)
    requires a != b && !Blank(a.text) && !Blank(b.text)
    ensures NoBlankIds(Leases(BothFull(a, b)), 0)
    ensures Loaded(Leases(BothFull(a, b)), 0, true) == BothFull(a, b)
    ensures SessionCounts(BothFull(a, b)) == map[a := I32_MAX, b := I32_MAX]
    ensures UserRoutes(Leases(BothFull(a, b)), 0, "").Keys == {a, b}
  {
  }

  /** Two servers with the largest session counts: their user has two routes, and is offline. */
  lemma LargeCountsHideAUser(a: ServerId, b: ServerId)
    requires a != b && !Blank(a.text) && !Blank(b.text)
    ensures UserRoutes(Leases(BothFull(a, b)), 0, "").Keys == {a, b} && !Online(Leases(BothFull(a, b)), 0)
  {
    BothFullCount(a, b);
    SumOfTwo(a, b, I32_MAX);
  }

  lemma SumOfOne(a: ServerId, n: int)
    ensures Sum(map[a := n]) == n
  {
    var one := map[a := n];
    assert a in one;
    var s :| s in one && Sum(one) == one[s] + Sum(one - {s});
    assert one - {s} == map[];
  }

  lemma SumOfTwo(a: ServerId, b: ServerId, n: int)
    requires a != b
    ensures Sum(map[a := n, b := n]) == 2 * n
  {
    var both := map[a := n, b := n];
    assert a in both;
    var s :| s in both && Sum(both) == both[s] + Sum(both - {s});
    var t := if s == a then b else a;
    assert both - {s} == map[t := n];
    SumOfOne(t, n);
  }

  // ---------- finding the object in the bytes ----------

  /** `str::find`. */
  function Find(text: string, c: char): Option<nat> {
    if text == [] then None
    else if text[0] == c then Some(0)
    else
      var rest := Find(text[1..], c);
      if rest.Some? then Some(rest.value + 1) else None
  }

  /** `str::rfind`. */
  function FindLast(text: string, c: char): Option<nat> {
    if text == [] then None
    else if text[|text| - 1] == c then Some(|text| - 1)
    else FindLast(text[..|text| - 1], c)
  }

  lemma {:induction false} FindIsFirst(text: string, c: char)
    ensures match Find(text, c)
      case Some(i) => i < |text| && text[i] == c && forall j :: 0 <= j < i ==> text[j] != c
      case None => c !in text
  {
    if text != [] && text[0] != c {
      FindIsFirst(text[1..], c);
      assert text == [text[0]] + text[1..];
    }
  }

  lemma {:induction false} FindLastIsLast(text: string, c: char)
    ensures match FindLast(text, c)
      case Some(i) => i < |text| && text[i] == c && forall j :: i < j < |text| ==> text[j] != c
      case None => c !in text
  {
    if text != [] && text[|text| - 1] != c {
      var n := |text| - 1;
      FindLastIsLast(text[..n], c);
      assert text == text[..n] + [text[n]];
    }
  }

  /** `extract_json_object`, the same in both programs. */
  function ExtractObject(text: string): Option<string> {
    var start, end := Find(text, '{'), FindLast(text, '}');
    if start.None? || end.None? || end.value < start.value then None
    else
      FindIsFirst(text, '{');
      FindLastIsLast(text, '}');
      Some(text[start.value..end.value + 1])
  }

  predicate Braced(text: string) {
    |text| >= 2 && text[0] == '{' && text[|text| - 1] == '}'
  }

  predicate Around(before: string, json: string, after: string, text: string) {
    text == before + json + after && '{' !in before && Braced(json) && '}' !in after
  }

  /** It finds an object exactly when the text is one with anything in front that opens no brace and anything after that closes none. */
  lemma ObjectRecovered(before: string, json: string, after: string)
    requires '{' !in before && Braced(json) && '}' !in after
    ensures ExtractObject(before + json + after) == Some(json)
  {
    var text := before + json + after;
    FindIsFirst(text, '{');
    FindLastIsLast(text, '}');
    assert text[|before|] == '{' && text[|before| + |json| - 1] == '}';
    assert forall i :: 0 <= i < |before| ==> text[i] == before[i];
    assert forall i :: |before| + |json| <= i < |text| ==> text[i] == after[i - |before| - |json|];
    assert Find(text, '{') == Some(|before|);
    assert FindLast(text, '}') == Some(|before| + |json| - 1);
  }

  lemma SplitAround(text: string, start: nat, end: nat)
    requires start < end < |text| && text[start] == '{' && text[end] == '}'
    requires forall i :: 0 <= i < start ==> text[i] != '{'
    requires forall i :: end < i < |text| ==> text[i] != '}'
    ensures Around(text[..start], text[start..end + 1], text[end + 1..], text)
  {
    assert text == text[..start] + text[start..end + 1] + text[end + 1..];
  }

  lemma {:induction false} ObjectIsAround(text: string, json: string) returns (before: string, after: string)
    requires ExtractObject(text) == Some(json)
    ensures Around(before, json, after, text)
  {
    FindIsFirst(text, '{');
    FindLastIsLast(text, '}');
    var start, end := Find(text, '{').value, FindLast(text, '}').value;
    SplitAround(text, start, end);
    before, after := text[..start], text[end + 1..];
  }
}
