/**
 The outbox: producers store an event and add it to the pending set, and any number of publishers move
 events to the streams (social_helpers.rs, message_redis.rs, background_publisher.rs). A publisher is cut
 at every Redis command, since its pipelines are not transactions; a crash drops the commands left.

 Event ids are fresh uuids, so an id stands for its key and for its member of the pending set.
 */
module Outbox {
  import opened Options
  import opened Events
  import opened WriterMachine

  datatype Kind = PrivateStream | GroupStream

  /** `event_stream_kind`. */
  function KindOf(event: ImEvent): Kind {
    if event.group || event.groupId.Some? || (event.payload.Some? && event.payload.value.isGroupChat)
    then GroupStream
    else PrivateStream
  }

  /** A member of the pending set, in its text form. */
  datatype Member = Member(text: string)

  /**
   How an event was enqueued: its text, its score and its member in the pending set, how many events were
   enqueued before it, and which hot Redis holds it.
   */
  datatype Birth = Birth(payload: Payload, score: int, member: Member, order: nat, source: nat)

  datatype Command =
    | Del(keys: seq<EventId>)
    | Zrem(members: seq<EventId>)
    | Xadd(kind: Kind, event: ImEvent)

  /** Between two commands: nothing fetched, payloads being read, or the commands still to send. */
  datatype Publisher =
    | Idle
    | Loading(due: seq<EventId>, loaded: seq<Option<Payload>>)
    | Running(commands: seq<Command>)

  datatype State = State(
    payloads: map<EventId, Payload>,
    pending: map<EventId, int>,
    staged: map<EventId, Payload>,
    born: map<EventId, Birth>,
    privateLog: seq<Entry>,
    groupLog: seq<Entry>,
    publishers: map<nat, Publisher>)

  const EMPTY_OUTBOX := State(map[], map[], map[], map[], [], [], map[])

  function LogOf(s: State, kind: Kind): seq<Entry> {
    if kind.PrivateStream? then s.privateLog else s.groupLog
  }

  function PublisherOf(s: State, p: nat): Publisher {
    if p in s.publishers then s.publishers[p] else Idle
  }

  // ---------- the members of the pending set ----------

  function PendingMember(eventId: string, conversationId: string): string {
    eventId + "|" + conversationId
  }

  /** `member.split('|').next()`. */
  function MemberEventId(member: string): string {
    if member == [] || member[0] == '|' then []
    else [member[0]] + MemberEventId(member[1..])
  }

  /** A member leads back to its event exactly when the event id has no separator in it. */
  lemma {:induction false} MemberRoundTripIff(eventId: string, conversationId: string)
    ensures MemberEventId(PendingMember(eventId, conversationId)) == eventId <==> '|' !in eventId
  {
    var member := PendingMember(eventId, conversationId);
    if eventId == [] {
      assert member[0] == '|';
    } else if eventId[0] == '|' {
      assert MemberEventId(member) == [];
    } else {
      MemberRoundTripIff(eventId[1..], conversationId);
      assert member[1..] == PendingMember(eventId[1..], conversationId);
      assert eventId == [eventId[0]] + eventId[1..];
      assert MemberEventId(member)[1..] == MemberEventId(member[1..]);
    }
  }

  // ---------- the commands of one publishing turn ----------

  /** Pending members whose payload is gone or is not an event. */
  function StaleIds(due: seq<EventId>, loaded: seq<Option<Payload>>): seq<EventId>
    requires |due| == |loaded|
  {
    if due == [] then []
    else
      var n := |due| - 1;
      StaleIds(due[..n], loaded[..n]) + if loaded[n].None? || loaded[n].value.NotJson? then [due[n]] else []
  }

  function StaleKeys(due: seq<EventId>, loaded: seq<Option<Payload>>): seq<EventId>
    requires |due| == |loaded|
  {
    if due == [] then []
    else
      var n := |due| - 1;
      StaleKeys(due[..n], loaded[..n]) + if loaded[n].Some? && loaded[n].value.NotJson? then [due[n]] else []
  }

  datatype Item = Item(id: EventId, event: ImEvent)

  /** The loaded events that belong to one stream, in the order fetched. */
  function ItemsOf(due: seq<EventId>, loaded: seq<Option<Payload>>, kind: Kind): seq<Item>
    requires |due| == |loaded|
  {
    if due == [] then []
    else
      var n := |due| - 1;
      var init := ItemsOf(due[..n], loaded[..n], kind);
      if loaded[n].Some? && loaded[n].value.Json? && KindOf(loaded[n].value.event) == kind
      then init + [Item(due[n], loaded[n].value.event)]
      else init
  }

  function IdsOf(items: seq<Item>): (ids: seq<EventId>)
    ensures |ids| == |items| && forall k :: 0 <= k < |ids| ==> ids[k] == items[k].id
  {
    seq(|items|, k requires 0 <= k < |items| => items[k].id)
  }

  function Xadds(kind: Kind, items: seq<Item>): seq<Command> {
    if items == [] then [] else [Xadd(kind, items[0].event)] + Xadds(kind, items[1..])
  }

  /** `remove_stale_events`. */
  function RemovalCommands(ids: seq<EventId>, keys: seq<EventId>): seq<Command> {
    (if keys != [] then [Del(keys)] else []) + (if ids != [] then [Zrem(ids)] else [])
  }

  /** `EventPublisher::publish`: the appends, and only then the removals. */
  function PublishCommands(kind: Kind, items: seq<Item>): seq<Command> {
    if items == [] then [] else Xadds(kind, items) + RemovalCommands(IdsOf(items), IdsOf(items))
  }

  /** What `publish_due_events` sends once it has read the payloads. */
  function PlanCommands(due: seq<EventId>, loaded: seq<Option<Payload>>): seq<Command>
    requires |due| == |loaded|
  {
    RemovalCommands(StaleIds(due, loaded), StaleKeys(due, loaded))
    + PublishCommands(PrivateStream, ItemsOf(due, loaded, PrivateStream))
    + PublishCommands(GroupStream, ItemsOf(due, loaded, GroupStream))
  }

  // ---------- the steps ----------

  function Execute(s: State, command: Command): State {
    match command
    case Del(keys) => s.(payloads := s.payloads - (set k | k in keys))
    case Zrem(members) => s.(pending := s.pending - (set m | m in members))
    case Xadd(kind, event) =>
      var entry := Entry(event.eventId, Json(event));
      if kind.PrivateStream? then s.(privateLog := s.privateLog + [entry]) else s.(groupLog := s.groupLog + [entry])
  }

  predicate Fresh(s: State, id: EventId) {
    id !in s.born && id !in s.staged && id !in s.payloads
  }

  predicate NamesItself(id: EventId, payload: Payload) {
    payload.Json? ==> payload.event.eventId == id
  }

  /** The order of a sorted set among equal scores: byte by byte. */
  predicate TextBefore(a: string, b: string) {
    b != [] && (a == [] || a[0] < b[0] || (a[0] == b[0] && TextBefore(a[1..], b[1..])))
  }

  /** The first text ends, or has the lesser character, where the two first differ. */
  ghost predicate Precedes(a: string, b: string) {
    exists k :: 0 <= k <= |a| && k < |b| && a[..k] == b[..k] && (k == |a| || a[k] < b[k])
  }

  lemma {:induction false} TextBeforeIff(a: string, b: string)
    ensures TextBefore(a, b) <==> Precedes(a, b)
  {
    if a != [] && b != [] && a[0] == b[0] {
      TextBeforeIff(a[1..], b[1..]);
      if Precedes(a[1..], b[1..]) {
        var k :| 0 <= k <= |a[1..]| && k < |b[1..]| && a[1..][..k] == b[1..][..k] && (k == |a[1..]| || a[1..][k] < b[1..][k]);
        assert a[..k + 1] == [a[0]] + a[1..][..k] && b[..k + 1] == [b[0]] + b[1..][..k];
      }
      if Precedes(a, b) {
        var k :| 0 <= k <= |a| && k < |b| && a[..k] == b[..k] && (k == |a| || a[k] < b[k]);
        assert k > 0;
        assert a[1..][..k - 1] == a[..k][1..] && b[1..][..k - 1] == b[..k][1..];
      }
    } else if TextBefore(a, b) {
      assert a[..0] == b[..0];
    }
  }

  predicate SortsBefore(a: Birth, b: Birth) {
    a.score < b.score || (a.score == b.score && TextBefore(a.member.text, b.member.text))
  }

  /** `ZRANGEBYSCORE pending -inf now LIMIT 0 limit` on one hot Redis: the lowest scores first, equal ones by member. */
  predicate DueReply(s: State, source: nat, now: int, limit: nat, due: seq<EventId>) {
    && |due| <= limit
    && (forall id :: id in due ==> id in s.pending && id in s.born && s.born[id].source == source && s.pending[id] <= now)
    && (forall b :: 0 <= b < |due| && due[b] in s.born ==>
          forall y :: y in s.pending && y in s.born && s.born[y].source == source && SortsBefore(s.born[y], s.born[due[b]]) ==>
            exists a :: 0 <= a < b && due[a] == y)
  }

  datatype Action =
    | Enqueue(id: EventId, conversation: string, payload: Payload, score: int, source: nat)
    | Stage(id: EventId, payload: Payload)
    | Complete(id: EventId, conversation: string, score: int, source: nat)
    | Fetch(p: nat, source: nat, now: int, limit: nat, due: seq<EventId>)
    | Get(p: nat)
    | Plan(p: nat)
    | Send(p: nat)
    | Crash(p: nat)

  /**
   `Enqueue` is the atomic pipeline or script of the message and social writers; `write_state_event` runs the
   two commands `Stage` and `Complete` apart. `Crash` is also how a finished turn ends.
   */
  predicate Enabled(s: State, action: Action) {
    match action
    case Enqueue(id, _, payload, _, _) => Fresh(s, id) && NamesItself(id, payload)
    case Stage(id, payload) => Fresh(s, id) && NamesItself(id, payload)
    case Complete(id, _, _, _) => id in s.staged
    case Fetch(p, source, now, limit, due) => PublisherOf(s, p).Idle? && DueReply(s, source, now, limit, due)
    case Get(p) => PublisherOf(s, p).Loading? && |PublisherOf(s, p).loaded| < |PublisherOf(s, p).due|
    case Plan(p) => PublisherOf(s, p).Loading? && |PublisherOf(s, p).loaded| == |PublisherOf(s, p).due|
    case Send(p) => PublisherOf(s, p).Running? && PublisherOf(s, p).commands != []
    case Crash(_) => true
  }

  function Born(s: State, id: EventId, conversation: string, payload: Payload, score: int, source: nat): State {
    s.(pending := s.pending[id := score],
       born := s.born[id := Birth(payload, score, Member(PendingMember(id.text, conversation)), |s.born|, source)])
  }

  function Do(s: State, action: Action): State
    requires Enabled(s, action)
  {
    match action
    case Enqueue(id, conversation, payload, score, source) =>
      Born(s, id, conversation, payload, score, source).(payloads := s.payloads[id := payload])
    case Stage(id, payload) => s.(payloads := s.payloads[id := payload], staged := s.staged[id := payload])
    case Complete(id, conversation, score, source) =>
      Born(s, id, conversation, s.staged[id], score, source).(staged := s.staged - {id})
    case Fetch(p, _, _, _, due) => s.(publishers := s.publishers[p := Loading(due, [])])
    case Get(p) =>
      var publisher := PublisherOf(s, p);
      var id := publisher.due[|publisher.loaded|];
      var reply := if id in s.payloads then Some(s.payloads[id]) else None;
      s.(publishers := s.publishers[p := publisher.(loaded := publisher.loaded + [reply])])
    case Plan(p) =>
      var publisher := PublisherOf(s, p);
      s.(publishers := s.publishers[p := Running(PlanCommands(publisher.due, publisher.loaded))])
    case Send(p) =>
      var commands := PublisherOf(s, p).commands;
      Execute(s, commands[0]).(publishers := s.publishers[p := Running(commands[1..])])
    case Crash(p) => s.(publishers := s.publishers[p := Idle])
  }

  ghost predicate StepBy(s: State, s': State, action: Action) {
    Enabled(s, action) && s' == Do(s, action)
  }

  ghost predicate Step(s: State, s': State) {
    s' == s || exists action :: StepBy(s, s', action)
  }

  // ---------- what every step keeps ----------

  function StreamIds(s: State): set<EventId> {
    (set k | 0 <= k < |s.privateLog| :: s.privateLog[k].eventId) + (set k | 0 <= k < |s.groupLog| :: s.groupLog[k].eventId)
  }

  predicate IsBirth(born: map<EventId, Birth>, kind: Kind, event: ImEvent) {
    event.eventId in born && born[event.eventId].payload == Json(event) && KindOf(event) == kind
  }

  /** Enqueued earlier, sorted before it, in the same hot Redis and for the same stream. */
  predicate Before(born: map<EventId, Birth>, i: EventId, j: EventId) {
    && i in born && j in born
    && born[i].payload.Json? && born[j].payload.Json?
    && KindOf(born[i].payload.event) == KindOf(born[j].payload.event)
    && born[i].source == born[j].source
    && born[i].order < born[j].order && SortsBefore(born[i], born[j])
  }

  /** Removing these ids loses nothing: each is in a stream already, or was never an event. */
  ghost predicate Removable(born: map<EventId, Birth>, ids: seq<EventId>, done: set<EventId>) {
    forall id :: id in ids ==> id in born && (born[id].payload.Json? ==> id in done)
  }

  /** The commands append before they remove, and append in order, once the ids in `done` are in the streams. */
  ghost predicate Safe(born: map<EventId, Birth>, commands: seq<Command>, done: set<EventId>) {
    commands == [] ||
    match commands[0]
    case Xadd(kind, event) =>
      && IsBirth(born, kind, event)
      && (forall i :: Before(born, i, event.eventId) ==> i in done)
      && Safe(born, commands[1..], done + {event.eventId})
    case Del(keys) => Removable(born, keys, done) && Safe(born, commands[1..], done)
    case Zrem(members) => Removable(born, members, done) && Safe(born, commands[1..], done)
  }

  ghost predicate LoadedRight(born: map<EventId, Birth>, due: seq<EventId>, loaded: seq<Option<Payload>>, done: set<EventId>) {
    && |loaded| <= |due|
    && (forall k :: 0 <= k < |due| ==> due[k] in born)
    && (forall k :: 0 <= k < |loaded| && loaded[k].Some? ==> loaded[k].value == born[due[k]].payload)
    && (forall k :: 0 <= k < |loaded| && loaded[k].None? && born[due[k]].payload.Json? ==> due[k] in done)
  }

  /** Whatever has to precede an id of the list is in a stream or earlier in the list. */
  ghost predicate Ordered(born: map<EventId, Birth>, ids: seq<EventId>, done: set<EventId>) {
    forall b, i :: 0 <= b < |ids| && Before(born, i, ids[b]) && i !in done ==> exists a :: 0 <= a < b && ids[a] == i
  }

  ghost predicate PublisherSafe(born: map<EventId, Birth>, publisher: Publisher, done: set<EventId>) {
    match publisher
    case Idle => true
    case Loading(due, loaded) => LoadedRight(born, due, loaded, done) && Ordered(born, due, done)
    case Running(commands) => Safe(born, commands, done)
  }

  ghost predicate PublishersSafe(s: State) {
    forall p :: p in s.publishers ==> PublisherSafe(s.born, s.publishers[p], StreamIds(s))
  }

  ghost predicate NamesRight(s: State) {
    && (forall id :: id in s.born ==> NamesItself(id, s.born[id].payload) && s.born[id].order < |s.born|)
    && (forall id :: id in s.staged ==> id !in s.born && NamesItself(id, s.staged[id]))
  }

  ghost predicate PayloadsRight(s: State) {
    && (forall id :: id in s.staged ==> id in s.payloads && s.payloads[id] == s.staged[id])
    && (forall id :: id in s.payloads && id !in s.staged ==> id in s.born && s.payloads[id] == s.born[id].payload)
  }

  ghost predicate PendingRight(s: State) {
    forall id :: id in s.pending ==> id in s.born && s.pending[id] == s.born[id].score
  }

  ghost predicate BornRight(s: State) {
    NamesRight(s) && PayloadsRight(s) && PendingRight(s)
  }

  /** An event enqueued and not yet in a stream is pending, with its payload. */
  ghost predicate NothingDropped(s: State) {
    forall id :: id in s.born && s.born[id].payload.Json? && id !in StreamIds(s) ==> id in s.pending && id in s.payloads
  }

  ghost predicate LogRight(s: State, kind: Kind) {
    var log := LogOf(s, kind);
    && (forall k :: 0 <= k < |log| ==>
          log[k].payload.Json? && log[k].eventId == log[k].payload.event.eventId && IsBirth(s.born, kind, log[k].payload.event))
    && (forall k, i :: 0 <= k < |log| && Before(s.born, i, log[k].eventId) ==>
          exists k' :: 0 <= k' < k && log[k'].eventId == i)
  }

  ghost predicate Inv(s: State) {
    && BornRight(s)
    && NothingDropped(s)
    && LogRight(s, PrivateStream) && LogRight(s, GroupStream)
    && PublishersSafe(s)
  }

  // ---------- the commands are safe ----------

  lemma {:induction false} SafeLater(born: map<EventId, Birth>, commands: seq<Command>, done: set<EventId>, more: set<EventId>)
    requires Safe(born, commands, done) && done <= more
    ensures Safe(born, commands, more)
  {
    if commands != [] {
      match commands[0]
      case Xadd(kind, event) => SafeLater(born, commands[1..], done + {event.eventId}, more + {event.eventId});
      case _ => SafeLater(born, commands[1..], done, more);
    }
  }

  /** A newer birth does not come before an older one. */
  ghost predicate Grows(born: map<EventId, Birth>, more: map<EventId, Birth>) {
    && (forall id :: id in born ==> id in more && more[id] == born[id] && born[id].order < |born|)
    && (forall id :: id in more && id !in born ==> more[id].order >= |born|)
  }

  lemma BeforeUnchanged(born: map<EventId, Birth>, more: map<EventId, Birth>, i: EventId, j: EventId)
    requires Grows(born, more) && j in born
    ensures Before(more, i, j) <==> Before(born, i, j)
  {
  }

  lemma {:induction false} SafeAfterBirth(born: map<EventId, Birth>, more: map<EventId, Birth>, commands: seq<Command>, done: set<EventId>)
    requires Safe(born, commands, done) && Grows(born, more)
    ensures Safe(more, commands, done)
  {
    if commands != [] {
      match commands[0]
      case Xadd(kind, event) =>
        SafeAfterBirth(born, more, commands[1..], done + {event.eventId});
      case _ => SafeAfterBirth(born, more, commands[1..], done);
    }
  }

  function XaddIds(commands: seq<Command>): set<EventId> {
    if commands == [] then {}
    else (if commands[0].Xadd? then {commands[0].event.eventId} else {}) + XaddIds(commands[1..])
  }

  lemma {:induction false} SafeConcat(born: map<EventId, Birth>, a: seq<Command>, b: seq<Command>, done: set<EventId>)
    requires Safe(born, a, done) && Safe(born, b, done + XaddIds(a))
    ensures Safe(born, a + b, done)
  {
    if a == [] {
      assert a + b == b && done + XaddIds(a) == done;
    } else {
      assert (a + b)[0] == a[0] && (a + b)[1..] == a[1..] + b;
      match a[0]
      case Xadd(kind, event) =>
        assert done + {event.eventId} + XaddIds(a[1..]) == done + XaddIds(a);
        SafeConcat(born, a[1..], b, done + {event.eventId});
      case _ =>
        assert XaddIds(a) == XaddIds(a[1..]);
        SafeConcat(born, a[1..], b, done);
    }
  }

  lemma RemovalIsSafe(born: map<EventId, Birth>, ids: seq<EventId>, keys: seq<EventId>, done: set<EventId>)
    requires Removable(born, ids, done) && Removable(born, keys, done)
    ensures Safe(born, RemovalCommands(ids, keys), done)
  {
    var commands := RemovalCommands(ids, keys);
    if keys != [] && ids != [] {
      assert commands == [Del(keys), Zrem(ids)] && commands[1..] == [Zrem(ids)] && commands[1..][1..] == [];
    } else if commands != [] {
      assert commands[1..] == [];
    }
  }

  ghost predicate ItemsRight(born: map<EventId, Birth>, kind: Kind, items: seq<Item>) {
    forall k :: 0 <= k < |items| ==> items[k].id == items[k].event.eventId && IsBirth(born, kind, items[k].event)
  }

  lemma {:induction false} XaddsAreSafe(born: map<EventId, Birth>, kind: Kind, items: seq<Item>, done: set<EventId>)
    requires ItemsRight(born, kind, items) && Ordered(born, IdsOf(items), done)
    ensures Safe(born, Xadds(kind, items), done)
    ensures XaddIds(Xadds(kind, items)) == set id | id in IdsOf(items)
  {
    if items != [] {
      var head, rest := items[0], items[1..];
      var ids := IdsOf(items);
      assert ids[0] == head.id;
      assert IdsOf(rest) == ids[1..];
      forall b, i | 0 <= b < |rest| && Before(born, i, IdsOf(rest)[b]) && i !in done + {head.id}
        ensures exists a :: 0 <= a < b && IdsOf(rest)[a] == i
      {
        assert Before(born, i, ids[b + 1]);
        var a :| 0 <= a < b + 1 && ids[a] == i;
        assert IdsOf(rest)[a - 1] == i;
      }
      XaddsAreSafe(born, kind, rest, done + {head.id});
      assert Xadds(kind, items)[1..] == Xadds(kind, rest);
      assert ids == [head.id] + IdsOf(rest);
    }
  }

  lemma PublishIsSafe(born: map<EventId, Birth>, kind: Kind, items: seq<Item>, done: set<EventId>)
    requires ItemsRight(born, kind, items) && Ordered(born, IdsOf(items), done)
    ensures Safe(born, PublishCommands(kind, items), done)
  {
    if items != [] {
      var ids := IdsOf(items);
      XaddsAreSafe(born, kind, items, done);
      forall id | id in ids
        ensures id in born && id in done + XaddIds(Xadds(kind, items))
      {
        var k :| 0 <= k < |ids| && ids[k] == id;
        assert IsBirth(born, kind, items[k].event);
      }
      RemovalIsSafe(born, ids, ids, done + XaddIds(Xadds(kind, items)));
      SafeConcat(born, Xadds(kind, items), RemovalCommands(ids, ids), done);
    }
  }

  lemma {:induction false} StaleIsRemovable(born: map<EventId, Birth>, due: seq<EventId>, loaded: seq<Option<Payload>>, done: set<EventId>)
    requires |due| == |loaded| && LoadedRight(born, due, loaded, done)
    ensures Removable(born, StaleIds(due, loaded), done) && Removable(born, StaleKeys(due, loaded), done)
  {
    if due != [] {
      var n := |due| - 1;
      StaleIsRemovable(born, due[..n], loaded[..n], done);
    }
  }

  /** An event loaded for the stream is among its items. */
  lemma {:induction false} LoadedIsItem(born: map<EventId, Birth>, due: seq<EventId>, loaded: seq<Option<Payload>>, kind: Kind, a: nat)
    requires |due| == |loaded| && a < |due|
    requires loaded[a].Some? && loaded[a].value.Json? && KindOf(loaded[a].value.event) == kind
    ensures exists k :: 0 <= k < |ItemsOf(due, loaded, kind)| && ItemsOf(due, loaded, kind)[k].id == due[a]
  {
    var n := |due| - 1;
    var items, init := ItemsOf(due, loaded, kind), ItemsOf(due[..n], loaded[..n], kind);
    if a < n {
      LoadedIsItem(born, due[..n], loaded[..n], kind, a);
      var k :| 0 <= k < |init| && init[k].id == due[..n][a];
      assert items[k].id == due[a];
    } else {
      assert items[|items| - 1].id == due[a];
    }
  }

  lemma {:induction false} ItemsAreOrdered(born: map<EventId, Birth>, due: seq<EventId>, loaded: seq<Option<Payload>>, kind: Kind, done: set<EventId>)
    requires |due| == |loaded| && LoadedRight(born, due, loaded, done) && Ordered(born, due, done)
    requires forall id :: id in born ==> NamesItself(id, born[id].payload)
    ensures ItemsRight(born, kind, ItemsOf(due, loaded, kind))
    ensures Ordered(born, IdsOf(ItemsOf(due, loaded, kind)), done)
  {
    if due != [] {
      var n := |due| - 1;
      var items, init := ItemsOf(due, loaded, kind), ItemsOf(due[..n], loaded[..n], kind);
      forall b, i | 0 <= b < n && Before(born, i, due[..n][b]) && i !in done
        ensures exists a :: 0 <= a < b && due[..n][a] == i
      {
        assert due[..n][b] == due[b];
        var a :| 0 <= a < b && due[a] == i;
        assert due[..n][a] == i;
      }
      ItemsAreOrdered(born, due[..n], loaded[..n], kind, done);
      forall b, i | 0 <= b < |items| && Before(born, i, IdsOf(items)[b]) && i !in done
        ensures exists a :: 0 <= a < b && IdsOf(items)[a] == i
      {
        if b < |init| {
          assert IdsOf(items)[b] == IdsOf(init)[b];
          var a :| 0 <= a < b && IdsOf(init)[a] == i;
          assert IdsOf(items)[a] == i;
        } else {
          var a := LastItemOrdered(born, due, loaded, kind, done, i);
          assert IdsOf(items)[a] == i;
        }
      }
    }
  }

  lemma LastItemOrdered(born: map<EventId, Birth>, due: seq<EventId>, loaded: seq<Option<Payload>>, kind: Kind, done: set<EventId>, i: EventId)
      returns (k: nat)
    requires |due| == |loaded| > 0 && LoadedRight(born, due, loaded, done) && Ordered(born, due, done)
    requires loaded[|due| - 1].Some? && loaded[|due| - 1].value.Json? && KindOf(loaded[|due| - 1].value.event) == kind
    requires Before(born, i, due[|due| - 1]) && i !in done
    ensures k < |ItemsOf(due, loaded, kind)| - 1 && ItemsOf(due, loaded, kind)[k].id == i
  {
    var n := |due| - 1;
    var items, init := ItemsOf(due, loaded, kind), ItemsOf(due[..n], loaded[..n], kind);
    var a :| 0 <= a < n && due[a] == i;
    assert loaded[n].value == born[due[n]].payload;
    assert loaded[a].Some? && loaded[a].value == born[i].payload;
    assert due[..n][a] == i && loaded[..n][a] == loaded[a];
    LoadedIsItem(born, due[..n], loaded[..n], kind, a);
    k :| 0 <= k < |init| && init[k].id == i;
  }

  lemma OrderedLater(born: map<EventId, Birth>, ids: seq<EventId>, done: set<EventId>, more: set<EventId>)
    requires Ordered(born, ids, done) && done <= more
    ensures Ordered(born, ids, more)
  {
  }

  /** The whole plan of a turn appends before it removes, in order, and drops only what may be dropped. */
  lemma PlanIsSafe(born: map<EventId, Birth>, due: seq<EventId>, loaded: seq<Option<Payload>>, done: set<EventId>)
    requires |due| == |loaded| && LoadedRight(born, due, loaded, done) && Ordered(born, due, done)
    requires forall id :: id in born ==> NamesItself(id, born[id].payload)
    ensures Safe(born, PlanCommands(due, loaded), done)
  {
    var stale := RemovalCommands(StaleIds(due, loaded), StaleKeys(due, loaded));
    var private := PublishCommands(PrivateStream, ItemsOf(due, loaded, PrivateStream));
    var group := PublishCommands(GroupStream, ItemsOf(due, loaded, GroupStream));
    StaleIsRemovable(born, due, loaded, done);
    RemovalIsSafe(born, StaleIds(due, loaded), StaleKeys(due, loaded), done);
    ItemsAreOrdered(born, due, loaded, PrivateStream, done);
    ItemsAreOrdered(born, due, loaded, GroupStream, done);
    PublishIsSafe(born, PrivateStream, ItemsOf(due, loaded, PrivateStream), done);
    PublishIsSafe(born, GroupStream, ItemsOf(due, loaded, GroupStream), done);
    SafeLater(born, private, done, done + XaddIds(stale));
    SafeConcat(born, stale, private, done);
    SafeLater(born, group, done, done + XaddIds(stale + private));
    SafeConcat(born, stale + private, group, done);
  }

  // ---------- preservation ----------

  lemma PublishersKept(s: State, s': State)
    requires Inv(s) && s'.publishers == s.publishers
    requires Grows(s.born, s'.born) && StreamIds(s') == StreamIds(s)
    ensures PublishersSafe(s')
  {
    forall p | p in s'.publishers
      ensures PublisherSafe(s'.born, s'.publishers[p], StreamIds(s'))
    {
      match s.publishers[p]
      case Idle =>
      case Loading(due, loaded) =>
        assert Ordered(s'.born, due, StreamIds(s')) by {
          forall b, i | 0 <= b < |due| && Before(s'.born, i, due[b]) && i !in StreamIds(s')
            ensures exists a :: 0 <= a < b && due[a] == i
          {
            BeforeUnchanged(s.born, s'.born, i, due[b]);
          }
        }
      case Running(commands) => SafeAfterBirth(s.born, s'.born, commands, StreamIds(s));
    }
  }

  lemma LogsKept(s: State, s': State, kind: Kind)
    requires LogRight(s, kind) && LogOf(s', kind) == LogOf(s, kind) && Grows(s.born, s'.born)
    ensures LogRight(s', kind)
  {
    forall k, i | 0 <= k < |LogOf(s', kind)| && Before(s'.born, i, LogOf(s', kind)[k].eventId)
      ensures exists k' :: 0 <= k' < k && LogOf(s', kind)[k'].eventId == i
    {
      BeforeUnchanged(s.born, s'.born, i, LogOf(s, kind)[k].eventId);
    }
  }

  lemma OneMoreKey(m: map<EventId, Birth>, id: EventId, birth: Birth)
    requires id !in m
    ensures |m[id := birth]| == |m| + 1
  {
  }

  /** What enqueuing does, whether the payload is stored with it or was stored before. */
  ghost predicate Births(s: State, s': State, id: EventId, birth: Birth) {
    && id !in s.born && (id in s.payloads <==> id in s.staged)
    && NamesItself(id, birth.payload) && birth.order == |s.born|
    && (id in s.payloads ==> s.payloads[id] == birth.payload)
    && s'.payloads == (if id in s.payloads then s.payloads else s.payloads[id := birth.payload])
    && s'.staged == (if id in s.staged then s.staged - {id} else s.staged)
    && s'.pending == s.pending[id := birth.score]
    && s'.born == s.born[id := birth]
    && s'.privateLog == s.privateLog && s'.groupLog == s.groupLog && s'.publishers == s.publishers
  }

  lemma BirthIsBirths(s: State, s': State, action: Action)
    requires BornRight(s) && StepBy(s, s', action) && (action.Enqueue? || action.Complete?)
    ensures Births(s, s', action.id, s'.born[action.id])
  {
  }

  lemma BirthKeepsNames(s: State, s': State, id: EventId, birth: Birth)
    requires NamesRight(s) && Births(s, s', id, birth)
    ensures NamesRight(s') && Grows(s.born, s'.born)
  {
    OneMoreKey(s.born, id, birth);
  }

  lemma BirthKeepsPayloads(s: State, s': State, id: EventId, birth: Birth)
    requires BornRight(s) && Births(s, s', id, birth)
    ensures PayloadsRight(s') && PendingRight(s')
  {
    assert forall k :: k in s'.staged <==> k in s.staged && k != id;
  }

  lemma BirthKeepsBornRight(s: State, s': State, id: EventId, birth: Birth)
    requires BornRight(s) && Births(s, s', id, birth)
    ensures BornRight(s') && Grows(s.born, s'.born)
  {
    BirthKeepsNames(s, s', id, birth);
    BirthKeepsPayloads(s, s', id, birth);
  }

  lemma SameLogsSameIds(s: State, s': State)
    requires s'.privateLog == s.privateLog && s'.groupLog == s.groupLog
    ensures StreamIds(s') == StreamIds(s)
  {
  }

  lemma BirthDropsNothing(s: State, s': State, id: EventId, birth: Birth)
    requires NothingDropped(s) && Births(s, s', id, birth)
    ensures NothingDropped(s') && StreamIds(s') == StreamIds(s)
  {
    SameLogsSameIds(s, s');
    forall k | k in s'.born && s'.born[k].payload.Json? && k !in StreamIds(s')
      ensures k in s'.pending && k in s'.payloads
    {
      if k != id {
        assert k in s.born && s.born[k] == s'.born[k];
      }
    }
  }

  lemma BirthKeepsInv(s: State, s': State, action: Action)
    requires Inv(s) && StepBy(s, s', action) && (action.Enqueue? || action.Complete?)
    ensures Inv(s')
  {
    BirthIsBirths(s, s', action);
    BirthKeepsBornRight(s, s', action.id, s'.born[action.id]);
    BirthDropsNothing(s, s', action.id, s'.born[action.id]);
    PublishersKept(s, s');
    LogsKept(s, s', PrivateStream);
    LogsKept(s, s', GroupStream);
  }

  lemma StageKeepsBornRight(s: State, s': State, action: Action)
    requires BornRight(s) && NothingDropped(s) && StepBy(s, s', action) && action.Stage?
    ensures BornRight(s') && NothingDropped(s') && StreamIds(s') == StreamIds(s)
    ensures s' == s.(payloads := s'.payloads, staged := s'.staged)
  {
    SameLogsSameIds(s, s');
  }

  lemma StageKeepsInv(s: State, s': State, action: Action)
    requires Inv(s) && StepBy(s, s', action) && action.Stage?
    ensures Inv(s')
  {
    StageKeepsBornRight(s, s', action);
    PublishersKept(s, s');
    LogsKept(s, s', PrivateStream);
    LogsKept(s, s', GroupStream);
  }

  /** A reply in score order holds, ahead of each id, whatever has to precede it and is not in a stream yet. */
  lemma ReplyIsOrdered(s: State, source: nat, now: int, limit: nat, due: seq<EventId>)
    requires Inv(s) && DueReply(s, source, now, limit, due)
    ensures Ordered(s.born, due, StreamIds(s))
  {
    forall b, i | 0 <= b < |due| && Before(s.born, i, due[b]) && i !in StreamIds(s)
      ensures exists a :: 0 <= a < b && due[a] == i
    {
      assert due[b] in due && i in s.pending;
      assert SortsBefore(s.born[i], s.born[due[b]]);
    }
  }

  lemma MovedPublisher(s: State, s': State, p: nat, publisher: Publisher)
    requires Inv(s) && s' == s.(publishers := s.publishers[p := publisher])
    requires PublisherSafe(s.born, publisher, StreamIds(s))
    ensures Inv(s')
  {
    assert StreamIds(s') == StreamIds(s);
    LogsKept(s, s', PrivateStream);
    LogsKept(s, s', GroupStream);
  }

  lemma ReplyIsRight(s: State, publisher: Publisher)
    requires BornRight(s) && NothingDropped(s) && PublisherSafe(s.born, publisher, StreamIds(s))
    requires publisher.Loading? && |publisher.loaded| < |publisher.due|
    ensures var id := publisher.due[|publisher.loaded|];
      var reply := if id in s.payloads then Some(s.payloads[id]) else None;
      PublisherSafe(s.born, publisher.(loaded := publisher.loaded + [reply]), StreamIds(s))
  {
  }

  lemma PublisherMoveKeepsInv(s: State, s': State, action: Action)
    requires Inv(s) && StepBy(s, s', action)
    requires action.Fetch? || action.Get? || action.Plan? || action.Crash?
    ensures Inv(s')
  {
    var publisher := PublisherOf(s, action.p);
    match action
    case Fetch(p, source, now, limit, due) =>
      ReplyIsOrdered(s, source, now, limit, due);
      assert forall k :: 0 <= k < |due| ==> due[k] in due;
      MovedPublisher(s, s', p, Loading(due, []));
    case Get(p) =>
      ReplyIsRight(s, publisher);
      MovedPublisher(s, s', p, s'.publishers[p]);
    case Plan(p) =>
      PlanIsSafe(s.born, publisher.due, publisher.loaded, StreamIds(s));
      MovedPublisher(s, s', p, s'.publishers[p]);
    case Crash(p) =>
      MovedPublisher(s, s', p, Idle);
  }

  lemma AppendedIds(s: State, s': State, kind: Kind, event: ImEvent)
    requires s' == Execute(s, Xadd(kind, event)).(publishers := s'.publishers)
    ensures StreamIds(s') == StreamIds(s) + {event.eventId}
  {
    forall id | id in StreamIds(s) + {event.eventId}
      ensures id in StreamIds(s')
    {
      if id == event.eventId {
        var log := LogOf(s', kind);
        assert log[|log| - 1].eventId == id;
      } else if exists k :: 0 <= k < |s.privateLog| && s.privateLog[k].eventId == id {
        var k :| 0 <= k < |s.privateLog| && s.privateLog[k].eventId == id;
        assert s'.privateLog[k].eventId == id;
      } else {
        var k :| 0 <= k < |s.groupLog| && s.groupLog[k].eventId == id;
        assert s'.groupLog[k].eventId == id;
      }
    }
  }

  lemma InStreamOfItsKind(s: State, id: EventId)
    requires LogRight(s, PrivateStream) && LogRight(s, GroupStream)
    requires id in StreamIds(s)
    ensures id in s.born && s.born[id].payload.Json?
    ensures var log := LogOf(s, KindOf(s.born[id].payload.event));
      exists k :: 0 <= k < |log| && log[k].eventId == id
  {
    if k :| 0 <= k < |s.privateLog| && s.privateLog[k].eventId == id {
      assert LogOf(s, PrivateStream)[k].eventId == id;
    } else {
      var k :| 0 <= k < |s.groupLog| && s.groupLog[k].eventId == id;
      assert LogOf(s, GroupStream)[k].eventId == id;
    }
  }

  lemma AppendKeepsLog(s: State, s': State, kind: Kind, event: ImEvent, other: Kind)
    requires LogRight(s, PrivateStream) && LogRight(s, GroupStream) && s'.born == s.born
    requires s' == Execute(s, Xadd(kind, event)).(publishers := s'.publishers)
    requires IsBirth(s.born, kind, event)
    requires forall i :: Before(s.born, i, event.eventId) ==> i in StreamIds(s)
    ensures LogRight(s', other)
  {
    var log, log' := LogOf(s, other), LogOf(s', other);
    forall k, i | 0 <= k < |log'| && Before(s'.born, i, log'[k].eventId)
      ensures exists k' :: 0 <= k' < k && log'[k'].eventId == i
    {
      if k < |log| {
        var k' :| 0 <= k' < k && log[k'].eventId == i;
        assert log'[k'].eventId == i;
      } else {
        InStreamOfItsKind(s, i);
        var k' :| 0 <= k' < |log| && log[k'].eventId == i;
        assert log'[k'].eventId == i;
      }
    }
  }

  /** The other publishers stay safe as the streams grow, and the sender as its command leaves the list. */
  lemma SendKeepsPublishers(s: State, s': State, p: nat, more: set<EventId>)
    requires PublishersSafe(s)
    requires p in s.publishers && s.publishers[p].Running? && s.publishers[p].commands != []
    requires s'.born == s.born && s'.publishers == s.publishers[p := Running(s.publishers[p].commands[1..])]
    requires StreamIds(s') == StreamIds(s) + more
    requires Safe(s.born, s.publishers[p].commands[1..], StreamIds(s'))
    ensures PublishersSafe(s')
  {
    forall q | q in s'.publishers && q != p
      ensures PublisherSafe(s'.born, s'.publishers[q], StreamIds(s'))
    {
      match s.publishers[q]
      case Idle =>
      case Loading(due, loaded) => OrderedLater(s.born, due, StreamIds(s), StreamIds(s'));
      case Running(others) => SafeLater(s.born, others, StreamIds(s), StreamIds(s'));
    }
  }

  lemma AppendDropsNothing(s: State, s': State)
    requires BornRight(s) && NothingDropped(s) && StreamIds(s) <= StreamIds(s')
    requires s'.born == s.born && s'.staged == s.staged && s'.pending == s.pending && s'.payloads == s.payloads
    ensures BornRight(s') && NothingDropped(s')
  {
  }

  /** The command to be sent next, and those after it. */
  lemma NextIsSafe(s: State, p: nat)
    requires PublishersSafe(s)
    requires PublisherOf(s, p).Running? && PublisherOf(s, p).commands != []
    ensures p in s.publishers && Safe(s.born, PublisherOf(s, p).commands, StreamIds(s))
  {
  }

  lemma AppendKeepsPublishers(s: State, s': State, p: nat, event: ImEvent)
    requires PublishersSafe(s)
    requires PublisherOf(s, p).Running? && PublisherOf(s, p).commands != []
    requires PublisherOf(s, p).commands[0].Xadd? && PublisherOf(s, p).commands[0].event == event
    requires s'.born == s.born && s'.publishers == s.publishers[p := Running(PublisherOf(s, p).commands[1..])]
    requires StreamIds(s') == StreamIds(s) + {event.eventId}
    ensures PublishersSafe(s')
  {
    NextIsSafe(s, p);
    SendKeepsPublishers(s, s', p, {event.eventId});
  }

  lemma AppendKeepsInv(s: State, s': State, p: nat, commands: seq<Command>)
    requires Inv(s) && PublisherOf(s, p) == Running(commands) && commands != [] && commands[0].Xadd?
    requires s' == Execute(s, commands[0]).(publishers := s.publishers[p := Running(commands[1..])])
    ensures Inv(s')
  {
    var kind, event := commands[0].kind, commands[0].event;
    NextIsSafe(s, p);
    AppendedIds(s, s', kind, event);
    AppendDropsNothing(s, s');
    AppendKeepsPublishers(s, s', p, event);
    AppendKeepsLog(s, s', kind, event, PrivateStream);
    AppendKeepsLog(s, s', kind, event, GroupStream);
  }

  lemma RemovalDropsNothing(s: State, s': State, command: Command)
    requires BornRight(s) && NothingDropped(s) && s' == Execute(s, command).(publishers := s'.publishers)
    requires match command
      case Del(keys) => Removable(s.born, keys, StreamIds(s))
      case Zrem(members) => Removable(s.born, members, StreamIds(s))
      case Xadd(_, _) => false
    ensures BornRight(s') && NothingDropped(s') && StreamIds(s') == StreamIds(s)
    ensures s'.born == s.born && s'.privateLog == s.privateLog && s'.groupLog == s.groupLog
  {
    SameLogsSameIds(s, s');
  }

  lemma RemovalKeepsPublishers(s: State, s': State, p: nat)
    requires PublishersSafe(s)
    requires PublisherOf(s, p).Running? && PublisherOf(s, p).commands != [] && !PublisherOf(s, p).commands[0].Xadd?
    requires s'.born == s.born && s'.publishers == s.publishers[p := Running(PublisherOf(s, p).commands[1..])]
    requires StreamIds(s') == StreamIds(s)
    ensures PublishersSafe(s')
  {
    NextIsSafe(s, p);
    assert StreamIds(s') == StreamIds(s) + {};
    SendKeepsPublishers(s, s', p, {});
  }

  lemma RemovalDropsHead(s: State, s': State, p: nat, commands: seq<Command>)
    requires BornRight(s) && NothingDropped(s) && PublishersSafe(s)
    requires PublisherOf(s, p) == Running(commands) && commands != [] && !commands[0].Xadd?
    requires s' == Execute(s, commands[0]).(publishers := s'.publishers)
    ensures BornRight(s') && NothingDropped(s') && StreamIds(s') == StreamIds(s)
    ensures s'.born == s.born && s'.privateLog == s.privateLog && s'.groupLog == s.groupLog
  {
    NextIsSafe(s, p);
    RemovalDropsNothing(s, s', commands[0]);
  }

  lemma RemovalKeepsInv(s: State, s': State, p: nat, commands: seq<Command>)
    requires Inv(s) && PublisherOf(s, p) == Running(commands) && commands != [] && !commands[0].Xadd?
    requires s' == Execute(s, commands[0]).(publishers := s.publishers[p := Running(commands[1..])])
    ensures Inv(s')
  {
    RemovalDropsHead(s, s', p, commands);
    RemovalKeepsPublishers(s, s', p);
    LogsKept(s, s', PrivateStream);
    LogsKept(s, s', GroupStream);
  }

  lemma StepKeepsInv(s: State, s': State)
    requires Inv(s) && Step(s, s')
    ensures Inv(s')
  {
    if s' != s {
      var action :| StepBy(s, s', action);
      match action
      case Enqueue(_, _, _, _, _) => BirthKeepsInv(s, s', action);
      case Complete(_, _, _, _) => BirthKeepsInv(s, s', action);
      case Stage(_, _) => StageKeepsInv(s, s', action);
      case Send(p) =>
        if PublisherOf(s, p).commands[0].Xadd? {
          AppendKeepsInv(s, s', p, PublisherOf(s, p).commands);
        } else {
          RemovalKeepsInv(s, s', p, PublisherOf(s, p).commands);
        }
      case _ => PublisherMoveKeepsInv(s, s', action);
    }
  }

  // ---------- every run ----------

  function Nth(run: seq<State>, k: nat): State
    requires k < |run|
  {
    run[k]
  }

  ghost predicate IsRun(run: seq<State>) {
    && run != []
    && run[0] == EMPTY_OUTBOX
    && forall k: nat {:trigger Nth(run, k)} :: k < |run| - 1 ==> Step(Nth(run, k), Nth(run, k + 1))
  }

  lemma {:induction false} RunKeepsInv(run: seq<State>, k: nat)
    requires IsRun(run) && k < |run|
    ensures Inv(run[k])
  {
    if k == 0 {
      assert StreamIds(run[0]) == {};
    } else {
      RunKeepsInv(run, k - 1);
      assert Step(Nth(run, k - 1), Nth(run, k - 1 + 1));
      StepKeepsInv(run[k - 1], run[k]);
    }
  }

  function Last(run: seq<State>): State
    requires run != []
  {
    run[|run| - 1]
  }

  lemma Extend(run: seq<State>, s': State)
    requires IsRun(run) && Step(Last(run), s')
    ensures IsRun(run + [s']) && Last(run + [s']) == s'
  {
    var longer := run + [s'];
    forall k: nat | k < |longer| - 1
      ensures Step(Nth(longer, k), Nth(longer, k + 1))
    {
      if k < |run| - 1 {
        assert Step(Nth(run, k), Nth(run, k + 1));
      }
    }
  }

  predicate Enqueued(s: State, id: EventId) {
    id in s.born && s.born[id].payload.Json?
  }

  ghost predicate InStream(s: State, id: EventId) {
    && Enqueued(s, id)
    && var log := LogOf(s, KindOf(s.born[id].payload.event));
       exists k :: 0 <= k < |log| && log[k] == Entry(id, s.born[id].payload)
  }

  /** An enqueued event is still in the outbox, whole, or it is an entry of the stream of its kind. */
  lemma EnqueuedIsKept(run: seq<State>, k: nat, id: EventId)
    requires IsRun(run) && k < |run|
    requires Enqueued(run[k], id)
    ensures InStream(run[k], id) || (id in run[k].pending && id in run[k].payloads && run[k].payloads[id] == run[k].born[id].payload)
  {
    var s := run[k];
    RunKeepsInv(run, k);
    if id in StreamIds(s) {
      StreamIdIsInStream(s, id);
    }
  }

  lemma StreamIdIsInStream(s: State, id: EventId)
    requires LogRight(s, PrivateStream) && LogRight(s, GroupStream)
    requires id in StreamIds(s)
    ensures InStream(s, id)
  {
    InStreamOfItsKind(s, id);
    var log := LogOf(s, KindOf(s.born[id].payload.event));
    var k :| 0 <= k < |log| && log[k].eventId == id;
    assert log[k] == Entry(id, s.born[id].payload);
  }

  lemma LeavingIsSending(s: State, s': State, action: Action, id: EventId)
    requires StepBy(s, s', action) && id in s.pending && id !in s'.pending
    ensures action.Send? && PublisherOf(s, action.p).commands[0].Zrem? && id in PublisherOf(s, action.p).commands[0].members
  {
  }

  /** Among any number of publishers, an event leaves the pending set only once it is in its stream. */
  lemma LeavesPendingAfterAppend(run: seq<State>, k: nat, id: EventId)
    requires IsRun(run) && k + 1 < |run|
    requires id in run[k].pending && id !in run[k + 1].pending && Enqueued(run[k], id)
    ensures InStream(run[k], id)
  {
    var s, s' := run[k], run[k + 1];
    RunKeepsInv(run, k);
    assert Step(Nth(run, k), Nth(run, k + 1));
    var action :| StepBy(s, s', action);
    LeavingIsSending(s, s', action, id);
    NextIsSafe(s, action.p);
    StreamIdIsInStream(s, id);
  }

  /** A pending member whose payload is gone was published: dropping it as stale loses nothing. */
  lemma StaleMemberWasPublished(run: seq<State>, k: nat, id: EventId)
    requires IsRun(run) && k < |run|
    requires id in run[k].pending && id !in run[k].payloads && Enqueued(run[k], id)
    ensures InStream(run[k], id)
  {
    RunKeepsInv(run, k);
    StreamIdIsInStream(run[k], id);
  }

  /** Events of one stream and one hot Redis first appear in the stream in the order of the pending set. */
  lemma FirstAppendsFollowScores(run: seq<State>, k: nat, kind: Kind, i: EventId, j: EventId, at: nat)
    requires IsRun(run) && k < |run| && Before(run[k].born, i, j)
    requires at < |LogOf(run[k], kind)| && LogOf(run[k], kind)[at].eventId == j
    ensures exists earlier :: 0 <= earlier < at && LogOf(run[k], kind)[earlier].eventId == i
  {
    RunKeepsInv(run, k);
  }

  /** A stream holds nothing but enqueued events of its kind, each with the payload it was enqueued with. */
  lemma StreamHoldsOnlyBirths(run: seq<State>, k: nat, kind: Kind, at: nat)
    requires IsRun(run) && k < |run| && at < |LogOf(run[k], kind)|
    ensures var entry := LogOf(run[k], kind)[at];
      && entry.eventId in run[k].born && run[k].born[entry.eventId].payload == entry.payload
      && entry.payload.Json? && KindOf(entry.payload.event) == kind
  {
    RunKeepsInv(run, k);
  }

  // ---------- which stream ----------

  /** Marked as one for a group, or naming a group even by an id that does not parse, or carrying a group message. */
  predicate ForGroups(event: ImEvent) {
    || event.group == true
    || event.groupId != None
    || (event.payload != None && event.payload.value.isGroupChat == true)
  }

  /** In every run the group stream holds events for groups only, and the private stream none of them. */
  lemma StreamsAreSeparate(run: seq<State>, k: nat, at: nat)
    requires IsRun(run) && k < |run|
    ensures at < |run[k].groupLog| ==>
      run[k].groupLog[at].payload.Json? && ForGroups(run[k].groupLog[at].payload.event)
    ensures at < |run[k].privateLog| ==>
      run[k].privateLog[at].payload.Json? && !ForGroups(run[k].privateLog[at].payload.event)
  {
    if at < |run[k].groupLog| {
      StreamHoldsOnlyBirths(run, k, GroupStream, at);
    }
    if at < |run[k].privateLog| {
      StreamHoldsOnlyBirths(run, k, PrivateStream, at);
    }
  }

  /** The entry of an event for groups is in the group stream, and of any other in the private one. */
  ghost predicate InOwnStream(s: State, id: EventId)
    requires Enqueued(s, id)
  {
    var payload := s.born[id].payload;
    if ForGroups(payload.event) then Entry(id, payload) in s.groupLog else Entry(id, payload) in s.privateLog
  }

  lemma InStreamIsOwn(s: State, id: EventId)
    requires InStream(s, id)
    ensures InOwnStream(s, id)
  {
  }

  // ---------- when two events keep their order ----------

  lemma {:induction false} NotBeforeItself(text: string)
    ensures !TextBefore(text, text)
  {
    if text != [] {
      NotBeforeItself(text[1..]);
    }
  }

  /** The two commands that a state event is enqueued with leave what the one atomic step leaves. */
  lemma StagedIsEnqueued(s: State, id: EventId, conversation: string, payload: Payload, score: int, source: nat)
    requires Fresh(s, id) && NamesItself(id, payload)
    ensures var staged := Do(s, Stage(id, payload));
      Enabled(staged, Complete(id, conversation, score, source))
      && Do(staged, Complete(id, conversation, score, source)) == Do(s, Enqueue(id, conversation, payload, score, source))
  {
    assert s.staged[id := payload] - {id} == s.staged;
  }

  /** How an event is enqueued, all but its turn. */
  predicate BornAs(s: State, id: EventId, birth: Birth) {
    id in s.born && s.born[id] == birth.(order := s.born[id].order)
  }

  predicate BornInTurn(s: State, i: EventId, first: Birth, j: EventId, second: Birth) {
    BornAs(s, i, first) && BornAs(s, j, second) && s.born[i].order < s.born[j].order
  }

  predicate Nameable(id: EventId, conversation: string, birth: Birth) {
    birth.payload.Json? && birth.payload.event.eventId == id && birth.member == Member(PendingMember(id.text, conversation))
  }

  ghost predicate AppendedInOrder(s: State, kind: Kind, i: EventId, j: EventId) {
    forall at :: 0 <= at < |LogOf(s, kind)| && LogOf(s, kind)[at].eventId == j ==>
      exists earlier :: 0 <= earlier < at && LogOf(s, kind)[earlier].eventId == i
  }

  /** In every run that enqueues `i` so, and then `j` so, the stream gets `i` first. */
  ghost predicate KeepsOrder(i: EventId, first: Birth, j: EventId, second: Birth)
    requires second.payload.Json?
  {
    forall run: seq<State> :: IsRun(run) && BornInTurn(Last(run), i, first, j, second) ==>
      AppendedInOrder(Last(run), KindOf(second.payload.event), i, j)
  }

  lemma Then(run: seq<State>, action: Action, s': State) returns (longer: seq<State>)
    requires IsRun(run) && StepBy(Last(run), s', action)
    ensures IsRun(longer) && Last(longer) == s'
  {
    assert Step(Last(run), s');
    Extend(run, s');
    longer := run + [s'];
  }

  /** The two events enqueued one after the other. */
  function BothBorn(i: EventId, first: Birth, j: EventId, second: Birth): State {
    EMPTY_OUTBOX.(
      payloads := map[i := first.payload][j := second.payload],
      pending := map[i := first.score][j := second.score],
      born := map[i := first.(order := 0)][j := second.(order := 1)])
  }

  lemma EnqueueBoth(i: EventId, ci: string, first: Birth, j: EventId, cj: string, second: Birth) returns (run: seq<State>)
    requires i != j && Nameable(i, ci, first) && Nameable(j, cj, second)
    ensures IsRun(run) && Last(run) == BothBorn(i, first, j, second)
  {
    run := [EMPTY_OUTBOX];
    assert IsRun(run);
    var one := EMPTY_OUTBOX.(
      payloads := map[i := first.payload], pending := map[i := first.score], born := map[i := first.(order := 0)]);
    run := Then(run, Enqueue(i, ci, first.payload, first.score, first.source), one);
    assert |one.born| == 1;
    run := Then(run, Enqueue(j, cj, second.payload, second.score, second.source), BothBorn(i, first, j, second));
  }

  function With(s: State, publisher: Publisher): State {
    s.(publishers := map[0 := publisher])
  }

  lemma WithAgain(s: State, publisher: Publisher, next: Publisher)
    ensures With(s, publisher).(publishers := With(s, publisher).publishers[0 := next]) == With(s, next)
  {
  }

  /** A publisher that fetches one event takes the second one. */
  lemma SecondFetched(run: seq<State>, i: EventId, first: Birth, j: EventId, second: Birth) returns (longer: seq<State>)
    requires i != j && IsRun(run) && Last(run) == BothBorn(i, first, j, second)
    requires !(first.source == second.source && SortsBefore(first, second))
    ensures IsRun(longer) && Last(longer) == With(Last(run), Loading([j], [Some(second.payload)]))
  {
    var s := Last(run);
    NotBeforeItself(second.member.text);
    assert DueReply(s, second.source, second.score, 1, [j]);
    longer := Then(run, Fetch(0, second.source, second.score, 1, [j]), With(s, Loading([j], [])));
    WithAgain(s, Loading([j], []), Loading([j], [Some(second.payload)]));
    var none: seq<Option<Payload>> := [];
    assert none + [Some(second.payload)] == [Some(second.payload)];
    longer := Then(longer, Get(0), With(s, Loading([j], [Some(second.payload)])));
  }

  lemma SecondAppended(run: seq<State>, s: State, j: EventId, event: ImEvent) returns (longer: seq<State>)
    requires IsRun(run) && Last(run) == With(s, Loading([j], [Some(Json(event))]))
    ensures IsRun(longer) && Last(longer).born == s.born
    ensures LogOf(Last(longer), KindOf(event)) == LogOf(s, KindOf(event)) + [Entry(event.eventId, Json(event))]
  {
    var commands := PlanCommands([j], [Some(Json(event))]);
    FirstCommandOfOne(j, event);
    WithAgain(s, Loading([j], [Some(Json(event))]), Running(commands));
    longer := Then(run, Plan(0), With(s, Running(commands)));
    var planned := Last(longer);
    var appended := Execute(planned, commands[0]).(publishers := planned.publishers[0 := Running(commands[1..])]);
    longer := Then(longer, Send(0), appended);
  }

  lemma FirstCommandOfOne(j: EventId, event: ImEvent)
    ensures var commands := PlanCommands([j], [Some(Json(event))]); commands != [] && commands[0] == Xadd(KindOf(event), event)
  {
    var due, loaded, kind := [j], [Some(Json(event))], KindOf(event);
    assert due[..0] == [] && loaded[..0] == [];
    assert StaleIds([], []) == [] && StaleKeys([], []) == [];
    assert StaleIds(due, loaded) == [] && StaleKeys(due, loaded) == [];
    assert ItemsOf([], [], kind) == [];
    assert ItemsOf(due, loaded, kind) == [Item(j, event)];
    var other := if kind.PrivateStream? then GroupStream else PrivateStream;
    assert ItemsOf(due, loaded, other) == [];
    assert Xadds(kind, [Item(j, event)])[0] == Xadd(kind, event);
  }

  /**
   Two events of one stream keep their order in every run, however many publishers there are, exactly when
   they are in the same hot Redis and the first sorts before the second: a lower score, or an equal one and a
   lesser member.
   */
  lemma OrderIsKeptIff(i: EventId, ci: string, first: Birth, j: EventId, cj: string, second: Birth)
    requires i != j && Nameable(i, ci, first) && Nameable(j, cj, second)
    requires KindOf(first.payload.event) == KindOf(second.payload.event)
    ensures KeepsOrder(i, first, j, second) <==>
      && first.source == second.source
      && (first.score < second.score || (first.score == second.score && Precedes(i.text + "|" + ci, j.text + "|" + cj)))
  {
    TextBeforeIff(first.member.text, second.member.text);
    var kind := KindOf(second.payload.event);
    if first.source == second.source && SortsBefore(first, second) {
      forall run: seq<State> | IsRun(run) && BornInTurn(Last(run), i, first, j, second)
        ensures AppendedInOrder(Last(run), kind, i, j)
      {
        assert Before(Last(run).born, i, j);
        forall at: nat | at < |LogOf(Last(run), kind)| && LogOf(Last(run), kind)[at].eventId == j
          ensures exists earlier :: 0 <= earlier < at && LogOf(Last(run), kind)[earlier].eventId == i
        {
          FirstAppendsFollowScores(run, |run| - 1, kind, i, j, at);
        }
      }
    } else {
      var run := EnqueueBoth(i, ci, first, j, cj, second);
      run := SecondFetched(run, i, first, j, second);
      run := SecondAppended(run, BothBorn(i, first, j, second), j, second.payload.event);
      assert BornInTurn(Last(run), i, first, j, second);
      assert LogOf(Last(run), kind)[0].eventId == j;
      assert !AppendedInOrder(Last(run), kind, i, j);
    }
  }
}
