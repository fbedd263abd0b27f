/**
 The publisher's own code (background_publisher.rs): which hot Redis servers are polled, how a fetched batch
 is sorted out, and the commands it sends. A pipeline that fails may have been carried out up to any point, and
 producers and other publishers are free to move between any two commands.

 The ghost field `run` records the states gone through; `Valid` says they form a run of the outbox.
 */
module BackgroundPublisher {
  import opened Options
  import opened Events
  import opened Outbox

  // ---------- the sources ----------

  datatype SourceKind = SharedSource | PrivateSource | GroupSource

  datatype PendingEventSource = PendingEventSource(kind: SourceKind, redisUrl: string)

  /** Each configured server is polled once, and is known as shared exactly when both lists name it. */
  ghost predicate CoversSources(sources: seq<PendingEventSource>, privateUrls: seq<string>, groupUrls: seq<string>) {
    && (forall i, j :: 0 <= i < j < |sources| ==> sources[i].redisUrl != sources[j].redisUrl)
    && (forall url :: url in privateUrls || url in groupUrls ==> exists s :: s in sources && s.redisUrl == url)
    && (forall s :: s in sources ==>
          && (s.kind.SharedSource? <==> s.redisUrl in privateUrls && s.redisUrl in groupUrls)
          && (s.kind.PrivateSource? <==> s.redisUrl in privateUrls && s.redisUrl !in groupUrls)
          && (s.kind.GroupSource? <==> s.redisUrl !in privateUrls && s.redisUrl in groupUrls))
  }

  /** `push_pending_event_source`: the first kind given to a server stays. */
  method PushPendingEventSource(sources: seq<PendingEventSource>, kind: SourceKind, redisUrl: string)
      returns (more: seq<PendingEventSource>)
    ensures (exists s :: s in sources && s.redisUrl == redisUrl) ==> more == sources
    ensures !(exists s :: s in sources && s.redisUrl == redisUrl) ==> more == sources + [PendingEventSource(kind, redisUrl)]
  {
    for i := 0 to |sources|
      invariant forall j :: 0 <= j < i ==> sources[j].redisUrl != redisUrl
    {
      if sources[i].redisUrl == redisUrl {
        return sources;
      }
    }
    more := sources + [PendingEventSource(kind, redisUrl)];
  }

  method PrivateSources(privateUrls: seq<string>, groupUrls: seq<string>) returns (sources: seq<PendingEventSource>)
    ensures forall a, b :: 0 <= a < b < |sources| ==> sources[a].redisUrl != sources[b].redisUrl
    ensures forall url :: url in privateUrls ==> exists s :: s in sources && s.redisUrl == url
    ensures forall s :: s in sources ==>
      s.redisUrl in privateUrls && s.kind == if s.redisUrl in groupUrls then SharedSource else PrivateSource
  {
    sources := [];
    for i := 0 to |privateUrls|
      invariant forall a, b :: 0 <= a < b < |sources| ==> sources[a].redisUrl != sources[b].redisUrl
      invariant forall k :: 0 <= k < i ==> exists s :: s in sources && s.redisUrl == privateUrls[k]
      invariant forall s :: s in sources ==>
        s.redisUrl in privateUrls && s.kind == if s.redisUrl in groupUrls then SharedSource else PrivateSource
    {
      var kind := if privateUrls[i] in groupUrls then SharedSource else PrivateSource;
      ghost var before := sources;
      sources := PushPendingEventSource(sources, kind, privateUrls[i]);
      assert exists s :: s in sources && s.redisUrl == privateUrls[i] by {
        assert sources == before || sources[|before|] in sources;
      }
    }
  }

  method PendingEventSources(privateUrls: seq<string>, groupUrls: seq<string>) returns (sources: seq<PendingEventSource>)
    ensures CoversSources(sources, privateUrls, groupUrls)
  {
    sources := PrivateSources(privateUrls, groupUrls);
    ghost var private := sources;
    for i := 0 to |groupUrls|
      invariant forall a, b :: 0 <= a < b < |sources| ==> sources[a].redisUrl != sources[b].redisUrl
      invariant forall s :: s in private ==> s in sources
      invariant forall k :: 0 <= k < i ==> exists s :: s in sources && s.redisUrl == groupUrls[k]
      invariant forall s :: s in sources && s !in private ==>
        s.kind == GroupSource && s.redisUrl in groupUrls && s.redisUrl !in privateUrls
    {
      ghost var before := sources;
      sources := PushPendingEventSource(sources, GroupSource, groupUrls[i]);
      assert exists s :: s in sources && s.redisUrl == groupUrls[i] by {
        assert sources == before || sources[|before|] in sources;
      }
    }
  }

  // ---------- one turn ----------

  predicate ByOthers(action: Action, me: nat) {
    match action
    case Fetch(p, _, _, _, _) => p != me
    case Get(p) => p != me
    case Plan(p) => p != me
    case Send(p) => p != me
    case Crash(p) => p != me
    case _ => true
  }

  /** What these commands remove is out of the pending set, and out of the payloads. */
  ghost predicate Removed(s: State, commands: seq<Command>) {
    forall k :: 0 <= k < |commands| ==> RemovedBy(s, commands[k])
  }

  ghost predicate RemovedBy(s: State, command: Command) {
    match command
    case Zrem(members) => forall id :: id in members ==> id in s.born && id !in s.pending
    case Del(keys) => forall id :: id in keys ==> id in s.born && id !in s.payloads
    case Xadd(_, _) => true
  }

  lemma BirthIsNew(s: State, s': State, action: Action)
    requires BornRight(s) && StepBy(s, s', action) && (action.Enqueue? || action.Complete?)
    ensures action.id !in s.born
    ensures forall id :: id in s'.pending && id != action.id ==> id in s.pending
    ensures forall id :: id in s'.payloads && id != action.id ==> id in s.payloads
    ensures forall id :: id in s.born ==> id in s'.born
  {
    BirthIsBirths(s, s', action);
  }

  lemma CommandAddsNothing(s: State, command: Command)
    ensures Execute(s, command).born == s.born
    ensures forall id :: id in Execute(s, command).pending ==> id in s.pending
    ensures forall id :: id in Execute(s, command).payloads ==> id in s.payloads
  {
  }

  /** An event is enqueued once, so what has left the pending set stays out. */
  lemma OnlyNewBecomePending(s: State, s': State, action: Action)
    requires BornRight(s) && StepBy(s, s', action)
    ensures forall id :: id in s.born ==> id in s'.born
    ensures forall id :: id in s'.pending && id in s.born ==> id in s.pending
    ensures forall id :: id in s'.payloads && id in s.born ==> id in s.payloads
  {
    match action
    case Enqueue(_, _, _, _, _) => BirthIsNew(s, s', action);
    case Complete(_, _, _, _) => BirthIsNew(s, s', action);
    case Send(p) => CommandAddsNothing(s, PublisherOf(s, p).commands[0]);
    case _ =>
  }

  lemma RemovedStays(s: State, s': State, action: Action, commands: seq<Command>)
    requires BornRight(s) && StepBy(s, s', action) && Removed(s, commands)
    ensures Removed(s', commands)
  {
    OnlyNewBecomePending(s, s', action);
    forall k | 0 <= k < |commands|
      ensures RemovedBy(s', commands[k])
    {
      assert RemovedBy(s, commands[k]);
    }
  }

  lemma SendRemoves(s: State, s': State, p: nat, commands: seq<Command>)
    requires Inv(s) && PublisherOf(s, p) == Running(commands) && commands != [] && StepBy(s, s', Send(p))
    ensures Removed(s', commands[..1]) && PublisherOf(s', p) == Running(commands[1..])
  {
    NextIsSafe(s, p);
  }

  lemma FetchedIsBorn(run: seq<State>, p: nat, due: seq<EventId>, answers: seq<Option<Payload>>)
    requires IsRun(run) && PublisherOf(Last(run), p) == Loading(due, answers)
    ensures forall k :: 0 <= k < |due| ==> due[k] in Last(run).born
  {
    RunKeepsInv(run, |run| - 1);
    assert due == [] || p in Last(run).publishers;
  }

  class Publisher {
    const me: nat
    /** No command of this publisher fails. */
    const reliable: bool
    var shared: State
    ghost var run: seq<State>
    /** What this publisher has had carried out. */
    ghost var sent: seq<Command>

    ghost predicate Valid()
      reads this
    {
      IsRun(run) && Last(run) == shared
    }

    ghost predicate AtCommands(commands: seq<Command>)
      reads this
    {
      PublisherOf(shared, me) == Running(commands)
    }

    constructor (me: nat, reliable: bool)
      ensures Valid() && PublisherOf(shared, me).Idle? && sent == [] && this.me == me && this.reliable == reliable
    {
      this.me, this.reliable := me, reliable;
      shared := EMPTY_OUTBOX;
      run := [EMPTY_OUTBOX];
      sent := [];
    }

    method Perform(action: Action, ghost past: seq<Command>)
      requires Valid() && Enabled(shared, action) && Removed(shared, past)
      modifies `shared, `run
      ensures Valid() && old(run) <= run && StepBy(old(shared), shared, action) && Removed(shared, past)
    {
      ghost var before := shared;
      RunKeepsInv(run, |run| - 1);
      shared := Do(shared, action);
      assert StepBy(before, shared, action);
      RemovedStays(before, shared, action, past);
      Extend(run, shared);
      run := run + [shared];
    }

    /** Any number of steps of producers and other publishers. */
    method Others(ghost past: seq<Command>)
      requires Valid() && Removed(shared, past)
      modifies `shared, `run
      ensures Valid() && old(run) <= run && Removed(shared, past) && PublisherOf(shared, me) == PublisherOf(old(shared), me)
    {
      var steps :| 0 <= steps;
      for i := 0 to steps
        invariant Valid() && old(run) <= run && Removed(shared, past) && PublisherOf(shared, me) == PublisherOf(old(shared), me)
      {
        var action: Action := *;
        if ByOthers(action, me) && Enabled(shared, action) {
          Perform(action, past);
        }
      }
    }

    /** Sends a pipeline; a failure leaves it carried out up to some command. */
    method Query(pipe: seq<Command>, ghost rest: seq<Command>, ghost past: seq<Command>) returns (ok: bool)
      requires Valid() && AtCommands(pipe + rest) && Removed(shared, past)
      modifies this
      ensures Valid() && old(run) <= run && Removed(shared, past) && PublisherOf(shared, me).Running?
      ensures SentPrefix(old(sent), sent, pipe, ok)
      ensures ok ==> AtCommands(rest) && Removed(shared, past + pipe)
      ensures reliable ==> ok
    {
      ok := *;
      ok := ok || reliable;
      var reached :| 0 <= reached <= |pipe|;
      if ok {
        reached := |pipe|;
      }
      assert pipe[0..] == pipe && past + pipe[..0] == past;
      for i := 0 to reached
        invariant Valid() && old(run) <= run && AtCommands(pipe[i..] + rest)
        invariant Removed(shared, past + pipe[..i]) && sent == old(sent) + pipe[..i]
      {
        SendOne(pipe[i..] + rest, past + pipe[..i]);
        assert (pipe[i..] + rest)[0] == pipe[i] && (pipe[i..] + rest)[1..] == pipe[i + 1..] + rest;
        assert past + pipe[..i] + [pipe[i]] == past + pipe[..i + 1];
        assert pipe[..i] + [pipe[i]] == pipe[..i + 1];
      }
      assert pipe[|pipe|..] + rest == rest && pipe[..|pipe|] == pipe;
      assert forall k :: 0 <= k < |past| ==> (past + pipe[..reached])[k] == past[k];
    }

    method SendOne(ghost commands: seq<Command>, ghost past: seq<Command>)
      requires Valid() && commands != [] && AtCommands(commands) && Removed(shared, past)
      modifies this
      ensures Valid() && old(run) <= run && AtCommands(commands[1..])
      ensures Removed(shared, past + [commands[0]]) && sent == old(sent) + [commands[0]]
    {
      Others(past);
      ghost var before := shared;
      RunKeepsInv(run, |run| - 1);
      Perform(Send(me), past);
      SendRemoves(before, shared, me, commands);
      sent := sent + [commands[0]];
      assert Removed(shared, past + [commands[0]]) by {
        assert commands[..1] == [commands[0]];
      }
    }

    /** `remove_stale_events`. */
    method RemoveStaleEvents(ids: seq<EventId>, keys: seq<EventId>, ghost rest: seq<Command>, ghost past: seq<Command>) returns (ok: bool)
      requires Valid() && AtCommands(RemovalCommands(ids, keys) + rest) && Removed(shared, past)
      modifies this
      ensures Valid() && old(run) <= run && Removed(shared, past) && PublisherOf(shared, me).Running?
      ensures SentPrefix(old(sent), sent, RemovalCommands(ids, keys), ok)
      ensures ok ==> AtCommands(rest) && Removed(shared, past + RemovalCommands(ids, keys))
      ensures reliable ==> ok
    {
      var pipe := [];
      if keys != [] {
        pipe := pipe + [Del(keys)];
      }
      if ids != [] {
        pipe := pipe + [Zrem(ids)];
      }
      assert pipe == RemovalCommands(ids, keys);
      if ids == [] && keys == [] {
        assert pipe + rest == rest && past + pipe == past;
        assert sent == sent + pipe[..0];
        return true;
      }
      ok := Query(pipe, rest, past);
    }

    /** The appends of `EventPublisher::publish`. */
    method Append(kind: Kind, items: seq<Item>, ghost rest: seq<Command>, ghost past: seq<Command>) returns (ok: bool)
      requires Valid() && AtCommands(Xadds(kind, items) + rest) && Removed(shared, past)
      modifies this
      ensures Valid() && old(run) <= run && Removed(shared, past) && PublisherOf(shared, me).Running?
      ensures SentPrefix(old(sent), sent, Xadds(kind, items), ok)
      ensures ok ==> AtCommands(rest) && Removed(shared, past + Xadds(kind, items))
      ensures reliable ==> ok
    {
      var pipe := [];
      for i := 0 to |items|
        invariant pipe + Xadds(kind, items[i..]) == Xadds(kind, items)
      {
        assert items[i..][0] == items[i] && items[i..][1..] == items[i + 1..];
        pipe := pipe + [Xadd(kind, items[i].event)];
      }
      assert items[|items|..] == [] && pipe == Xadds(kind, items);
      ok := Query(pipe, rest, past);
    }

    /** Its removals. */
    method RemovePublished(items: seq<Item>, ghost rest: seq<Command>, ghost past: seq<Command>) returns (ok: bool)
      requires Valid() && AtCommands(RemovalCommands(IdsOf(items), IdsOf(items)) + rest) && Removed(shared, past)
      modifies this
      ensures Valid() && old(run) <= run && Removed(shared, past) && PublisherOf(shared, me).Running?
      ensures SentPrefix(old(sent), sent, RemovalCommands(IdsOf(items), IdsOf(items)), ok)
      ensures ok ==> AtCommands(rest) && Removed(shared, past + RemovalCommands(IdsOf(items), IdsOf(items)))
      ensures reliable ==> ok
    {
      var removeIds, removeKeys := [], [];
      for i := 0 to |items|
        invariant removeIds == IdsOf(items)[..i] && removeKeys == IdsOf(items)[..i]
      {
        removeIds := removeIds + [items[i].id];
        removeKeys := removeKeys + [items[i].id];
      }
      assert removeIds == IdsOf(items) && removeKeys == IdsOf(items);
      ok := RemoveStaleEvents(removeIds, removeKeys, rest, past);
    }

    /** `EventPublisher::publish`; `None` stands for the error that ends the turn. */
    method Publish(kind: Kind, items: seq<Item>, ghost rest: seq<Command>, ghost past: seq<Command>) returns (published: Option<nat>)
      requires Valid() && AtCommands(PublishCommands(kind, items) + rest) && Removed(shared, past)
      modifies this
      ensures Valid() && old(run) <= run && Removed(shared, past) && PublisherOf(shared, me).Running?
      ensures SentPrefix(old(sent), sent, PublishCommands(kind, items), published.Some?)
      ensures published.Some? ==> published.value == |items| && AtCommands(rest)
      ensures published.Some? ==> Removed(shared, past + PublishCommands(kind, items))
      ensures reliable ==> published.Some?
    {
      if items == [] {
        assert PublishCommands(kind, items) + rest == rest && past + PublishCommands(kind, items) == past;
        assert sent == sent + PublishCommands(kind, items)[..0];
        return Some(0);
      }
      ghost var appends, removal := Xadds(kind, items), RemovalCommands(IdsOf(items), IdsOf(items));
      assert PublishCommands(kind, items) + rest == appends + (removal + rest);
      var ok := Append(kind, items, removal + rest, past);
      if !ok {
        PrefixOfFirst(old(sent), sent, appends, removal);
        return None;
      }
      ghost var middle := sent;
      ok := RemovePublished(items, rest, past + appends);
      PrefixOfBoth(old(sent), middle, sent, appends, removal, ok);
      RemovedPrefix(shared, past, appends);
      assert past + appends + removal == past + PublishCommands(kind, items);
      published := if ok then Some(|items|) else None;
    }

    lemma RemovedPrefix(s: State, past: seq<Command>, more: seq<Command>)
      requires Removed(s, past + more)
      ensures Removed(s, past)
    {
      assert forall k :: 0 <= k < |past| ==> (past + more)[k] == past[k];
    }

    method GetOne(due: seq<EventId>, answers: seq<Option<Payload>>, ghost gone: seq<Command>)
        returns (reply: Option<Payload>, ghost missing: seq<Command>)
      requires Valid() && |answers| < |due| && PublisherOf(shared, me) == Loading(due, answers) && Removed(shared, gone)
      modifies `shared, `run
      ensures Valid() && old(run) <= run && PublisherOf(shared, me) == Loading(due, answers + [reply])
      ensures Removed(shared, gone + missing) && missing == if reply.None? then [Del([due[|answers|]])] else []
    {
      ghost var id := due[|answers|];
      reply := if due[|answers|] in shared.payloads then Some(shared.payloads[due[|answers|]]) else None;
      missing := if reply.None? then [Del([id])] else [];
      FetchedIsBorn(run, me, due, answers);
      assert RemovedBy(shared, Del([id])) || reply.Some?;
      Perform(Get(me), gone + missing);
    }

    /** The pipeline of GETs; `gone` names the payloads that were not there, and so never will be again. */
    method ReadPayloads(due: seq<EventId>) returns (loaded: Option<seq<Option<Payload>>>, ghost gone: seq<Command>)
      requires Valid() && PublisherOf(shared, me) == Loading(due, [])
      modifies `shared, `run
      ensures Valid() && old(run) <= run && Removed(shared, gone)
      ensures loaded.Some? ==> |loaded.value| == |due| && PublisherOf(shared, me) == Loading(due, loaded.value)
      ensures loaded.Some? ==> NamesGone(due, loaded.value, gone)
      ensures reliable ==> loaded.Some?
    {
      var answers: seq<Option<Payload>> := [];
      gone := [];
      for i := 0 to |due|
        invariant Valid() && old(run) <= run && |answers| == i && PublisherOf(shared, me) == Loading(due, answers)
        invariant Removed(shared, gone) && NamesGone(due, answers, gone)
      {
        Others(gone);
        ghost var missing;
        var reply;
        reply, missing := GetOne(due, answers, gone);
        answers, gone := answers + [reply], gone + missing;
      }
      var answered: bool := *;
      loaded := if answered || reliable then Some(answers) else None;
    }

    method PlanTurn(due: seq<EventId>) returns (loaded: Option<seq<Option<Payload>>>, ghost gone: seq<Command>)
      requires Valid() && PublisherOf(shared, me) == Loading(due, [])
      modifies `shared, `run
      ensures Valid() && old(run) <= run && Removed(shared, gone)
      ensures loaded.None? ==> PublisherOf(shared, me).Idle?
      ensures loaded.Some? ==> |loaded.value| == |due| && AtCommands(PlanCommands(due, loaded.value)) && NamesGone(due, loaded.value, gone)
      ensures reliable ==> loaded.Some?
    {
      loaded, gone := ReadPayloads(due);
      Perform(if loaded.Some? then Plan(me) else Crash(me), gone);
    }

    /** Sorts out what was read: the events of each stream, and what is stale. */
    method SortOut(due: seq<EventId>, loaded: seq<Option<Payload>>)
        returns (privateEvents: seq<Item>, groupEvents: seq<Item>, staleIds: seq<EventId>, staleKeys: seq<EventId>)
      requires |due| == |loaded|
      ensures privateEvents == ItemsOf(due, loaded, PrivateStream) && groupEvents == ItemsOf(due, loaded, GroupStream)
      ensures staleIds == StaleIds(due, loaded) && staleKeys == StaleKeys(due, loaded)
    {
      privateEvents, groupEvents, staleIds, staleKeys := [], [], [], [];
      for i := 0 to |due|
        invariant privateEvents == ItemsOf(due[..i], loaded[..i], PrivateStream)
        invariant groupEvents == ItemsOf(due[..i], loaded[..i], GroupStream)
        invariant staleIds == StaleIds(due[..i], loaded[..i]) && staleKeys == StaleKeys(due[..i], loaded[..i])
      {
        assert due[..i + 1][..i] == due[..i] && loaded[..i + 1][..i] == loaded[..i];
        match loaded[i] {
        case None =>
          staleIds := staleIds + [due[i]];
        case Some(NotJson) =>
          staleIds := staleIds + [due[i]];
          staleKeys := staleKeys + [due[i]];
        case Some(Json(event)) =>
          match KindOf(event) {
          case PrivateStream => privateEvents := privateEvents + [Item(due[i], event)];
          case GroupStream => groupEvents := groupEvents + [Item(due[i], event)];
          }
        }
      }
      assert due[..|due|] == due && loaded[..|due|] == loaded;
    }

    /** The events of both streams, the private ones first. */
    method PublishBoth(privateEvents: seq<Item>, groupEvents: seq<Item>, ghost past: seq<Command>) returns (published: Option<nat>)
      requires Valid() && Removed(shared, past)
      requires AtCommands(PublishCommands(PrivateStream, privateEvents) + PublishCommands(GroupStream, groupEvents))
      modifies this
      ensures Valid() && old(run) <= run
      ensures SentPrefix(old(sent), sent,
                         PublishCommands(PrivateStream, privateEvents) + PublishCommands(GroupStream, groupEvents), published.Some?)
      ensures published.Some? ==> published.value == |privateEvents| + |groupEvents|
      ensures published.Some? ==>
        Removed(shared, past + PublishCommands(PrivateStream, privateEvents) + PublishCommands(GroupStream, groupEvents))
      ensures reliable ==> published.Some?
    {
      ghost var first, second := PublishCommands(PrivateStream, privateEvents), PublishCommands(GroupStream, groupEvents);
      var privatePublished := Publish(PrivateStream, privateEvents, second, past);
      if privatePublished.None? {
        PrefixOfFirst(old(sent), sent, first, second);
        return None;
      }
      ghost var middle := sent;
      assert second + [] == second;
      var groupPublished := Publish(GroupStream, groupEvents, [], past + first);
      PrefixOfBoth(old(sent), middle, sent, first, second, groupPublished.Some?);
      published := if groupPublished.Some? then Some(privatePublished.value + groupPublished.value) else None;
    }

    /** The plan of a turn, in its order, all of it unless an error stops it. */
    method CarryOut(due: seq<EventId>, loaded: seq<Option<Payload>>, ghost past: seq<Command>) returns (published: Option<nat>)
      requires Valid() && |due| == |loaded| && AtCommands(PlanCommands(due, loaded)) && Removed(shared, past)
      modifies this
      ensures Valid() && old(run) <= run
      ensures SentPrefix(old(sent), sent, PlanCommands(due, loaded), published.Some?)
      ensures published.Some? ==> Removed(shared, past + PlanCommands(due, loaded))
      ensures published.Some? ==>
        published.value == |ItemsOf(due, loaded, PrivateStream)| + |ItemsOf(due, loaded, GroupStream)|
      ensures reliable ==> published.Some?
    {
      var privateEvents, groupEvents, staleIds, staleKeys := SortOut(due, loaded);
      ghost var stale := RemovalCommands(staleIds, staleKeys);
      ghost var both := PublishCommands(PrivateStream, privateEvents) + PublishCommands(GroupStream, groupEvents);
      assert PlanCommands(due, loaded) == stale + both;
      var ok := RemoveStaleEvents(staleIds, staleKeys, both, past);
      if !ok {
        PrefixOfFirst(old(sent), sent, stale, both);
        return None;
      }
      ghost var middle := sent;
      published := PublishBoth(privateEvents, groupEvents, past + stale);
      PrefixOfBoth(old(sent), middle, sent, stale, both, published.Some?);
      assert past + stale + PublishCommands(PrivateStream, privateEvents) + PublishCommands(GroupStream, groupEvents)
        == past + PlanCommands(due, loaded);
    }

    /**
     `publish_due_events`, for the members that the fetch has returned. When it succeeds, each of them has left
     the pending set and its payload is gone, and every event among them is in the stream for groups or in the
     private one, as its fields say. Only a command that fails keeps it from succeeding.
     */
    method PublishDueEvents(source: nat, now: int, limit: nat, due: seq<EventId>)
        returns (published: Option<nat>, ghost loaded: seq<Option<Payload>>)
      requires Valid() && PublisherOf(shared, me).Idle? && DueReply(shared, source, now, limit, due)
      modifies this
      ensures Valid() && old(run) <= run && PublisherOf(shared, me).Idle?
      ensures |loaded| == |due| && SentPrefix(old(sent), sent, PlanCommands(due, loaded), published.Some?)
      ensures published.Some? ==> forall id :: id in due ==> Published(shared, id)
      ensures reliable ==> published.Some?
    {
      loaded := seq(|due|, _ => None);
      assert sent == sent + PlanCommands(due, loaded)[..0];
      Perform(Fetch(me, source, now, limit, due), []);
      var answers;
      ghost var gone;
      answers, gone := PlanTurn(due);
      if answers.None? {
        return None, loaded;
      }
      loaded := answers.value;
      published := CarryOut(due, answers.value, gone);
      ghost var done := if published.Some? then gone + PlanCommands(due, loaded) else [];
      Perform(Crash(me), done);
      if published.Some? {
        DueIsPublished(run, due, loaded, gone);
      }
    }
  }

  /** The payloads that were not there when they were read. */
  ghost predicate NamesGone(due: seq<EventId>, loaded: seq<Option<Payload>>, gone: seq<Command>) {
    && |loaded| <= |due|
    && forall k :: 0 <= k < |loaded| && loaded[k].None? ==> Del([due[k]]) in gone
  }

  /** Neither pending nor stored, and in its own stream if it is an event. */
  ghost predicate Published(s: State, id: EventId) {
    id !in s.pending && id !in s.payloads && (Enqueued(s, id) ==> InOwnStream(s, id))
  }

  lemma RemovedPart(s: State, before: seq<Command>, pipe: seq<Command>, after: seq<Command>)
    requires Removed(s, before + pipe + after)
    ensures Removed(s, pipe)
  {
    forall k | 0 <= k < |pipe|
      ensures RemovedBy(s, pipe[k])
    {
      assert (before + pipe + after)[|before| + k] == pipe[k];
    }
  }

  lemma DueIsPublished(run: seq<State>, due: seq<EventId>, loaded: seq<Option<Payload>>, gone: seq<Command>)
    requires IsRun(run) && |due| == |loaded| && NamesGone(due, loaded, gone) && Removed(Last(run), gone + PlanCommands(due, loaded))
    ensures forall id :: id in due ==> Published(Last(run), id)
  {
    var s := Last(run);
    RunKeepsInv(run, |run| - 1);
    PlanIsRemoved(s, due, loaded, gone);
    forall id | id in due
      ensures Published(s, id)
    {
      DueIsRemoved(s, due, loaded, gone, id);
      if Enqueued(s, id) {
        StreamIdIsInStream(s, id);
        InStreamIsOwn(s, id);
      }
    }
  }

  /** The parts of the plan. */
  ghost predicate PlanRemoved(s: State, due: seq<EventId>, loaded: seq<Option<Payload>>)
    requires |due| == |loaded|
  {
    && Removed(s, RemovalCommands(StaleIds(due, loaded), StaleKeys(due, loaded)))
    && Removed(s, PublishCommands(PrivateStream, ItemsOf(due, loaded, PrivateStream)))
    && Removed(s, PublishCommands(GroupStream, ItemsOf(due, loaded, GroupStream)))
  }

  lemma PlanIsRemoved(s: State, due: seq<EventId>, loaded: seq<Option<Payload>>, gone: seq<Command>)
    requires |due| == |loaded| && Removed(s, gone + PlanCommands(due, loaded))
    ensures Removed(s, gone) && PlanRemoved(s, due, loaded)
  {
    var plan := PlanCommands(due, loaded);
    ThreeParts(s, gone, RemovalCommands(StaleIds(due, loaded), StaleKeys(due, loaded)),
               PublishCommands(PrivateStream, ItemsOf(due, loaded, PrivateStream)),
               PublishCommands(GroupStream, ItemsOf(due, loaded, GroupStream)), gone + plan);
  }

  lemma ThreeParts(s: State, gone: seq<Command>, a: seq<Command>, b: seq<Command>, c: seq<Command>, all: seq<Command>)
    requires all == gone + (a + b + c) && Removed(s, all)
    ensures Removed(s, gone) && Removed(s, a) && Removed(s, b) && Removed(s, c)
  {
    assert all == [] + gone + (a + b + c) && all == gone + a + (b + c);
    assert all == (gone + a) + b + c && all == (gone + a + b) + c + [];
    RemovedPart(s, [], gone, a + b + c);
    RemovedPart(s, gone, a, b + c);
    RemovedPart(s, gone + a, b, c);
    RemovedPart(s, gone + a + b, c, []);
  }

  /** Every fetched member is in one of the plan's removals, and its payload was not there or is deleted. */
  lemma DueIsRemoved(s: State, due: seq<EventId>, loaded: seq<Option<Payload>>, gone: seq<Command>, id: EventId)
    requires |due| == |loaded| && id in due && PlanRemoved(s, due, loaded)
    requires Removed(s, gone) && NamesGone(due, loaded, gone)
    ensures id in s.born && id !in s.pending && id !in s.payloads
  {
    var k :| 0 <= k < |due| && due[k] == id;
    DueIsSorted(due, loaded, k);
    var stale := RemovalCommands(StaleIds(due, loaded), StaleKeys(due, loaded));
    if loaded[k].None? || loaded[k].value.NotJson? {
      RemovalRemoves(s, StaleIds(due, loaded), StaleKeys(due, loaded), id);
      if loaded[k].None? {
        var j :| 0 <= j < |gone| && gone[j] == Del([id]);
        assert RemovedBy(s, gone[j]);
      }
    } else {
      PublishRemoves(s, KindOf(loaded[k].value.event), ItemsOf(due, loaded, KindOf(loaded[k].value.event)), id);
    }
  }

  lemma RemovalRemoves(s: State, ids: seq<EventId>, keys: seq<EventId>, id: EventId)
    requires Removed(s, RemovalCommands(ids, keys))
    ensures id in ids ==> id in s.born && id !in s.pending
    ensures id in keys ==> id !in s.payloads
  {
    var pipe := RemovalCommands(ids, keys);
    if id in ids {
      assert pipe[|pipe| - 1] == Zrem(ids) && RemovedBy(s, pipe[|pipe| - 1]);
    }
    if id in keys {
      assert pipe[0] == Del(keys) && RemovedBy(s, pipe[0]);
    }
  }

  lemma PublishRemoves(s: State, kind: Kind, items: seq<Item>, id: EventId)
    requires Removed(s, PublishCommands(kind, items)) && id in IdsOf(items)
    ensures id in s.born && id !in s.pending && id !in s.payloads
  {
    var removal := RemovalCommands(IdsOf(items), IdsOf(items));
    assert PublishCommands(kind, items) == Xadds(kind, items) + removal + [];
    RemovedPart(s, Xadds(kind, items), removal, []);
    RemovalRemoves(s, IdsOf(items), IdsOf(items), id);
  }

  /** Each member fetched is among the stale ones or the items of the stream it belongs to, by what was read. */
  lemma {:induction false} DueIsSorted(due: seq<EventId>, loaded: seq<Option<Payload>>, k: nat)
    requires |due| == |loaded| && k < |due|
    ensures loaded[k].None? ==> due[k] in StaleIds(due, loaded)
    ensures loaded[k].Some? && loaded[k].value.NotJson? ==> due[k] in StaleIds(due, loaded) && due[k] in StaleKeys(due, loaded)
    ensures loaded[k].Some? && loaded[k].value.Json? ==> due[k] in IdsOf(ItemsOf(due, loaded, KindOf(loaded[k].value.event)))
  {
    var n := |due| - 1;
    if k < n {
      DueIsSorted(due[..n], loaded[..n], k);
      IdsGrow(due, loaded, PrivateStream);
      IdsGrow(due, loaded, GroupStream);
    } else if loaded[n].Some? && loaded[n].value.Json? {
      var items := ItemsOf(due, loaded, KindOf(loaded[n].value.event));
      assert IdsOf(items)[|items| - 1] == due[n];
    }
  }

  lemma IdsGrow(due: seq<EventId>, loaded: seq<Option<Payload>>, kind: Kind)
    requires |due| == |loaded| && due != []
    ensures IdsOf(ItemsOf(due[..|due| - 1], loaded[..|due| - 1], kind)) <= IdsOf(ItemsOf(due, loaded, kind))
  {
  }

  /** `pipe` was carried out after `before`: whole when `ok`, otherwise up to some command. */
  ghost predicate SentPrefix(before: seq<Command>, after: seq<Command>, pipe: seq<Command>, ok: bool) {
    && (ok ==> after == before + pipe)
    && exists n :: 0 <= n <= |pipe| && after == before + pipe[..n]
  }

  lemma PrefixOfFirst(before: seq<Command>, after: seq<Command>, first: seq<Command>, second: seq<Command>)
    requires SentPrefix(before, after, first, false)
    ensures SentPrefix(before, after, first + second, false)
  {
    var n :| 0 <= n <= |first| && after == before + first[..n];
    assert (first + second)[..n] == first[..n];
  }

  lemma PrefixOfBoth(before: seq<Command>, middle: seq<Command>, after: seq<Command>,
                     first: seq<Command>, second: seq<Command>, ok: bool)
    requires middle == before + first && SentPrefix(middle, after, second, ok)
    ensures SentPrefix(before, after, first + second, ok)
  {
    var n :| 0 <= n <= |second| && after == middle + second[..n];
    assert (first + second)[..|first| + n] == first + second[..n];
    assert after == before + (first + second)[..|first| + n];
  }
}
