/**
 The tables the background writer owns and the statements it runs on them
 (background_writer/background_db.rs). A statement is an insert with an ON DUPLICATE KEY UPDATE clause,
 so every one of them is a join of a row with the inserted values.
 */
module BackgroundDb {
  import opened Options
  import opened Events

  const MYSQL_BIND_LIMIT := 60_000
  const MESSAGE_INSERT_BINDS := 25
  const PRIVATE_READ_CURSOR_INSERT_BINDS := 6
  const GROUP_READ_CURSOR_INSERT_BINDS := 8

  datatype MessageRow = MessageRow(status: int, conversationSeq: Option<int>, updatedAt: int, body: string)

  datatype GroupRow = GroupRow(readAt: int, readSeq: int, messageId: Option<int>)

  type Messages = map<int, MessageRow>
  type Privates = map<(int, int), int>
  type Groups = map<(int, int), GroupRow>

  datatype Tables = Tables(messages: Messages, privates: Privates, groups: Groups)

  const EMPTY_TABLES := Tables(map[], map[], map[])

  // ---------- messages ----------

  /** `DbMessage::from_message` drops a message whose id does not parse or is not positive. */
  predicate Storable(message: Message) {
    message.id.Some? && message.id.value > 0
  }

  predicate StoresAs(message: Message, id: int) {
    Storable(message) && message.id.value == id
  }

  function RowOf(message: Message): MessageRow {
    MessageRow(message.status.Code(), message.conversationSeq, message.updatedAt, message.body)
  }

  function JoinMessage(row: MessageRow, message: Message): MessageRow {
    MessageRow(
      Max(row.status, message.status.Code()),
      message.conversationSeq.OrElse(row.conversationSeq),
      Max(row.updatedAt, message.updatedAt),
      row.body)
  }

  function InsertMessage(t: Messages, message: Message): Messages {
    if !Storable(message) then t
    else
      var id := message.id.value;
      t[id := if id in t then JoinMessage(t[id], message) else RowOf(message)]
  }

  function InsertMessages(t: Messages, messages: seq<Message>): Messages {
    if messages == [] then t
    else InsertMessage(InsertMessages(t, messages[..|messages| - 1]), messages[|messages| - 1])
  }

  /** The UPDATE of `apply_status`: it touches no row when the message is not stored. */
  function UpdateStatus(t: Messages, id: int, code: int, at: int): Messages {
    if id in t then t[id := t[id].(status := Max(t[id].status, code), updatedAt := at)] else t
  }

  function StorableOnly(messages: seq<Message>): (records: seq<Message>)
    ensures forall r :: r in records ==> Storable(r)
  {
    if messages == [] then []
    else
      var init := StorableOnly(messages[..|messages| - 1]);
      var last := messages[|messages| - 1];
      if Storable(last) then init + [last] else init
  }

  lemma {:induction false} InsertStorableOnly(t: Messages, messages: seq<Message>)
    ensures InsertMessages(t, StorableOnly(messages)) == InsertMessages(t, messages)
  {
    if messages != [] {
      var init, last := messages[..|messages| - 1], messages[|messages| - 1];
      InsertStorableOnly(t, init);
      if Storable(last) {
        var records := StorableOnly(init) + [last];
        assert records[..|records| - 1] == StorableOnly(init);
      }
    }
  }

  /** The stored status is the largest among the old one and those of the messages inserted under the id. */
  lemma {:induction false} InsertedStatusIsMax(t: Messages, messages: seq<Message>, id: int)
    ensures var r := InsertMessages(t, messages);
      && (id in r <==> id in t || exists m :: m in messages && StoresAs(m, id))
      && (id in t ==> t[id].status <= r[id].status)
      && (forall m :: m in messages && StoresAs(m, id) ==> m.status.Code() <= r[id].status)
      && (id in r ==>
            || (id in t && r[id].status == t[id].status)
            || exists m :: m in messages && StoresAs(m, id) && m.status.Code() == r[id].status)
  {
    if messages != [] {
      var init, last := messages[..|messages| - 1], messages[|messages| - 1];
      assert messages == init + [last];
      InsertedStatusIsMax(t, init, id);
      assert last in messages && forall m :: m in init ==> m in messages;
    }
  }

  /** Messages that agree on the columns an insert may write keep those columns fixed, however often they come. */
  lemma {:induction false} InsertedColumnsAgree(t: Messages, messages: seq<Message>, id: int, model: Message)
    requires id in t ==> t[id].body == model.body && t[id].conversationSeq == model.conversationSeq
    requires forall m :: m in messages && StoresAs(m, id) ==>
      m.body == model.body && m.conversationSeq == model.conversationSeq
    ensures var r := InsertMessages(t, messages);
      id in r ==> r[id].body == model.body && r[id].conversationSeq == model.conversationSeq
  {
    if messages != [] {
      var init, last := messages[..|messages| - 1], messages[|messages| - 1];
      assert messages == init + [last];
      InsertedColumnsAgree(t, init, id, model);
    }
  }

  // ---------- what the columns come to ----------

  /** A recall or delete writes its own code if that is greater, and its own time in any case; nothing else, and no other row. */
  lemma StatusUpdateIs(t: Messages, id: int, code: int, at: int)
    ensures var r := UpdateStatus(t, id, code, at);
      && r.Keys == t.Keys
      && (forall other :: other in t && other != id ==> r[other] == t[other])
      && (id in t ==>
            && (if t[id].status < code then r[id].status == code else r[id].status == t[id].status)
            && r[id].updatedAt == at && r[id].body == t[id].body && r[id].conversationSeq == t[id].conversationSeq)
  {
  }

  /** One create: a first insert stores its columns; a later one keeps the body, and a sequence where it brings none. */
  lemma InsertIs(t: Messages, message: Message, id: int)
    ensures var r := InsertMessage(t, message);
      if !StoresAs(message, id) then (id in r <==> id in t) && (id in t ==> r[id] == t[id])
      else
        && id in r
        && (id !in t ==> r[id].body == message.body && r[id].updatedAt == message.updatedAt && r[id].conversationSeq == message.conversationSeq)
        && (id in t ==>
              && r[id].body == t[id].body
              && (if t[id].updatedAt < message.updatedAt then r[id].updatedAt == message.updatedAt else r[id].updatedAt == t[id].updatedAt)
              && (if message.conversationSeq.Some? then r[id].conversationSeq == message.conversationSeq
                  else r[id].conversationSeq == t[id].conversationSeq))
  {
  }

  /** The time of update is the latest offered. */
  lemma {:induction false} InsertedTimeIsLatest(t: Messages, messages: seq<Message>, id: int)
    ensures var r := InsertMessages(t, messages);
      && (forall m :: m in messages && StoresAs(m, id) ==> id in r && m.updatedAt <= r[id].updatedAt)
      && (id in t ==> id in r && t[id].updatedAt <= r[id].updatedAt)
      && (id in r ==>
            || (id in t && r[id].updatedAt == t[id].updatedAt)
            || exists m :: m in messages && StoresAs(m, id) && r[id].updatedAt == m.updatedAt)
  {
    if messages != [] {
      var init, last := messages[..|messages| - 1], messages[|messages| - 1];
      assert messages == init + [last];
      InsertedTimeIsLatest(t, init, id);
      InsertIs(InsertMessages(t, init), last, id);
      assert last in messages && forall m :: m in init ==> m in messages;
    }
  }

  predicate FirstStored(messages: seq<Message>, i: nat, id: int) {
    i < |messages| && StoresAs(messages[i], id) && forall j :: 0 <= j < i ==> !StoresAs(messages[j], id)
  }

  /** The body is the one stored first. */
  lemma {:induction false} InsertedBodyIsFirst(t: Messages, messages: seq<Message>, id: int)
    ensures var r := InsertMessages(t, messages);
      && (id in t ==> id in r && r[id].body == t[id].body)
      && (id !in t ==>
            && (id in r ==> exists i: nat :: FirstStored(messages, i, id) && r[id].body == messages[i].body)
            && (id !in r ==> forall i :: 0 <= i < |messages| ==> !StoresAs(messages[i], id)))
  {
    if messages != [] {
      var n := |messages| - 1;
      var init := messages[..n];
      assert forall i :: 0 <= i < n ==> init[i] == messages[i];
      InsertedBodyIsFirst(t, init, id);
      InsertIs(InsertMessages(t, init), messages[n], id);
      if id !in t && id in InsertMessages(t, messages) {
        if id in InsertMessages(t, init) {
          var i: nat :| FirstStored(init, i, id) && InsertMessages(t, init)[id].body == init[i].body;
          assert FirstStored(messages, i, id);
        } else {
          assert FirstStored(messages, n, id);
        }
      }
    }
  }

  /** The last message to bring a sequence. */
  predicate LastWithSeq(messages: seq<Message>, i: nat, id: int) {
    && i < |messages| && StoresAs(messages[i], id) && messages[i].conversationSeq.Some?
    && forall j :: i < j < |messages| && StoresAs(messages[j], id) ==> messages[j].conversationSeq.None?
  }

  predicate BringsNone(messages: seq<Message>, id: int) {
    forall j :: 0 <= j < |messages| && StoresAs(messages[j], id) ==> messages[j].conversationSeq.None?
  }

  /** The sequence is the last one brought; messages that bring none leave it. */
  lemma {:induction false} InsertedSeqIsLast(t: Messages, messages: seq<Message>, id: int)
    requires id in InsertMessages(t, messages)
    ensures var seqNo := InsertMessages(t, messages)[id].conversationSeq;
      if BringsNone(messages, id) then seqNo == (if id in t then t[id].conversationSeq else None)
      else exists i: nat :: LastWithSeq(messages, i, id) && seqNo == messages[i].conversationSeq
  {
    if messages != [] {
      var n := |messages| - 1;
      var init := messages[..n];
      assert forall i :: 0 <= i < n ==> init[i] == messages[i];
      InsertIs(InsertMessages(t, init), messages[n], id);
      if StoresAs(messages[n], id) && messages[n].conversationSeq.Some? {
        assert LastWithSeq(messages, n, id);
      } else if id in InsertMessages(t, init) {
        InsertedSeqIsLast(t, init, id);
        if !BringsNone(init, id) {
          var i: nat :| LastWithSeq(init, i, id) && InsertMessages(t, init)[id].conversationSeq == init[i].conversationSeq;
          assert LastWithSeq(messages, i, id);
        }
      } else {
        InsertedBodyIsFirst(t, init, id);
      }
    }
  }

  // ---------- private read cursors ----------

  function PrivateKey(c: PrivateCursor): (int, int) {
    (c.user, c.peer)
  }

  function UpsertPrivate(t: Privates, c: PrivateCursor): Privates {
    var key := PrivateKey(c);
    t[key := if key in t then Max(t[key], c.readAt) else c.readAt]
  }

  /** The upserts applied one by one, which is what coalescing has to agree with. */
  function UpsertPrivates(t: Privates, cursors: seq<PrivateCursor>): Privates {
    if cursors == [] then t
    else UpsertPrivate(UpsertPrivates(t, cursors[..|cursors| - 1]), cursors[|cursors| - 1])
  }

  /** The `HashMap` that `coalesce_private_read_cursors` builds. */
  function CoalescePrivate(cursors: seq<PrivateCursor>): (latest: map<(int, int), PrivateCursor>)
    ensures forall key :: key in latest ==> PrivateKey(latest[key]) == key && latest[key] in cursors
  {
    if cursors == [] then map[]
    else
      var latest := CoalescePrivate(cursors[..|cursors| - 1]);
      var c := cursors[|cursors| - 1];
      var key := PrivateKey(c);
      if key in latest && c.readAt <= latest[key].readAt then latest else latest[key := c]
  }

  /** Upserting one cursor for each key of `latest`, in any order. */
  function UpsertPrivateMap(t: Privates, latest: map<(int, int), PrivateCursor>): Privates {
    map key | key in t.Keys + latest.Keys ::
      if key !in latest then t[key]
      else if key in t then Max(t[key], latest[key].readAt)
      else latest[key].readAt
  }

  /** Coalescing a batch of private cursors loses nothing: the table ends as if each had been upserted. */
  lemma {:induction false} CoalescePrivateRefinesOneByOne(t: Privates, cursors: seq<PrivateCursor>)
    ensures UpsertPrivateMap(t, CoalescePrivate(cursors)) == UpsertPrivates(t, cursors)
  {
    if cursors == [] {
      assert UpsertPrivateMap(t, map[]) == t;
    } else {
      var init, c := cursors[..|cursors| - 1], cursors[|cursors| - 1];
      CoalescePrivateRefinesOneByOne(t, init);
      UpsertOneMore(t, CoalescePrivate(init), c);
    }
  }

  lemma UpsertOneMore(t: Privates, latest: map<(int, int), PrivateCursor>, c: PrivateCursor)
    ensures var key := PrivateKey(c);
      UpsertPrivateMap(t, if key in latest && c.readAt <= latest[key].readAt then latest else latest[key := c])
      == UpsertPrivate(UpsertPrivateMap(t, latest), c)
  {
    var key := PrivateKey(c);
    var more := if key in latest && c.readAt <= latest[key].readAt then latest else latest[key := c];
    var a, b := UpsertPrivateMap(t, more), UpsertPrivate(UpsertPrivateMap(t, latest), c);
    assert a.Keys == b.Keys;
    assert a[key] == b[key];
  }

  /** One-by-one application stores the latest time offered for the key. */
  lemma {:induction false} UpsertPrivatesIsMax(t: Privates, cursors: seq<PrivateCursor>, key: (int, int))
    ensures var r := UpsertPrivates(t, cursors);
      && (key in r <==> key in t || exists c :: c in cursors && PrivateKey(c) == key)
      && (key in t ==> t[key] <= r[key])
      && (forall c :: c in cursors && PrivateKey(c) == key ==> c.readAt <= r[key])
      && (key in r ==>
            || (key in t && r[key] == t[key])
            || exists c :: c in cursors && PrivateKey(c) == key && c.readAt == r[key])
  {
    if cursors != [] {
      var init, last := cursors[..|cursors| - 1], cursors[|cursors| - 1];
      assert cursors == init + [last];
      UpsertPrivatesIsMax(t, init, key);
      assert last in cursors && forall c :: c in init ==> c in cursors;
    }
  }

  ghost predicate ListsPrivate(out: seq<PrivateCursor>, latest: map<(int, int), PrivateCursor>) {
    && (forall i, j :: 0 <= i < j < |out| ==> PrivateKey(out[i]) != PrivateKey(out[j]))
    && (forall i :: 0 <= i < |out| ==> PrivateKey(out[i]) in latest && latest[PrivateKey(out[i])] == out[i])
    && (forall key :: key in latest ==> latest[key] in out && PrivateKey(latest[key]) == key)
  }

  lemma {:induction false} CoalesceDistinctPrivate(out: seq<PrivateCursor>, i: nat)
    requires forall i, j :: 0 <= i < j < |out| ==> PrivateKey(out[i]) != PrivateKey(out[j])
    requires i < |out|
    ensures PrivateKey(out[i]) in CoalescePrivate(out) && CoalescePrivate(out)[PrivateKey(out[i])] == out[i]
  {
    var init, last := out[..|out| - 1], out[|out| - 1];
    if i < |init| {
      assert PrivateKey(init[i]) != PrivateKey(last);
      CoalesceDistinctPrivate(init, i);
    } else {
      assert forall j :: 0 <= j < |init| ==> PrivateKey(init[j]) == PrivateKey(out[j]) != PrivateKey(last);
      assert PrivateKey(last) !in CoalescePrivate(init);
    }
  }

  lemma UpsertListedPrivates(t: Privates, out: seq<PrivateCursor>, latest: map<(int, int), PrivateCursor>)
    requires ListsPrivate(out, latest)
    ensures UpsertPrivates(t, out) == UpsertPrivateMap(t, latest)
  {
    forall i | 0 <= i < |out|
      ensures PrivateKey(out[i]) in CoalescePrivate(out) && CoalescePrivate(out)[PrivateKey(out[i])] == out[i]
    {
      CoalesceDistinctPrivate(out, i);
    }
    assert CoalescePrivate(out) == latest;
    CoalescePrivateRefinesOneByOne(t, out);
  }

  // ---------- group read cursors ----------

  function GroupKey(c: GroupCursor): (int, int) {
    (c.group, c.user)
  }

  function NullIfZero(value: int): Option<int> {
    if value == 0 then None else Some(value)
  }

  function GroupRowOf(c: GroupCursor): GroupRow {
    GroupRow(c.readAt, c.readSeq, c.messageId)
  }

  function JoinGroup(row: GroupRow, c: GroupCursor): GroupRow {
    GroupRow(
      Max(row.readAt, c.readAt),
      Max(row.readSeq, c.readSeq),
      NullIfZero(Max(row.messageId.GetOr(0), c.messageId.GetOr(0))))
  }

  function UpsertGroup(t: Groups, c: GroupCursor): Groups {
    var key := GroupKey(c);
    t[key := if key in t then JoinGroup(t[key], c) else GroupRowOf(c)]
  }

  function UpsertGroups(t: Groups, cursors: seq<GroupCursor>): Groups {
    if cursors == [] then t
    else UpsertGroup(UpsertGroups(t, cursors[..|cursors| - 1]), cursors[|cursors| - 1])
  }

  /** `group_cursor_is_newer`. */
  predicate IsNewer(candidate: GroupCursor, current: GroupCursor) {
    || candidate.readSeq > current.readSeq
    || (candidate.readSeq == current.readSeq && candidate.readAt > current.readAt)
  }

  /** The `HashMap` that `coalesce_group_read_cursors` builds. */
  function CoalesceGroup(cursors: seq<GroupCursor>): (latest: map<(int, int), GroupCursor>)
    ensures forall key :: key in latest ==> GroupKey(latest[key]) == key && latest[key] in cursors
  {
    if cursors == [] then map[]
    else
      var latest := CoalesceGroup(cursors[..|cursors| - 1]);
      var c := cursors[|cursors| - 1];
      var key := GroupKey(c);
      if key in latest && !IsNewer(c, latest[key]) then latest else latest[key := c]
  }

  /**
   Every cursor's key keeps a cursor, and none in the batch is newer than the one kept: that has the greatest
   sequence, and the latest time for that sequence.
   */
  lemma {:induction false} CoalesceGroupKeepsNewest(cursors: seq<GroupCursor>, c: GroupCursor)
    requires c in cursors
    ensures GroupKey(c) in CoalesceGroup(cursors) && !IsNewer(c, CoalesceGroup(cursors)[GroupKey(c)])
    ensures var kept := CoalesceGroup(cursors)[(c.group, c.user)];
      c.readSeq <= kept.readSeq && (c.readSeq == kept.readSeq ==> c.readAt <= kept.readAt)
  {
    var init, last := cursors[..|cursors| - 1], cursors[|cursors| - 1];
    assert cursors == init + [last];
    if c in init {
      CoalesceGroupKeepsNewest(init, c);
    }
  }

  function UpsertGroupMap(t: Groups, latest: map<(int, int), GroupCursor>): Groups {
    map key | key in t.Keys + latest.Keys ::
      if key !in latest then t[key]
      else if key in t then JoinGroup(t[key], latest[key])
      else GroupRowOf(latest[key])
  }

  ghost predicate ListsGroup(out: seq<GroupCursor>, latest: map<(int, int), GroupCursor>) {
    && (forall i, j :: 0 <= i < j < |out| ==> GroupKey(out[i]) != GroupKey(out[j]))
    && (forall i :: 0 <= i < |out| ==> GroupKey(out[i]) in latest && latest[GroupKey(out[i])] == out[i])
    && (forall key :: key in latest ==> latest[key] in out && GroupKey(latest[key]) == key)
  }

  lemma {:induction false} UpsertOtherGroups(t: Groups, out: seq<GroupCursor>, key: (int, int))
    requires forall i :: 0 <= i < |out| ==> GroupKey(out[i]) != key
    ensures var r := UpsertGroups(t, out); (key in r <==> key in t) && (key in t ==> r[key] == t[key])
  {
    if out != [] {
      UpsertOtherGroups(t, out[..|out| - 1], key);
    }
  }

  /** Upserting cursors with pairwise different keys touches each key once, so the order does not matter. */
  lemma {:induction false} UpsertDistinctGroup(t: Groups, out: seq<GroupCursor>, i: nat)
    requires forall j, k :: 0 <= j < k < |out| ==> GroupKey(out[j]) != GroupKey(out[k])
    requires i < |out|
    ensures var r, key := UpsertGroups(t, out), GroupKey(out[i]);
      key in r && r[key] == if key in t then JoinGroup(t[key], out[i]) else GroupRowOf(out[i])
  {
    var n := |out| - 1;
    var init := out[..n];
    assert forall k :: 0 <= k < n ==> init[k] == out[k];
    if i < n {
      UpsertDistinctGroup(t, init, i);
      assert GroupKey(out[i]) != GroupKey(out[n]);
    } else {
      UpsertOtherGroups(t, init, GroupKey(out[n]));
    }
  }

  lemma UpsertListedGroups(t: Groups, out: seq<GroupCursor>, latest: map<(int, int), GroupCursor>)
    requires ListsGroup(out, latest)
    ensures UpsertGroups(t, out) == UpsertGroupMap(t, latest)
  {
    var r, m := UpsertGroups(t, out), UpsertGroupMap(t, latest);
    forall key
      ensures (key in r <==> key in m) && (key in r ==> r[key] == m[key])
    {
      ListedGroup(out, latest, key);
      if i: nat :| i < |out| && GroupKey(out[i]) == key {
        UpsertDistinctGroup(t, out, i);
      } else {
        UpsertOtherGroups(t, out, key);
      }
    }
    assert r == m;
  }

  lemma ListedGroup(out: seq<GroupCursor>, latest: map<(int, int), GroupCursor>, key: (int, int))
    requires ListsGroup(out, latest)
    ensures key in latest ==> exists i :: 0 <= i < |out| && GroupKey(out[i]) == key && out[i] == latest[key]
    ensures key !in latest ==> forall i :: 0 <= i < |out| ==> GroupKey(out[i]) != key
  {
    if key in latest {
      var i :| 0 <= i < |out| && out[i] == latest[key];
    }
  }

  /** A stored message id as readers see it: absent, zero and negative ids all mean that nothing was read. */
  function ReadId(messageId: Option<int>): (id: int)
    ensures id >= 0
  {
    Max(messageId.GetOr(0), 0)
  }

  ghost predicate Offered(cursors: seq<GroupCursor>, key: (int, int), c: GroupCursor) {
    c in cursors && GroupKey(c) == key
  }

  lemma {:induction false} UpsertGroupsAtLeast(t: Groups, cursors: seq<GroupCursor>, key: (int, int))
    ensures var r := UpsertGroups(t, cursors);
      && (key in r <==> key in t || exists c :: Offered(cursors, key, c))
      && (key in t ==>
            && t[key].readAt <= r[key].readAt && t[key].readSeq <= r[key].readSeq
            && ReadId(t[key].messageId) <= ReadId(r[key].messageId))
      && (forall c :: Offered(cursors, key, c) ==>
            c.readAt <= r[key].readAt && c.readSeq <= r[key].readSeq && ReadId(c.messageId) <= ReadId(r[key].messageId))
  {
    if cursors != [] {
      var init, last := cursors[..|cursors| - 1], cursors[|cursors| - 1];
      assert cursors == init + [last];
      UpsertGroupsAtLeast(t, init, key);
      assert forall c :: Offered(cursors, key, c) <==> Offered(init, key, c) || (c == last && GroupKey(c) == key);
    }
  }

  lemma {:induction false} UpsertGroupsAttained(t: Groups, cursors: seq<GroupCursor>, key: (int, int))
    requires key in UpsertGroups(t, cursors)
    ensures var row := UpsertGroups(t, cursors)[key];
      && ((key in t && row.readAt == t[key].readAt) || exists c :: Offered(cursors, key, c) && c.readAt == row.readAt)
      && ((key in t && row.readSeq == t[key].readSeq) || exists c :: Offered(cursors, key, c) && c.readSeq == row.readSeq)
      && ((key in t && ReadId(row.messageId) == ReadId(t[key].messageId))
          || exists c :: Offered(cursors, key, c) && ReadId(c.messageId) == ReadId(row.messageId))
  {
    if cursors != [] {
      var init, last := cursors[..|cursors| - 1], cursors[|cursors| - 1];
      assert cursors == init + [last];
      assert forall c :: Offered(init, key, c) ==> Offered(cursors, key, c);
      if key in UpsertGroups(t, init) {
        UpsertGroupsAttained(t, init, key);
      }
      assert GroupKey(last) == key ==> Offered(cursors, key, last);
    }
  }

  /** One-by-one application stores, in each of the three read fields, the largest value offered for the key. */
  lemma UpsertGroupsIsMax(t: Groups, cursors: seq<GroupCursor>, key: (int, int))
    ensures var r := UpsertGroups(t, cursors);
      && (key in r <==> key in t || exists c :: c in cursors && GroupKey(c) == key)
      && (key in t ==>
            && t[key].readAt <= r[key].readAt && t[key].readSeq <= r[key].readSeq
            && ReadId(t[key].messageId) <= ReadId(r[key].messageId))
      && (forall c :: c in cursors && GroupKey(c) == key ==>
            c.readAt <= r[key].readAt && c.readSeq <= r[key].readSeq && ReadId(c.messageId) <= ReadId(r[key].messageId))
      && (key in r ==>
            && ((key in t && r[key].readAt == t[key].readAt) ||
                exists c :: c in cursors && GroupKey(c) == key && c.readAt == r[key].readAt)
            && ((key in t && r[key].readSeq == t[key].readSeq) ||
                exists c :: c in cursors && GroupKey(c) == key && c.readSeq == r[key].readSeq)
            && ((key in t && ReadId(r[key].messageId) == ReadId(t[key].messageId)) ||
                exists c :: c in cursors && GroupKey(c) == key && ReadId(c.messageId) == ReadId(r[key].messageId)))
  {
    UpsertGroupsAtLeast(t, cursors, key);
    assert forall c :: c in cursors && GroupKey(c) == key ==> Offered(cursors, key, c);
    if key in UpsertGroups(t, cursors) {
      UpsertGroupsAttained(t, cursors, key);
    }
  }

  /** Coalescing never stores a larger value than one-by-one application, and always the same sequence. */
  lemma CoalesceGroupIsBelowOneByOne(t: Groups, cursors: seq<GroupCursor>, key: (int, int))
    ensures var a, b := UpsertGroupMap(t, CoalesceGroup(cursors)), UpsertGroups(t, cursors);
      && (key in a <==> key in b)
      && (key in a ==>
            && a[key].readSeq == b[key].readSeq
            && a[key].readAt <= b[key].readAt
            && ReadId(a[key].messageId) <= ReadId(b[key].messageId))
  {
    UpsertGroupsIsMax(t, cursors, key);
    forall c | c in cursors && GroupKey(c) == key
      ensures key in CoalesceGroup(cursors) && !IsNewer(c, CoalesceGroup(cursors)[key])
    {
      CoalesceGroupKeepsNewest(cursors, c);
    }
  }

  /** The first cursor of its key that no cursor of the key is newer than. */
  ghost predicate FirstNewest(cursors: seq<GroupCursor>, i: nat) {
    && i < |cursors|
    && (forall c :: c in cursors && GroupKey(c) == GroupKey(cursors[i]) ==> !IsNewer(c, cursors[i]))
    && (forall j :: 0 <= j < i && GroupKey(cursors[j]) == GroupKey(cursors[i]) ==> IsNewer(cursors[i], cursors[j]))
  }

  /** For each key, the first newest cursor is also the latest in time and in message id. */
  ghost predicate NewestIsLatest(cursors: seq<GroupCursor>) {
    forall i: nat, c :: FirstNewest(cursors, i) && c in cursors && GroupKey(c) == GroupKey(cursors[i]) ==>
      c.readAt <= cursors[i].readAt && ReadId(c.messageId) <= ReadId(cursors[i].messageId)
  }

  lemma {:induction false} FirstNewestExists(cursors: seq<GroupCursor>, c: GroupCursor) returns (i: nat)
    requires c in cursors
    ensures FirstNewest(cursors, i) && GroupKey(cursors[i]) == GroupKey(c)
  {
    var n := |cursors| - 1;
    var init := cursors[..n];
    assert cursors == init + [cursors[n]];
    if d :| d in init && GroupKey(d) == GroupKey(c) {
      i := FirstNewestExists(init, d);
      if GroupKey(cursors[n]) == GroupKey(c) && IsNewer(cursors[n], cursors[i]) {
        i := n;
      }
    } else {
      i := n;
    }
  }

  /** Coalescing keeps the first newest cursor of each key. */
  lemma {:induction false} FirstNewestIsKept(cursors: seq<GroupCursor>, i: nat)
    requires FirstNewest(cursors, i)
    ensures var key := GroupKey(cursors[i]); key in CoalesceGroup(cursors) && CoalesceGroup(cursors)[key] == cursors[i]
  {
    var n := |cursors| - 1;
    var init := cursors[..n];
    assert cursors == init + [cursors[n]];
    if i < n {
      assert FirstNewest(init, i);
      FirstNewestIsKept(init, i);
    } else if GroupKey(cursors[n]) in CoalesceGroup(init) {
      var kept := CoalesceGroup(init)[GroupKey(cursors[n])];
      var j :| 0 <= j < n && cursors[j] == kept;
    }
  }

  ghost predicate KeptIsLatest(cursors: seq<GroupCursor>, latest: map<(int, int), GroupCursor>) {
    forall c :: c in cursors && GroupKey(c) in latest ==>
      c.readAt <= latest[GroupKey(c)].readAt && ReadId(c.messageId) <= ReadId(latest[GroupKey(c)].messageId)
  }

  lemma NewestIsLatestIff(cursors: seq<GroupCursor>)
    ensures NewestIsLatest(cursors) <==> KeptIsLatest(cursors, CoalesceGroup(cursors))
  {
    forall i: nat | FirstNewest(cursors, i)
      ensures var key := GroupKey(cursors[i]); key in CoalesceGroup(cursors) && CoalesceGroup(cursors)[key] == cursors[i]
    {
      FirstNewestIsKept(cursors, i);
    }
    if NewestIsLatest(cursors) {
      forall c | c in cursors
        ensures GroupKey(c) in CoalesceGroup(cursors)
        ensures var kept := CoalesceGroup(cursors)[GroupKey(c)];
          c.readAt <= kept.readAt && ReadId(c.messageId) <= ReadId(kept.messageId)
      {
        var i := FirstNewestExists(cursors, c);
      }
    }
  }

  ghost predicate SameReads(a: Groups, b: Groups) {
    && a.Keys == b.Keys
    && forall key :: key in a ==>
         && a[key].readAt == b[key].readAt
         && a[key].readSeq == b[key].readSeq
         && ReadId(a[key].messageId) == ReadId(b[key].messageId)
  }

  ghost predicate CoalescesExactly(cursors: seq<GroupCursor>) {
    forall t: Groups :: SameReads(UpsertGroupMap(t, CoalesceGroup(cursors)), UpsertGroups(t, cursors))
  }

  /**
   Group coalescing agrees with one-by-one application in all three read fields, on every table, exactly when
   for each key no cursor of the batch is later in time or in message id than the first newest one.
   */
  lemma CoalesceGroupExactIff(cursors: seq<GroupCursor>)
    ensures CoalescesExactly(cursors) <==> NewestIsLatest(cursors)
  {
    NewestIsLatestIff(cursors);
    if NewestIsLatest(cursors) {
      forall t: Groups
        ensures SameReads(UpsertGroupMap(t, CoalesceGroup(cursors)), UpsertGroups(t, cursors))
      {
        ExactOnTable(t, cursors);
      }
    }
    if CoalescesExactly(cursors) {
      ExactKeepsLatest(cursors);
    }
  }

  lemma ExactKeepsLatest(cursors: seq<GroupCursor>)
    requires CoalescesExactly(cursors)
    ensures KeptIsLatest(cursors, CoalesceGroup(cursors))
  {
    var a, b := UpsertGroupMap(map[], CoalesceGroup(cursors)), UpsertGroups(map[], cursors);
    assert SameReads(a, b);
    forall c | c in cursors && GroupKey(c) in CoalesceGroup(cursors)
      ensures c.readAt <= CoalesceGroup(cursors)[GroupKey(c)].readAt
      ensures ReadId(c.messageId) <= ReadId(CoalesceGroup(cursors)[GroupKey(c)].messageId)
    {
      UpsertGroupsIsMax(map[], cursors, GroupKey(c));
      assert GroupKey(c) in a;
    }
  }

  lemma ExactOnTable(t: Groups, cursors: seq<GroupCursor>)
    requires KeptIsLatest(cursors, CoalesceGroup(cursors))
    ensures SameReads(UpsertGroupMap(t, CoalesceGroup(cursors)), UpsertGroups(t, cursors))
  {
    var latest := CoalesceGroup(cursors);
    var a, b := UpsertGroupMap(t, latest), UpsertGroups(t, cursors);
    forall key
      ensures key in a <==> key in b
      ensures key in a ==>
        && a[key].readAt == b[key].readAt && a[key].readSeq == b[key].readSeq
        && ReadId(a[key].messageId) == ReadId(b[key].messageId)
    {
      CoalesceGroupIsBelowOneByOne(t, cursors, key);
      UpsertGroupsIsMax(t, cursors, key);
      forall c | c in cursors && GroupKey(c) == key
        ensures key in latest && c.readAt <= latest[key].readAt && ReadId(c.messageId) <= ReadId(latest[key].messageId)
      {
        CoalesceGroupKeepsNewest(cursors, c);
      }
    }
  }

  /** Sequence, time and message id of each key's cursors rise together. */
  ghost predicate RiseTogether(cursors: seq<GroupCursor>) {
    forall c, d :: c in cursors && d in cursors && GroupKey(c) == GroupKey(d) && c.readSeq <= d.readSeq ==>
      c.readAt <= d.readAt && ReadId(c.messageId) <= ReadId(d.messageId)
  }

  lemma RisingCursorsCoalesceExactly(cursors: seq<GroupCursor>)
    requires RiseTogether(cursors)
    ensures CoalescesExactly(cursors)
  {
    CoalesceGroupExactIff(cursors);
  }

  /** The batch of the repository's own coalescing test: an older sequence, read a minute later. */
  const OLDER_READ_LATER := [GroupCursor(10, 20, 60, 3, Some(300)), GroupCursor(10, 20, 0, 5, Some(500))]

  /** The later time is lost: coalescing stores 0 where one-by-one application stores 60. */
  lemma CoalescingCanLoseTheLatestTime()
    ensures UpsertGroupMap(map[], CoalesceGroup(OLDER_READ_LATER)) == map[(10, 20) := GroupRow(0, 5, Some(500))]
    ensures UpsertGroups(map[], OLDER_READ_LATER) == map[(10, 20) := GroupRow(60, 5, Some(500))]
    ensures !CoalescesExactly(OLDER_READ_LATER)
  {
    var c1, c2 := OLDER_READ_LATER[0], OLDER_READ_LATER[1];
    assert OLDER_READ_LATER[..1] == [c1];
    assert [c1][..0] == [];
    assert CoalesceGroup([c1]) == map[(10, 20) := c1];
    assert CoalesceGroup(OLDER_READ_LATER) == map[(10, 20) := c2];
    assert UpsertGroups(map[], [c1]) == map[(10, 20) := GroupRowOf(c1)];
    assert UpsertGroups(map[], OLDER_READ_LATER)[(10, 20)].readAt == 60;
    assert UpsertGroupMap(map[], CoalesceGroup(OLDER_READ_LATER))[(10, 20)].readAt == 0;
  }

  /** Storing a cursor a second time changes the row exactly when its message id is zero. */
  lemma ReplayedGroupCursorIff(t: Groups, c: GroupCursor)
    requires GroupKey(c) !in t
    ensures UpsertGroup(UpsertGroup(t, c), c) == UpsertGroup(t, c) <==> c.messageId != Some(0)
  {
  }
}
