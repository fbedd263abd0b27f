/**
 The loops of background_writer/background_db.rs: coalescing through a hash map, and the chunked
 insert statements of one transaction.
 */
module WriterTransaction {
  import opened Options
  import opened Events
  import opened BackgroundDb

  /** `max_rows_per_statement`: the most rows whose placeholders fit one statement, and never none. */
  function MaxRowsPerStatement(bindsPerRow: nat): (rows: nat)
    requires bindsPerRow > 0
    ensures rows >= 1
    ensures bindsPerRow <= MYSQL_BIND_LIMIT ==>
      rows * bindsPerRow <= MYSQL_BIND_LIMIT < (rows + 1) * bindsPerRow
  {
    var rows := MYSQL_BIND_LIMIT / bindsPerRow;
    if rows >= 1 then rows else 1
  }

  lemma CoalescePrivateNext(cursors: seq<PrivateCursor>, i: nat)
    requires i < |cursors|
    ensures var latest, c := CoalescePrivate(cursors[..i]), cursors[i];
      CoalescePrivate(cursors[..i + 1])
      == if PrivateKey(c) in latest && c.readAt <= latest[PrivateKey(c)].readAt then latest else latest[PrivateKey(c) := c]
  {
    var longer := cursors[..i + 1];
    assert longer[..|longer| - 1] == cursors[..i] && longer[|longer| - 1] == cursors[i];
  }

  lemma CoalesceGroupNext(cursors: seq<GroupCursor>, i: nat)
    requires i < |cursors|
    ensures var latest, c := CoalesceGroup(cursors[..i]), cursors[i];
      CoalesceGroup(cursors[..i + 1])
      == if GroupKey(c) in latest && !IsNewer(c, latest[GroupKey(c)]) then latest else latest[GroupKey(c) := c]
  {
    var longer := cursors[..i + 1];
    assert longer[..|longer| - 1] == cursors[..i] && longer[|longer| - 1] == cursors[i];
  }

  /** One cursor for each key, in the hash map's own order. */
  method CoalescePrivateReadCursors(cursors: seq<PrivateCursor>) returns (out: seq<PrivateCursor>)
    ensures ListsPrivate(out, CoalescePrivate(cursors))
  {
    var latest: map<(int, int), PrivateCursor> := map[];
    for i := 0 to |cursors|
      invariant latest == CoalescePrivate(cursors[..i])
    {
      CoalescePrivateNext(cursors, i);
      var c := cursors[i];
      var key := (c.user, c.peer);
      if key in latest {
        if c.readAt > latest[key].readAt {
          latest := latest[key := c];
        }
      } else {
        latest := latest[key := c];
      }
    }
    assert cursors[..|cursors|] == cursors;
    out := ListPrivate(latest);
  }

  /** `into_values` of the hash map: each value once, in no particular order. */
  method ListPrivate(latest: map<(int, int), PrivateCursor>) returns (out: seq<PrivateCursor>)
    requires forall key :: key in latest ==> PrivateKey(latest[key]) == key
    ensures ListsPrivate(out, latest)
  {
    out := [];
    var left := latest.Keys;
    while left != {}
      invariant left <= latest.Keys
      invariant forall i, j :: 0 <= i < j < |out| ==> PrivateKey(out[i]) != PrivateKey(out[j])
      invariant forall i :: 0 <= i < |out| ==>
        PrivateKey(out[i]) in latest && PrivateKey(out[i]) !in left && latest[PrivateKey(out[i])] == out[i]
      invariant forall key :: key in latest && key !in left ==> latest[key] in out
      decreases |left|
    {
      var key :| key in left;
      left := left - {key};
      out := out + [latest[key]];
    }
  }

  method CoalesceGroupReadCursors(cursors: seq<GroupCursor>) returns (out: seq<GroupCursor>)
    ensures ListsGroup(out, CoalesceGroup(cursors))
  {
    var latest: map<(int, int), GroupCursor> := map[];
    for i := 0 to |cursors|
      invariant latest == CoalesceGroup(cursors[..i])
    {
      CoalesceGroupNext(cursors, i);
      var c := cursors[i];
      var key := (c.group, c.user);
      if key in latest {
        if IsNewer(c, latest[key]) {
          latest := latest[key := c];
        }
      } else {
        latest := latest[key := c];
      }
    }
    assert cursors[..|cursors|] == cursors;
    out := ListGroup(latest);
  }

  /** `into_values` of the hash map: each value once, in no particular order. */
  method ListGroup(latest: map<(int, int), GroupCursor>) returns (out: seq<GroupCursor>)
    requires forall key :: key in latest ==> GroupKey(latest[key]) == key
    ensures ListsGroup(out, latest)
  {
    out := [];
    var left := latest.Keys;
    while left != {}
      invariant left <= latest.Keys
      invariant forall i, j :: 0 <= i < j < |out| ==> GroupKey(out[i]) != GroupKey(out[j])
      invariant forall i :: 0 <= i < |out| ==>
        GroupKey(out[i]) in latest && GroupKey(out[i]) !in left && latest[GroupKey(out[i])] == out[i]
      invariant forall key :: key in latest && key !in left ==> latest[key] in out
      decreases |left|
    {
      var key :| key in left;
      left := left - {key};
      out := out + [latest[key]];
    }
  }

  lemma {:induction false} InsertMessagesInTwo(t: Messages, a: seq<Message>, b: seq<Message>)
    ensures InsertMessages(InsertMessages(t, a), b) == InsertMessages(t, a + b)
  {
    if b == [] {
      assert a + b == a;
    } else {
      var n := |b| - 1;
      InsertMessagesInTwo(t, a, b[..n]);
      assert (a + b)[..|a + b| - 1] == a + b[..n];
    }
  }

  lemma {:induction false} UpsertPrivatesInTwo(t: Privates, a: seq<PrivateCursor>, b: seq<PrivateCursor>)
    ensures UpsertPrivates(UpsertPrivates(t, a), b) == UpsertPrivates(t, a + b)
  {
    if b == [] {
      assert a + b == a;
    } else {
      var n := |b| - 1;
      UpsertPrivatesInTwo(t, a, b[..n]);
      assert (a + b)[..|a + b| - 1] == a + b[..n];
    }
  }

  lemma {:induction false} UpsertGroupsInTwo(t: Groups, a: seq<GroupCursor>, b: seq<GroupCursor>)
    ensures UpsertGroups(UpsertGroups(t, a), b) == UpsertGroups(t, a + b)
  {
    if b == [] {
      assert a + b == a;
    } else {
      var n := |b| - 1;
      UpsertGroupsInTwo(t, a, b[..n]);
      assert (a + b)[..|a + b| - 1] == a + b[..n];
    }
  }

  /** Every statement added binds some values, no more than 60000 of them, and as many unless it is the last. */
  ghost predicate WithinLimit(before: seq<nat>, after: seq<nat>) {
    && before <= after
    && forall k :: |before| <= k < |after| ==> 0 < after[k] <= 60_000 && (k < |after| - 1 ==> after[k] == 60_000)
  }

  ghost predicate AllFull(before: seq<nat>, after: seq<nat>) {
    before <= after && forall k :: |before| <= k < |after| ==> after[k] == 60_000
  }

  /** The uncommitted tables of one transaction. */
  class Transaction {
    var tables: Tables
    /** How many values each statement has bound: 25 for a message, 6 for a private cursor, 8 for a group cursor. */
    ghost var bound: seq<nat>

    constructor (tables: Tables)
      ensures this.tables == tables
    {
      this.tables := tables;
    }

    /** One statement, over a chunk of the rows. */
    method InsertStatement(records: seq<Message>, from: nat, to: nat)
      requires from < to <= |records| && to - from <= MaxRowsPerStatement(MESSAGE_INSERT_BINDS)
      modifies this
      ensures tables == old(tables).(messages := InsertMessages(old(tables).messages, records[from..to]))
      ensures bound == old(bound) + [(to - from) * 25]
    {
      ghost var before := bound;
      for k := from to to
        invariant tables == old(tables).(messages := InsertMessages(old(tables).messages, records[from..k]))
        invariant bound == before
      {
        assert records[from..k + 1][..k - from] == records[from..k];
        tables := tables.(messages := InsertMessage(tables.messages, records[k]));
      }
      bound := bound + [(to - from) * 25];
    }

    /** `insert_messages`: rows whose id is invalid are dropped, the rest go out in chunks. */
    method InsertMessageRows(messages: seq<Message>)
      modifies this
      ensures tables == old(tables).(messages := InsertMessages(old(tables).messages, messages))
      ensures WithinLimit(old(bound), bound)
    {
      var records := StorableOnly(messages);
      InsertStorableOnly(tables.messages, messages);
      var rows := MaxRowsPerStatement(MESSAGE_INSERT_BINDS);
      var done := 0;
      while done < |records|
        invariant done <= |records| && WithinLimit(old(bound), bound) && (done < |records| ==> AllFull(old(bound), bound))
        invariant tables == old(tables).(messages := InsertMessages(old(tables).messages, records[..done]))
      {
        var end := if done + rows < |records| then done + rows else |records|;
        InsertStatement(records, done, end);
        InsertMessagesInTwo(old(tables).messages, records[..done], records[done..end]);
        assert records[..done] + records[done..end] == records[..end];
        done := end;
      }
      assert records[..|records|] == records;
    }

    /** One statement, over a chunk of the rows. */
    method PrivateStatement(cursors: seq<PrivateCursor>, from: nat, to: nat)
      requires from < to <= |cursors| && to - from <= MaxRowsPerStatement(PRIVATE_READ_CURSOR_INSERT_BINDS)
      modifies this
      ensures tables == old(tables).(privates := UpsertPrivates(old(tables).privates, cursors[from..to]))
      ensures bound == old(bound) + [(to - from) * 6]
    {
      ghost var before := bound;
      for k := from to to
        invariant tables == old(tables).(privates := UpsertPrivates(old(tables).privates, cursors[from..k]))
        invariant bound == before
      {
        assert cursors[from..k + 1][..k - from] == cursors[from..k];
        tables := tables.(privates := UpsertPrivate(tables.privates, cursors[k]));
      }
      bound := bound + [(to - from) * 6];
    }

    method UpsertPrivateReadCursors(cursors: seq<PrivateCursor>)
      modifies this
      ensures tables == old(tables).(privates := UpsertPrivates(old(tables).privates, cursors))
      ensures WithinLimit(old(bound), bound)
    {
      var rows := MaxRowsPerStatement(PRIVATE_READ_CURSOR_INSERT_BINDS);
      var done := 0;
      while done < |cursors|
        invariant done <= |cursors| && WithinLimit(old(bound), bound) && (done < |cursors| ==> AllFull(old(bound), bound))
        invariant tables == old(tables).(privates := UpsertPrivates(old(tables).privates, cursors[..done]))
      {
        var end := if done + rows < |cursors| then done + rows else |cursors|;
        PrivateStatement(cursors, done, end);
        UpsertPrivatesInTwo(old(tables).privates, cursors[..done], cursors[done..end]);
        assert cursors[..done] + cursors[done..end] == cursors[..end];
        done := end;
      }
      assert cursors[..|cursors|] == cursors;
    }

    /** One statement, over a chunk of the rows. */
    method GroupStatement(cursors: seq<GroupCursor>, from: nat, to: nat)
      requires from < to <= |cursors| && to - from <= MaxRowsPerStatement(GROUP_READ_CURSOR_INSERT_BINDS)
      modifies this
      ensures tables == old(tables).(groups := UpsertGroups(old(tables).groups, cursors[from..to]))
      ensures bound == old(bound) + [(to - from) * 8]
    {
      ghost var before := bound;
      for k := from to to
        invariant tables == old(tables).(groups := UpsertGroups(old(tables).groups, cursors[from..k]))
        invariant bound == before
      {
        assert cursors[from..k + 1][..k - from] == cursors[from..k];
        tables := tables.(groups := UpsertGroup(tables.groups, cursors[k]));
      }
      bound := bound + [(to - from) * 8];
    }

    method UpsertGroupReadCursors(cursors: seq<GroupCursor>)
      modifies this
      ensures tables == old(tables).(groups := UpsertGroups(old(tables).groups, cursors))
      ensures WithinLimit(old(bound), bound)
    {
      var rows := MaxRowsPerStatement(GROUP_READ_CURSOR_INSERT_BINDS);
      var done := 0;
      while done < |cursors|
        invariant done <= |cursors| && WithinLimit(old(bound), bound) && (done < |cursors| ==> AllFull(old(bound), bound))
        invariant tables == old(tables).(groups := UpsertGroups(old(tables).groups, cursors[..done]))
      {
        var end := if done + rows < |cursors| then done + rows else |cursors|;
        GroupStatement(cursors, done, end);
        UpsertGroupsInTwo(old(tables).groups, cursors[..done], cursors[done..end]);
        assert cursors[..done] + cursors[done..end] == cursors[..end];
        done := end;
      }
      assert cursors[..|cursors|] == cursors;
    }
  }
}
