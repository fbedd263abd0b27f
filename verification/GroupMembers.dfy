/**
 Group member lists through two caches (push_dispatcher.rs): the process's own, then Redis, then the
 database. Whoever writes either cache does so at most `lag` after the read it got the list from.
 */
module GroupMembers {
  import opened Options
  import opened LocalCache
  import Fanout
  import PushDispatcher

  const REDIS_MS := 300_000

  /** A row of `im_group_member`; status 1 is an active member. */
  datatype Row = Row(user: int, status: int)

  /** What the rows of each group are at each instant, whatever is done with what is read of them. */
  type Database = (int, int) -> seq<Row>

  /** `WHERE group_id = ? AND status = 1`, in the order of the table. */
  function ActiveUsers(rows: seq<Row>): seq<int> {
    if rows == [] then []
    else
      var n := |rows| - 1;
      ActiveUsers(rows[..n]) + if rows[n].status == 1 then [rows[n].user] else []
  }

  function MembersOf(rows: seq<Row>): seq<int> {
    Fanout.Distinct(Fanout.Somes(ActiveUsers(rows)))
  }

  lemma {:induction false} ActiveUsersAre(rows: seq<Row>, user: int)
    ensures user in ActiveUsers(rows) <==> exists row :: row in rows && row.status == 1 && row.user == user
  {
    if rows != [] {
      var n := |rows| - 1;
      ActiveUsersAre(rows[..n], user);
      assert rows == rows[..n] + [rows[n]];
    }
  }

  /** The members are the users with an active row, each once. */
  lemma MembersAreActiveOnce(rows: seq<Row>)
    ensures forall user :: user in MembersOf(rows) <==> exists row :: row in rows && row.status == 1 && row.user == user
    ensures forall i, j :: 0 <= i < j < |MembersOf(rows)| ==> MembersOf(rows)[i] != MembersOf(rows)[j]
  {
    var active := ActiveUsers(rows);
    Fanout.DistinctHasAll(Fanout.Somes(active));
    forall user
      ensures user in MembersOf(rows) <==> exists row :: row in rows && row.status == 1 && row.user == user
    {
      ActiveUsersAre(rows, user);
      assert Some(user) in Fanout.Somes(active) <==> user in active by {
        assert forall k :: 0 <= k < |active| ==> Fanout.Somes(active)[k] == Some(active[k]);
      }
    }
  }

  /** The list was the database's at some instant of the interval. */
  ghost predicate HeldBetween(database: Database, group: int, members: seq<int>, from: int, to: int) {
    exists at :: from <= at <= to && members == MembersOf(database(group, at))
  }

  datatype Shared = Shared(members: seq<int>, expires: int)

  class MemberLists {
    const database: Database
    const local: Cache
    const lag: nat
    var redis: map<int, Shared>
    /** The latest instant so far. */
    ghost var clock: int

    /** What is cached in either place will have been evicted by the time it is too old. */
    ghost predicate Valid()
      reads this, local
    {
      && local.Valid() && local.clock <= clock
      && (forall group :: group in redis ==> SharedRight(group, redis[group]))
      && (forall group :: GroupMembers(group) in local.writes ==> LocalRight(group, local.writes[GroupMembers(group)]))
    }

    ghost predicate SharedRight(group: int, entry: Shared)
      reads this
    {
      var written := entry.expires - REDIS_MS;
      written <= clock && HeldBetween(database, group, entry.members, written - lag, written)
    }

    ghost predicate LocalRight(group: int, write: Write) {
      write.value.IdsValue? && HeldBetween(database, group, write.value.ids, write.at - REDIS_MS - 2 * lag, write.at)
    }

    constructor (database: Database, lag: nat)
      ensures Valid() && fresh(local) && this.database == database && this.lag == lag && redis == map[]
    {
      this.database := database;
      local := new Cache();
      this.lag := lag;
      redis := map[];
      clock := 0;
    }

    method SetLocal(group: int, members: seq<int>, now: int)
      requires Valid() && clock <= now
      requires HeldBetween(database, group, members, now - REDIS_MS - 2 * lag, now)
      modifies `clock, local
      ensures Valid() && clock == now
    {
      clock := now;
      local.SetIds(GroupMembers(group), members, now);
    }

    method SetShared(group: int, members: seq<int>, now: int)
      requires Valid() && clock <= now && HeldBetween(database, group, members, now - lag, now)
      modifies `redis, `clock
      ensures Valid() && clock == now && redis == old(redis)[group := Shared(members, now + 300_000)]
    {
      clock := now;
      redis := redis[group := Shared(members, now + REDIS_MS)];
    }

    /**
     Other tasks and processes in the same code: lists read from the database a little earlier come into
     either cache, lists read from Redis a little earlier into the local one.
     */
    method Others(now: int, end: int) returns (later: int)
      requires Valid() && clock <= now <= end
      modifies this, local
      ensures Valid() && now <= later <= end && clock <= later
    {
      later := now;
      var steps :| 0 <= steps;
      for i := 0 to steps
        invariant Valid() && now <= later <= end && clock <= later
      {
        var next :| later <= next <= end;
        later := next;
        var group: int, intoRedis: bool, fromRedis: bool := *, *, *;
        var age :| 0 <= age;
        var members := MembersOf(database(group, later - age));
        if intoRedis && age <= lag {
          SetShared(group, members, later);
        } else if age <= (if fromRedis then REDIS_MS + 2 * lag else lag) {
          SetLocal(group, members, later);
        }
      }
    }

    /** `load_group_members`: the active members, each once, unless the database cannot be reached. */
    method LoadGroupMembers(group: int, reached: bool, now: int) returns (members: Option<seq<int>>)
      ensures members.Some? <==> reached
      ensures members.Some? ==> members.value == MembersOf(database(group, now))
      ensures members.Some? ==>
        forall user :: user in members.value <==> exists row :: row in database(group, now) && row.status == 1 && row.user == user
      ensures members.Some? ==> forall i, j :: 0 <= i < j < |members.value| ==> members.value[i] != members.value[j]
    {
      if !reached {
        return None;
      }
      var rows := ActiveUsers(database(group, now));
      var distinct := PushDispatcher.DistinctValues(Fanout.Somes(rows));
      MembersAreActiveOnce(database(group, now));
      members := Some(distinct);
    }

    method ReadShared(group: int, now: int) returns (members: Option<seq<int>>)
      requires Valid() && clock <= now
      ensures members.Some? ==> HeldBetween(database, group, members.value, now - REDIS_MS - lag, now)
    {
      var reached: bool := *;
      members := None;
      if reached && group in redis && now < redis[group].expires {
        members := Some(redis[group].members);
      }
    }

    /** Time passes, at most `lag`, between a read and the write of what was read. */
    method Soon(now: int) returns (later: int)
      ensures now <= later <= now + lag
    {
      later :| now <= later <= now + lag;
    }

    /**
     `load_group_members_cached`: the list it returns was the database's at most 60 s and 300 s, and twice the
     lag, before the instant at which it was last read, whichever of the three places answered. That instant is
     within the call, which lasts from `now` to `end`. Only a database that cannot be reached leaves it without one.
     */
    method LoadGroupMembersCached(group: int, reached: bool, now: int, end: int) returns (members: Option<seq<int>>, served: int)
      requires Valid() && clock <= now <= end
      modifies this, local
      ensures Valid() && now <= served <= end && clock <= served + lag
      ensures members.None? ==> !reached
      ensures members.Some? ==> HeldBetween(database, group, members.value, served - 360_000 - 2 * lag, served)
    {
      served := now;
      members := LookLocal(group, served);
      if members.Some? {
        return;
      }
      served := Others(served, end);
      members := LookLocal(group, served);
      if members.Some? {
        return;
      }
      members := FromRedis(group, served);
      if members.Some? {
        return;
      }
      served := Others(served, end);
      members := FromDatabase(group, reached, served);
    }

    method LookLocal(group: int, now: int) returns (members: Option<seq<int>>)
      requires Valid() && clock <= now
      modifies `clock, local
      ensures Valid() && clock == now
      ensures members.Some? ==> HeldBetween(database, group, members.value, now - POSITIVE_MS - REDIS_MS - 2 * lag, now)
    {
      clock := now;
      members := local.GetIds(GroupMembers(group), now);
      if members.Some? {
        assert LocalRight(group, local.writes[GroupMembers(group)]);
      }
    }

    method FromRedis(group: int, now: int) returns (members: Option<seq<int>>)
      requires Valid() && clock <= now
      modifies `clock, local
      ensures Valid() && clock <= now + lag
      ensures members.None? ==> clock <= now
      ensures members.Some? ==> HeldBetween(database, group, members.value, now - REDIS_MS - lag, now)
    {
      members := ReadShared(group, now);
      if members.Some? {
        var later := Soon(now);
        SetLocal(group, members.value, later);
      }
    }

    method FromDatabase(group: int, reached: bool, now: int) returns (members: Option<seq<int>>)
      requires Valid() && clock <= now
      modifies this, local
      ensures Valid() && clock <= now + lag
      ensures members.Some? <==> reached
      ensures members.Some? ==> members.value == MembersOf(database(group, now))
    {
      members := LoadGroupMembers(group, reached, now);
      if members.Some? {
        var later := Soon(now);
        assert HeldBetween(database, group, members.value, later - lag, later);
        SetLocal(group, members.value, later);
        var stored: bool := *;
        if stored {
          SetShared(group, members.value, later);
        }
      }
    }
  }
}
