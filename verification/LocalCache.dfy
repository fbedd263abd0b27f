/** The process-wide cache (local_cache.rs), proved against the map of the last value set for each key. */
module LocalCache {
  import opened Options

  const POSITIVE_MS := 60_000
  const NEGATIVE_MS := 10_000
  const MAX_ENTRIES := 100_000
  const MAX_LOCKS := 10_000

  /** The keys that matter to the group member lists, told apart from all others. */
  datatype Key = GroupMembers(group: int) | Other(text: string)

  datatype CacheValue =
    | BoolValue(flag: bool)
    | IdValue(id: Option<int>)
    | IdsValue(ids: seq<int>)

  datatype CacheEntry = CacheEntry(expires: int, value: CacheValue)

  /** How long a value is kept: negative answers a sixth as long. */
  function TtlOf(value: CacheValue): int {
    match value
    case BoolValue(flag) => if flag then POSITIVE_MS else NEGATIVE_MS
    case IdValue(id) => if id.Some? then POSITIVE_MS else NEGATIVE_MS
    case IdsValue(_) => POSITIVE_MS
  }

  function Unexpired(entries: map<Key, CacheEntry>, now: int): map<Key, CacheEntry> {
    map key | key in entries && entries[key].expires > now :: entries[key]
  }

  /** What a full cache keeps before it takes one more entry. */
  function MadeRoom(entries: map<Key, CacheEntry>, now: int): (kept: map<Key, CacheEntry>)
    ensures |kept| < MAX_ENTRIES
    ensures forall key :: key in kept ==> key in entries && kept[key] == entries[key]
  {
    if |entries| < MAX_ENTRIES then entries
    else if |Unexpired(entries, now)| < MAX_ENTRIES then Unexpired(entries, now)
    else map[]
  }

  /** An unexpired entry is dropped exactly when there are 100000 of them; an expired one can stay as long as the cache is not full. */
  lemma RoomSpares(entries: map<Key, CacheEntry>, now: int)
    ensures (forall key :: key in entries && entries[key].expires > now ==> key in MadeRoom(entries, now))
      <==> |set key | key in entries && entries[key].expires > now| < 100_000
    ensures MadeRoom(entries, now) == entries <==> |entries| < 100_000
  {
    var live := set key | key in entries && entries[key].expires > now;
    assert live == Unexpired(entries, now).Keys;
    if |entries| < 100_000 {
      FewerLive(live, entries.Keys);
    } else if |live| >= 100_000 {
      var key :| key in live;
      assert key !in MadeRoom(entries, now);
    }
  }

  lemma {:induction false} FewerLive(few: set<Key>, all: set<Key>)
    requires few <= all
    ensures |few| <= |all|
  {
    if few != {} {
      var key :| key in few;
      FewerLive(few - {key}, all - {key});
    }
  }

  /** A set and its instant. */
  datatype Write = Write(at: int, value: CacheValue)

  predicate Lasts(write: Write, now: int) {
    now < write.at + TtlOf(write.value)
  }

  function EntryOf(write: Write): CacheEntry {
    CacheEntry(write.at + TtlOf(write.value), write.value)
  }

  /** Every entry is the last write of its key. */
  ghost predicate EntriesRight(entries: map<Key, CacheEntry>, writes: map<Key, Write>, clock: int) {
    && (forall key :: key in entries ==> key in writes && entries[key] == EntryOf(writes[key]))
    && (forall key :: key in writes ==> writes[key].at <= clock)
  }

  ghost predicate NothingElseLost(entries: map<Key, CacheEntry>, writes: map<Key, Write>, dropped: set<Key>, clock: int) {
    forall key :: key in writes && Lasts(writes[key], clock) && key !in dropped ==> key in entries
  }

  lemma StoreKeepsRight(entries: map<Key, CacheEntry>, writes: map<Key, Write>, dropped: set<Key>, clock: int, key: Key, write: Write)
    requires EntriesRight(entries, writes, clock) && NothingElseLost(entries, writes, dropped, clock) && write.at <= clock
    ensures EntriesRight(entries[key := EntryOf(write)], writes[key := write], clock)
    ensures NothingElseLost(entries[key := EntryOf(write)], writes[key := write], dropped - {key}, clock)
  {
  }

  /** Dropping what has expired, or everything that is left, forgets no live write without saying so. */
  lemma RoomKeepsRight(entries: map<Key, CacheEntry>, writes: map<Key, Write>, dropped: set<Key>, clock: int, now: int)
    requires EntriesRight(entries, writes, clock) && NothingElseLost(entries, writes, dropped, clock) && clock <= now
    ensures EntriesRight(entries, writes, now) && NothingElseLost(entries, writes, dropped, now)
    ensures var kept := Unexpired(entries, now);
      EntriesRight(kept, writes, now) && NothingElseLost(kept, writes, dropped, now)
      && NothingElseLost(map[], writes, dropped + kept.Keys, now)
  {
    var kept := Unexpired(entries, now);
    assert forall key :: key in entries && key !in kept ==> !Lasts(writes[key], now);
  }

  /** The keys lost so far, once room has been made. */
  ghost function DroppedBy(entries: map<Key, CacheEntry>, dropped: set<Key>, now: int): (after: set<Key>)
    ensures |Unexpired(entries, now)| < 100_000 ==> after == dropped
    ensures dropped <= after <= dropped + entries.Keys
  {
    if |entries| < MAX_ENTRIES || |Unexpired(entries, now)| < MAX_ENTRIES then dropped
    else dropped + Unexpired(entries, now).Keys
  }

  lemma MadeRoomKeepsRight(entries: map<Key, CacheEntry>, writes: map<Key, Write>, dropped: set<Key>, clock: int, now: int)
    requires EntriesRight(entries, writes, clock) && NothingElseLost(entries, writes, dropped, clock) && clock <= now
    ensures EntriesRight(MadeRoom(entries, now), writes, now)
    ensures NothingElseLost(MadeRoom(entries, now), writes, DroppedBy(entries, dropped, now), now)
  {
    RoomKeepsRight(entries, writes, dropped, clock, now);
  }

  class Cache {
    var entries: map<Key, CacheEntry>
    var locks: map<Key, nat>
    var nextLock: nat
    /** The last value set for each key; the keys lost to a full cache; the latest instant seen. */
    ghost var writes: map<Key, Write>
    ghost var dropped: set<Key>
    ghost var clock: int

    /** The value last set, while it lasts. */
    ghost predicate LiveWrite(key: Key, now: int)
      reads this
    {
      key in writes && Lasts(writes[key], now)
    }

    ghost predicate Valid()
      reads this
    {
      |entries| <= 100_000 && EntriesRight(entries, writes, clock) && NothingElseLost(entries, writes, dropped, clock) && LocksRight()
    }

    ghost predicate LocksRight()
      reads this
    {
      && |locks| <= 10_000
      && (forall key :: key in locks ==> locks[key] < nextLock)
      && (forall key, other :: key in locks && other in locks && key != other ==> locks[key] != locks[other])
    }

    constructor ()
      ensures Valid() && entries == map[] && locks == map[] && writes == map[] && dropped == {} && clock == 0
    {
      entries, locks, nextLock := map[], map[], 0;
      writes, dropped, clock := map[], {}, 0;
    }

    /** `get_value`: a hit is the value last set, unexpired; a live value is missed only when a full cache was cleared. */
    method GetValue(key: Key, now: int) returns (result: Option<CacheValue>)
      requires Valid() && clock <= now
      modifies `entries, `clock
      ensures Valid() && clock == now
      ensures result.Some? ==> LiveWrite(key, now) && writes[key].value == result.value
      ensures result.None? && LiveWrite(key, now) ==> key in dropped
      ensures result.Some? <==> key in old(entries) && old(entries)[key].expires > now
      ensures result.Some? ==> result.value == old(entries)[key].value
      ensures entries == if key in old(entries) && result.None? then old(entries) - {key} else old(entries)
    {
      clock := now;
      if key !in entries {
        return None;
      }
      var entry := entries[key];
      if entry.expires <= now {
        entries := entries - {key};
        return None;
      }
      result := Some(entry.value);
    }

    /** `set_value`. */
    method SetValue(key: Key, value: CacheValue, ttl: int, now: int)
      requires Valid() && clock <= now && ttl == TtlOf(value)
      modifies `entries, `writes, `dropped, `clock
      ensures Valid() && clock == now
      ensures writes == old(writes)[key := Write(now, value)]
      ensures entries == MadeRoom(old(entries), now)[key := CacheEntry(now + ttl, value)]
      ensures |Unexpired(old(entries), now)| < 100_000 ==> dropped == old(dropped) - {key}
      ensures dropped <= old(dropped) + old(entries).Keys
    {
      MakeRoom(now);
      Store(key, CacheEntry(now + ttl, value), Write(now, value));
    }

    method Retained(now: int) returns (kept: map<Key, CacheEntry>)
      ensures kept == Unexpired(entries, now) && kept.Keys <= entries.Keys
    {
      kept := map k | k in entries && entries[k].expires > now :: entries[k];
      assert kept == Unexpired(entries, now);
    }

    method MakeRoom(now: int)
      requires Valid() && clock <= now
      modifies `entries, `dropped, `clock
      ensures Valid() && clock == now && entries == MadeRoom(old(entries), now)
      ensures dropped == DroppedBy(old(entries), old(dropped), now)
    {
      MadeRoomKeepsRight(entries, writes, dropped, clock, now);
      var kept := entries;
      if |kept| >= MAX_ENTRIES {
        kept := Retained(now);
        if |kept| >= MAX_ENTRIES {
          kept := map[];
        }
      }
      assert kept == MadeRoom(entries, now);
      entries, dropped, clock := kept, DroppedBy(entries, dropped, now), now;
    }

    method Store(key: Key, entry: CacheEntry, ghost write: Write)
      requires Valid() && |entries| < MAX_ENTRIES && write.at <= clock && entry == EntryOf(write)
      modifies `entries, `writes, `dropped
      ensures Valid() && entries == old(entries)[key := entry]
      ensures writes == old(writes)[key := write] && dropped == old(dropped) - {key}
    {
      OneMoreEntry(entries, key, entry);
      StoreKeepsRight(entries, writes, dropped, clock, key, write);
      entries := entries[key := entry];
      writes := writes[key := write];
      dropped := dropped - {key};
    }

    method GetBool(key: Key, now: int) returns (result: Option<bool>)
      requires Valid() && clock <= now
      modifies `entries, `clock
      ensures Valid() && clock == now
      ensures result.Some? ==> key in writes && now < writes[key].at + (if result.value then 60_000 else 10_000)
      ensures result.None? && key in writes && writes[key].value.BoolValue? && now < writes[key].at + (if writes[key].value.flag then 60_000 else 10_000) ==> key in dropped
      ensures result.Some? ==> LiveWrite(key, now) && writes[key].value == BoolValue(result.value)
      ensures result.None? && LiveWrite(key, now) && writes[key].value.BoolValue? ==> key in dropped
    {
      var value := GetValue(key, now);
      result := if value.Some? && value.value.BoolValue? then Some(value.value.flag) else None;
    }

    method SetBool(key: Key, flag: bool, now: int)
      requires Valid() && clock <= now
      modifies `entries, `writes, `dropped, `clock
      ensures Valid() && clock == now
      ensures writes == old(writes)[key := Write(now, BoolValue(flag))]
      ensures entries == MadeRoom(old(entries), now)[key := EntryOf(Write(now, BoolValue(flag)))]
      ensures |Unexpired(old(entries), now)| < 100_000 ==> dropped == old(dropped) - {key}
      ensures dropped <= old(dropped) + old(entries).Keys
    {
      var ttl := if flag then POSITIVE_MS else NEGATIVE_MS;
      SetValue(key, BoolValue(flag), ttl, now);
    }

    method GetIdOption(key: Key, now: int) returns (result: Option<Option<int>>)
      requires Valid() && clock <= now
      modifies `entries, `clock
      ensures Valid() && clock == now
      ensures result.Some? ==> key in writes && now < writes[key].at + (if result.value.Some? then 60_000 else 10_000)
      ensures result.None? && key in writes && writes[key].value.IdValue? && now < writes[key].at + (if writes[key].value.id.Some? then 60_000 else 10_000) ==> key in dropped
      ensures result.Some? ==> LiveWrite(key, now) && writes[key].value == IdValue(result.value)
      ensures result.None? && LiveWrite(key, now) && writes[key].value.IdValue? ==> key in dropped
    {
      var value := GetValue(key, now);
      result := if value.Some? && value.value.IdValue? then Some(value.value.id) else None;
    }

    method SetIdOption(key: Key, id: Option<int>, now: int)
      requires Valid() && clock <= now
      modifies `entries, `writes, `dropped, `clock
      ensures Valid() && clock == now
      ensures writes == old(writes)[key := Write(now, IdValue(id))]
      ensures entries == MadeRoom(old(entries), now)[key := EntryOf(Write(now, IdValue(id)))]
      ensures |Unexpired(old(entries), now)| < 100_000 ==> dropped == old(dropped) - {key}
      ensures dropped <= old(dropped) + old(entries).Keys
    {
      var ttl := if id.Some? then POSITIVE_MS else NEGATIVE_MS;
      SetValue(key, IdValue(id), ttl, now);
    }

    method GetIds(key: Key, now: int) returns (result: Option<seq<int>>)
      requires Valid() && clock <= now
      modifies `entries, `clock
      ensures Valid() && clock == now
      ensures result.Some? ==> key in writes && now < writes[key].at + 60_000
      ensures result.None? && key in writes && writes[key].value.IdsValue? && now < writes[key].at + 60_000 ==> key in dropped
      ensures result.Some? ==> LiveWrite(key, now) && writes[key].value == IdsValue(result.value)
      ensures result.None? && LiveWrite(key, now) && writes[key].value.IdsValue? ==> key in dropped
    {
      var value := GetValue(key, now);
      result := if value.Some? && value.value.IdsValue? then Some(value.value.ids) else None;
    }

    method SetIds(key: Key, ids: seq<int>, now: int)
      requires Valid() && clock <= now
      modifies `entries, `writes, `dropped, `clock
      ensures Valid() && clock == now
      ensures writes == old(writes)[key := Write(now, IdsValue(ids))]
      ensures entries == MadeRoom(old(entries), now)[key := EntryOf(Write(now, IdsValue(ids)))]
      ensures |Unexpired(old(entries), now)| < 100_000 ==> dropped == old(dropped) - {key}
      ensures dropped <= old(dropped) + old(entries).Keys
    {
      SetValue(key, IdsValue(ids), POSITIVE_MS, now);
    }

    /** `key_lock`: callers of a key share its lock until the table is cleared, and no two keys share one. */
    method KeyLock(key: Key) returns (lock: nat)
      requires Valid()
      modifies `locks, `nextLock
      ensures Valid() && key in locks && locks[key] == lock
      ensures key in old(locks) ==> locks == old(locks)
      ensures key !in old(locks) ==> lock == old(nextLock)
      ensures key !in old(locks) ==> locks == (if |old(locks)| >= 10_000 then map[] else old(locks))[key := lock]
    {
      if key in locks {
        return locks[key];
      }
      if |locks| >= MAX_LOCKS {
        locks := map[];
      }
      lock := nextLock;
      OneMoreLock(locks, key, lock);
      locks, nextLock := locks[key := lock], nextLock + 1;
    }
  }

  lemma OneMoreEntry(entries: map<Key, CacheEntry>, key: Key, entry: CacheEntry)
    ensures |entries[key := entry]| <= |entries| + 1
  {
  }

  lemma OneMoreLock(locks: map<Key, nat>, key: Key, lock: nat)
    ensures |locks[key := lock]| <= |locks| + 1
  {
  }
}
