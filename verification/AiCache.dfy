/** internal/aiorganize/service.go: the bounded cache of answers, each kept for a day. */
module AiCache {
  import opened Parts
  import opened AiWorks

  const CACHE_TTL := 24 * 3600
  const MAX_CACHE_ITEMS := 256

  datatype Entry = Entry(result: Item, expiresAt: int)

  /** A call of putCached. */
  datatype Put = Put(key: string, result: Item, at: int)

  function LastPut(puts: seq<Put>, key: string): Option<Put> {
    if puts == [] then None
    else if puts[|puts| - 1].key == key then Some(puts[|puts| - 1])
    else LastPut(puts[..|puts| - 1], key)
  }

  lemma LastPutMore(puts: seq<Put>, p: Put, key: string)
    ensures LastPut(puts + [p], key) == if p.key == key then Some(p) else LastPut(puts, key)
  {
    assert (puts + [p])[..|puts|] == puts;
  }

  predicate Expired(e: Entry, now: int) {
    now > e.expiresAt
  }

  /** What putCached drops: below the limit nothing; at the limit the expired entries; when none was expired,
      any one entry. */
  ghost predicate MadeRoom(before: map<string, Entry>, after: map<string, Entry>, now: int) {
    if |before| < 256 then after == before
    else if Unexpired(before, now) != before then after == Unexpired(before, now)
    else exists key :: key in before && after == before - {key}
  }

  ghost predicate Replaced(before: map<string, Entry>, after: map<string, Entry>, key: string, e: Entry, now: int) {
    exists kept: map<string, Entry> :: MadeRoom(before, kept, now) && after == kept[key := e]
  }

  class Cache {
    var entries: map<string, Entry>
    ghost var puts: seq<Put>

    /** Within the limit, and every entry is what was last put under its key. */
    ghost predicate Valid()
      reads this
    {
      |entries| <= 256 && AsLastPut(entries, puts)
    }

    constructor ()
      ensures Valid() && puts == [] && entries == map[]
    {
      entries, puts := map[], [];
    }

    /** getCached: a hit is what was last put under the key, no longer than a day ago; a miss forgets it. */
    method GetCached(key: string, now: int) returns (r: Option<Item>)
      requires Valid()
      modifies this`entries
      ensures Valid()
      ensures r.Some? <==> key in old(entries) && !Expired(old(entries)[key], now)
      ensures r.Some? ==> entries == old(entries) && r.value == entries[key].result && HitOf(puts, key, now, r.value)
      ensures r.None? ==> entries == old(entries) - {key}
    {
      if key !in entries || Expired(entries[key], now) {
        CardinalityMinus(entries, key);
        entries := entries - {key};
        return None;
      }
      r := Some(entries[key].result);
    }

    /** putCached: afterwards the key holds the result, and what had to go to make room is gone. */
    method PutCached(key: string, result: Item, now: int)
      requires Valid()
      modifies this
      ensures Valid() && puts == old(puts) + [Put(key, result, now)]
      ensures Replaced(old(entries), entries, key, Entry(result, now + CACHE_TTL), now)
    {
      hide AsLastPut, MadeRoom, Unexpired;
      ghost var before := entries;
      if |entries| >= MAX_CACHE_ITEMS {
        DropExpired(now);
      }
      NothingLost(before, now);
      if |entries| >= MAX_CACHE_ITEMS {
        assert entries.Keys != {} by { SomeKey(entries); }
        var oldKey :| oldKey in entries.Keys;
        OneLost(before, oldKey, now);
        entries := entries - {oldKey};
      }
      ghost var kept := entries;
      AsLastPutMore(before, kept, puts, key, result, now);
      RoomLeft(before, kept, now);
      CardinalityPlus(kept, key, Entry(result, now + CACHE_TTL));
      entries := entries[key := Entry(result, now + CACHE_TTL)];
      puts := puts + [Put(key, result, now)];
    }

    method DropExpired(now: int)
      modifies this`entries
      ensures entries == Unexpired(old(entries), now)
    {
      ghost var before := entries;
      var keys := entries.Keys;
      while keys != {}
        invariant keys <= before.Keys
        invariant entries == map k | k in before && (k in keys || !Expired(before[k], now)) :: before[k]
        decreases keys
      {
        var oldKey :| oldKey in keys;
        if Expired(entries[oldKey], now) {
          entries := entries - {oldKey};
        }
        keys := keys - {oldKey};
      }
    }
  }

  ghost predicate AsLastPut(entries: map<string, Entry>, puts: seq<Put>) {
    forall key :: key in entries ==>
      var p := LastPut(puts, key);
      p.Some? && entries[key] == Entry(p.value.result, p.value.at + CACHE_TTL)
  }

  ghost predicate HitOf(puts: seq<Put>, key: string, now: int, result: Item) {
    var p := LastPut(puts, key);
    p.Some? && result == p.value.result && now <= p.value.at + 24 * 3600
  }

  function Unexpired(entries: map<string, Entry>, now: int): map<string, Entry> {
    map k | k in entries && !Expired(entries[k], now) :: entries[k]
  }

  lemma AsLastPutMore(before: map<string, Entry>, kept: map<string, Entry>, puts: seq<Put>, key: string, result: Item, now: int)
    requires AsLastPut(before, puts) && MadeRoom(before, kept, now)
    ensures AsLastPut(kept[key := Entry(result, now + CACHE_TTL)], puts + [Put(key, result, now)])
  {
    forall k: string
      ensures LastPut(puts + [Put(key, result, now)], k)
        == if k == key then Some(Put(key, result, now)) else LastPut(puts, k)
    {
      LastPutMore(puts, Put(key, result, now), k);
    }
  }

  lemma RoomLeft(before: map<string, Entry>, kept: map<string, Entry>, now: int)
    requires |before| <= MAX_CACHE_ITEMS && MadeRoom(before, kept, now)
    ensures |kept| < MAX_CACHE_ITEMS
  {
    if |before| >= MAX_CACHE_ITEMS {
      var left := Unexpired(before, now);
      if left != before {
        SomeExpired(before, now);
      } else {
        var key :| key in before && kept == before - {key};
        CardinalityMinus(before, key);
      }
    }
  }

  lemma SomeExpired(before: map<string, Entry>, now: int)
    ensures Unexpired(before, now) != before ==> |Unexpired(before, now)| < |before|
  {
    var left := Unexpired(before, now);
    if left != before {
      var key :| key in before && key !in left;
      SmallerKeys(before - {key}, left);
      CardinalityMinus(before, key);
    }
  }

  lemma NothingLost(before: map<string, Entry>, now: int)
    requires |before| <= MAX_CACHE_ITEMS
    ensures |before| < MAX_CACHE_ITEMS ==> MadeRoom(before, before, now)
    ensures var left := Unexpired(before, now);
      |before| >= MAX_CACHE_ITEMS && |left| < MAX_CACHE_ITEMS ==> MadeRoom(before, left, now)
  {
  }

  lemma OneLost(before: map<string, Entry>, key: string, now: int)
    requires |before| <= MAX_CACHE_ITEMS && key in Unexpired(before, now)
    requires |before| >= MAX_CACHE_ITEMS && |Unexpired(before, now)| >= MAX_CACHE_ITEMS
    ensures MadeRoom(before, Unexpired(before, now) - {key}, now)
  {
    SomeExpired(before, now);
  }

  lemma SmallerKeys<V>(m: map<string, V>, k: map<string, V>)
    requires k.Keys <= m.Keys
    ensures |k| <= |m|
  {
    SmallerSet(k.Keys, m.Keys);
    assert |k.Keys| == |k| && |m.Keys| == |m|;
  }

  lemma {:induction false} SmallerSet<T>(a: set<T>, b: set<T>)
    requires a <= b
    ensures |a| <= |b|
  {
    if a != {} {
      var x :| x in a;
      SmallerSet(a - {x}, b - {x});
    }
  }

  lemma CardinalityMinus<V>(m: map<string, V>, key: string)
    ensures |m - {key}| == if key in m then |m| - 1 else |m|
  {
    assert (m - {key}).Keys == m.Keys - {key};
    assert |(m - {key}).Keys| == |m - {key}| && |m.Keys| == |m|;
  }

  lemma CardinalityPlus<V>(m: map<string, V>, key: string, v: V)
    ensures |m[key := v]| <= |m| + 1
  {
    assert m[key := v].Keys == m.Keys + {key};
    assert |m[key := v].Keys| == |m[key := v]| && |m.Keys| == |m|;
  }

  lemma SomeKey<V>(m: map<string, V>)
    requires |m| > 0
    ensures m.Keys != {}
  {
    assert |m.Keys| == |m|;
  }
}
