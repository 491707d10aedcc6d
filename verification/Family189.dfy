/** drivers/189Cloud/family.go: the bounded item cache and the search through the directory graph. */
module Family189 {
  import opened Parts
  import opened Sorted

  const CACHE_LIMIT := 4096

  datatype Item = Item(id: string, isDir: bool, info: string)

  /** A call on the cache. */
  datatype Call = Remember(items: seq<Item>) | Forget(ids: seq<string>)

  /** What the calls say about an id, ignoring eviction: the item last remembered for it and not forgotten
      since. */
  function LastSaid(calls: seq<Call>, id: string): Option<Item> {
    if calls == [] then None else
      var before := LastSaid(calls[..|calls| - 1], id);
      match calls[|calls| - 1]
      case Remember(items) => LastIn(items, id, before)
      case Forget(ids) => if id in ids then None else before
  }

  function LastIn(items: seq<Item>, id: string, before: Option<Item>): Option<Item> {
    if items == [] then before else
      var last := items[|items| - 1];
      if last.id == id && id != "" then Some(last) else LastIn(items[..|items| - 1], id, before)
  }

  class Cache {
    var itemCache: map<string, Item>
    var itemOrder: seq<string>
    ghost var calls: seq<Call>

    /** Every cached id is in the order list, which may hold stale and repeated ids; the list is within the
        limit; and a cached item is the one last said. */
    ghost predicate Valid()
      reads this
    {
      && Consistent(itemCache, itemOrder)
      && |itemOrder| <= CACHE_LIMIT
      && forall id :: id in itemCache ==> LastSaid(calls, id) == Some(itemCache[id])
    }

    constructor ()
      ensures Valid() && calls == [] && itemCache == map[] && itemOrder == []
    {
      itemCache, itemOrder, calls := map[], [], [];
    }

    /** The first loop of rememberItems: store each item, and append the ids that were not cached. */
    method Store(items: seq<Item>)
      requires Consistent(itemCache, itemOrder)
      modifies this`itemCache, this`itemOrder
      ensures Consistent(itemCache, itemOrder)
      ensures itemCache.Keys == old(itemCache).Keys + Named(items)
      ensures itemOrder == old(itemOrder) + Appended(old(itemCache), items)
      ensures forall id :: id in itemCache ==> itemCache[id] == Latest(items, id, old(itemCache))
    {
      hide Consistent, Named, Appended;
      NothingStored(itemCache, itemOrder, items);
      for k := 0 to |items|
        invariant Consistent(itemCache, itemOrder)
        invariant itemCache.Keys == old(itemCache).Keys + Named(items[..k])
        invariant itemOrder == old(itemOrder) + Appended(old(itemCache), items[..k])
        invariant forall id :: id in itemCache ==> itemCache[id] == Latest(items[..k], id, old(itemCache))
      {
        var item := items[k];
        StoreOne(old(itemCache), old(itemOrder), items, k, itemCache, itemOrder);
        if item.id != "" {
          if item.id !in itemCache {
            itemOrder := itemOrder + [item.id];
          }
          itemCache := itemCache[item.id := item];
        }
      }
      assert items[..|items|] == items;
    }

    /** The second loop of rememberItems: drop the oldest ids while there are too many. */
    method Evict() returns (ghost evicted: seq<string>)
      requires Consistent(itemCache, itemOrder)
      modifies this`itemCache, this`itemOrder
      ensures Consistent(itemCache, itemOrder)
      ensures Evicts(old(itemOrder), itemOrder, evicted)
      ensures itemCache == old(itemCache) - SetOf(evicted)
    {
      hide Consistent;
      evicted := [];
      assert old(itemOrder) == [] + old(itemOrder);
      assert old(itemCache) - SetOf([]) == old(itemCache);
      while |itemOrder| > CACHE_LIMIT
        invariant Consistent(itemCache, itemOrder)
        invariant old(itemOrder) == evicted + itemOrder
        invariant itemCache == old(itemCache) - SetOf(evicted)
        invariant evicted == [] || |itemOrder| >= CACHE_LIMIT
      {
        EvictOne(old(itemCache), itemCache, itemOrder, evicted);
        evicted := evicted + [itemOrder[0]];
        itemCache := itemCache - {itemOrder[0]};
        itemOrder := itemOrder[1..];
      }
    }

    /** rememberItems */
    method RememberItems(items: seq<Item>) returns (ghost evicted: seq<string>)
      requires Valid()
      modifies this
      ensures Valid() && calls == old(calls) + [Remember(items)]
      ensures |itemCache| <= CACHE_LIMIT
      ensures Evicts(old(itemOrder) + Appended(old(itemCache), items), itemOrder, evicted)
      ensures itemCache.Keys == old(itemCache).Keys + Named(items) - SetOf(evicted)
      ensures forall id :: id in itemCache <==> Survives(old(itemCache), old(itemOrder), items, id)
      ensures NewestKept(old(itemCache), items, itemCache)
    {
      hide Consistent, Appended, Named, Latest;
      Store(items);
      ghost var stored := itemCache;
      evicted := Evict();
      KeysWithin(itemCache, itemOrder);
      calls := calls + [Remember(items)];
      assert calls[..|calls| - 1] == old(calls);
      EvictsDropped(old(itemOrder) + Appended(old(itemCache), items), itemOrder, evicted);
      LatestIsLast(items, old(itemCache), old(calls), itemCache);
      LatestIsNewest(items, old(itemCache), itemCache);
    }

    /** forgetItems: the order list keeps the ids. */
    method ForgetItems(ids: seq<string>)
      requires Valid()
      modifies this
      ensures Valid() && calls == old(calls) + [Forget(ids)]
      ensures itemOrder == old(itemOrder) && itemCache == old(itemCache) - SetOf(ids)
    {
      ghost var before := itemCache;
      assert before - SetOf(ids[..0]) == before;
      for k := 0 to |ids|
        invariant itemOrder == old(itemOrder) && calls == old(calls) && itemCache == before - SetOf(ids[..k])
      {
        assert SetOf(ids[..k + 1]) == SetOf(ids[..k]) + {ids[k]};
        itemCache := itemCache - {ids[k]};
      }
      assert ids[..|ids|] == ids;
      calls := calls + [Forget(ids)];
      assert calls[..|calls| - 1] == old(calls);
    }

    /** cachedItem: a hit is the item last remembered for the id and not forgotten since. */
    method CachedItem(id: string) returns (r: Option<Item>)
      requires Valid()
      ensures r == if id in itemCache then Some(itemCache[id]) else None
      ensures r.Some? ==> r == LastSaid(calls, id)
    {
      r := if id in itemCache then Some(itemCache[id]) else None;
    }
  }

  ghost predicate Consistent(cache: map<string, Item>, order: seq<string>) {
    forall id :: id in cache ==> id in order
  }

  /** The ids that items name. */
  function Named(items: seq<Item>): (s: set<string>)
  {
    set item | item in items && item.id != "" :: item.id
  }

  /** The ids appended to the order list: each new one once, in the order they come. */
  function Appended(cache: map<string, Item>, items: seq<Item>): seq<string> {
    if items == [] then [] else
      var front, last := items[..|items| - 1], items[|items| - 1];
      Appended(cache, front) + if last.id == "" || last.id in cache || last.id in Named(front) then [] else [last.id]
  }

  /** Eviction drops a prefix of the order list: none while it fits, and no more than it must. */
  ghost predicate Evicts(full: seq<string>, order: seq<string>, evicted: seq<string>) {
    full == evicted + order && |order| == if |full| <= 4096 then |full| else 4096
  }

  /** How many entries of the grown order list are over the limit. */
  function Excess(full: seq<string>): (n: nat)
    ensures n <= |full|
  {
    if |full| <= CACHE_LIMIT then 0 else |full| - CACHE_LIMIT
  }

  /** After rememberItems an id is cached when it was or is named, and the entries over the limit do not
      mention it: a stale mention among them is enough to lose it. */
  predicate Survives(cache: map<string, Item>, order: seq<string>, items: seq<Item>, id: string) {
    var full := order + Appended(cache, items);
    (id in cache || id in Named(items)) && id !in full[..Excess(full)]
  }

  lemma EvictsDropped(full: seq<string>, order: seq<string>, evicted: seq<string>)
    requires Evicts(full, order, evicted)
    ensures evicted == full[..Excess(full)]
  {
    assert full[..|evicted|] == evicted;
  }

  /** One item just remembered is cached afterwards unless it was not cached, the order list was full, and
      the list's first entry is a stale mention of that very id. */
  lemma JustRememberedSurvivesIff(cache: map<string, Item>, order: seq<string>, item: Item)
    requires |order| <= CACHE_LIMIT && item.id != ""
    ensures Survives(cache, order, [item], item.id)
      <==> item.id in cache || |order| < CACHE_LIMIT || order[0] != item.id
  {
    AppendedOne(cache, item);
    var full := order + Appended(cache, [item]);
    if item.id !in cache && |order| == CACHE_LIMIT {
      assert full[..1] == [order[0]];
    } else {
      assert full[..0] == [];
    }
  }

  lemma AppendedOne(cache: map<string, Item>, item: Item)
    requires item.id != ""
    ensures Appended(cache, [item]) == if item.id in cache then [] else [item.id]
    ensures Named([item]) == {item.id}
  {
    assert [item][..0] == [];
    assert item in [item];
  }

  /** An id the order list does not mention survives being remembered with at most a full list of others. */
  lemma UnmentionedSurvives(cache: map<string, Item>, order: seq<string>, items: seq<Item>, id: string)
    requires |order| <= CACHE_LIMIT && id in Named(items) && id !in order
    requires |Appended(cache, items)| <= CACHE_LIMIT
    ensures Survives(cache, order, items, id)
  {
    var full := order + Appended(cache, items);
    assert forall k :: 0 <= k < Excess(full) ==> full[k] == order[k];
  }

  function IDsOf(items: seq<Item>): (ids: seq<string>)
    ensures |ids| == |items| && forall k :: 0 <= k < |ids| ==> ids[k] == items[k].id
  {
    seq(|items|, k requires 0 <= k < |items| => items[k].id)
  }

  /** Items with distinct new ids. */
  predicate AllNew(cache: map<string, Item>, items: seq<Item>) {
    && (forall k :: 0 <= k < |items| ==> items[k].id != "" && items[k].id !in cache)
    && (forall i, j :: 0 <= i < j < |items| ==> items[i].id != items[j].id)
  }

  lemma {:induction false} AppendedNew(cache: map<string, Item>, items: seq<Item>)
    requires AllNew(cache, items)
    ensures Appended(cache, items) == IDsOf(items) && |Named(items)| == |items|
    ensures forall id :: id in Named(items) <==> id in IDsOf(items)
  {
    hide Named, AllNew, Appended;
    NoneNew(cache);
    if items != [] {
      var front := items[..|items| - 1];
      LastIsNew(cache, items);
      AppendedNew(cache, front);
      assert items[..|items|] == items;
      NamedMore(items, |items| - 1);
      AppendedLast(cache, items);
    }
  }

  lemma NoneNew(cache: map<string, Item>)
    ensures Named([]) == {} && Appended(cache, []) == []
  {
  }

  lemma AppendedLast(cache: map<string, Item>, items: seq<Item>)
    requires items != []
    ensures var front, last := items[..|items| - 1], items[|items| - 1];
      last.id != "" && last.id !in cache && last.id !in Named(front)
      ==> Appended(cache, items) == Appended(cache, front) + [last.id]
  {
  }

  lemma LastIsNew(cache: map<string, Item>, items: seq<Item>)
    requires AllNew(cache, items) && items != []
    ensures var front, last := items[..|items| - 1], items[|items| - 1];
      && AllNew(cache, front) && last.id != "" && last.id !in cache
      && IDsOf(items) == IDsOf(front) + [last.id] && last.id !in IDsOf(front)
  {
  }

  /** A stale entry evicts an item that was remembered again, although no more ids are live than the limit:
      remember an item, forget it, remember it again, and then remember all the others the cache has room
      for. */
  method StaleEntryEvicts(a: Item, others: seq<Item>) returns (c: Cache)
    requires a.id != "" && |others| == CACHE_LIMIT - 1 && AllNew(map[a.id := a], others)
    ensures fresh(c) && c.Valid()
    ensures c.calls == [Remember([a]), Forget([a.id]), Remember([a]), Remember(others)]
    ensures LastSaid(c.calls, a.id) == Some(a) && a.id !in c.itemCache
    ensures |{a.id} + Named(others)| == CACHE_LIMIT
    ensures forall id :: id in c.itemCache <==> id in Named(others)
  {
    hide Appended, Named, Excess, Survives, Evicts, LastSaid, AllNew, SetOf, Consistent;
    c := RememberedTwice(a);
    ghost var before := c.itemCache;
    ghost var gone := c.RememberItems(others);
    StaleFirst(a, others, before);
    SaidAgain(a, others);
  }

  /** Remembering an item, forgetting it and remembering it again mentions it twice in the order list. */
  method RememberedTwice(a: Item) returns (c: Cache)
    requires a.id != ""
    ensures fresh(c) && c.Valid() && c.calls == [Remember([a]), Forget([a.id]), Remember([a])]
    ensures c.itemOrder == [a.id, a.id] && c.itemCache.Keys == {a.id}
  {
    hide Appended, Named, Excess, Survives, Evicts, LastSaid, SetOf, Consistent;
    c := new Cache();
    ghost var gone := c.RememberItems([a]);
    Alone([], a, c.itemCache, c.itemOrder, gone);
    NoneLeft(a, c.itemCache);
    c.ForgetItems([a.id]);
    gone := c.RememberItems([a]);
    Alone([a.id], a, c.itemCache, c.itemOrder, gone);
  }

  lemma Alone(order: seq<string>, a: Item, cache: map<string, Item>, order': seq<string>, gone: seq<string>)
    requires a.id != "" && |order| <= 1 && Evicts(order + Appended(map[], [a]), order', gone)
    requires forall id :: id in cache <==> Survives(map[], order, [a], id)
    ensures order == [] ==> order' == [a.id]
    ensures order == [a.id] ==> order' == [a.id, a.id]
    ensures cache.Keys == {a.id}
  {
    AppendedOne(map[], a);
    var full := order + [a.id];
    assert full[..0] == [];
    assert forall id :: Survives(map[], order, [a], id) <==> id in {a.id};
  }

  lemma NoneLeft(a: Item, was: map<string, Item>)
    requires was.Keys == {a.id}
    ensures was - SetOf([a.id]) == map[]
  {
  }

  lemma StaleFirst(a: Item, others: seq<Item>, cache: map<string, Item>)
    requires a.id != "" && |others| == CACHE_LIMIT - 1 && AllNew(map[a.id := a], others) && cache.Keys == {a.id}
    ensures forall id :: Survives(cache, [a.id, a.id], others, id) <==> id in Named(others)
    ensures a.id !in Named(others) && |{a.id} + Named(others)| == CACHE_LIMIT
  {
    assert AllNew(cache, others);
    AppendedNew(cache, others);
    assert a.id !in IDsOf(others);
    var full := [a.id, a.id] + IDsOf(others);
    assert full[..1] == [a.id];
  }

  lemma SaidAgain(a: Item, others: seq<Item>)
    requires a.id != "" && AllNew(map[a.id := a], others)
    ensures LastSaid([Remember([a]), Forget([a.id]), Remember([a]), Remember(others)], a.id) == Some(a)
  {
    var calls := [Remember([a]), Forget([a.id]), Remember([a]), Remember(others)];
    assert calls[..3][2] == Remember([a]);
    NotNamedKeeps(others, a.id, Some(a));
    assert LastSaid(calls[..3], a.id) == Some(a);
  }

  lemma {:induction false} NotNamedKeeps(items: seq<Item>, id: string, before: Option<Item>)
    requires forall k :: 0 <= k < |items| ==> items[k].id != id
    ensures LastIn(items, id, before) == before
  {
    if items != [] {
      NotNamedKeeps(items[..|items| - 1], id, before);
    }
  }

  /** The last item of that id, or what was cached. */
  function Latest(items: seq<Item>, id: string, before: map<string, Item>): Item {
    if items == [] then (if id in before then before[id] else Item("", false, "")) else
      var last := items[|items| - 1];
      if last.id == id && id != "" then last else Latest(items[..|items| - 1], id, before)
  }

  lemma NothingStored(cache: map<string, Item>, order: seq<string>, items: seq<Item>)
    ensures cache.Keys + Named(items[..0]) == cache.Keys && order + Appended(cache, items[..0]) == order
    ensures forall id :: id in cache ==> cache[id] == Latest(items[..0], id, cache)
  {
  }

  lemma StoreOne(before: map<string, Item>, was: seq<string>, items: seq<Item>, k: nat,
                 cache: map<string, Item>, order: seq<string>)
    requires k < |items| && Consistent(cache, order)
    requires cache.Keys == before.Keys + Named(items[..k]) && order == was + Appended(before, items[..k])
    ensures var id := items[k].id;
      var order' := if id == "" || id in cache then order else order + [id];
      && order' == was + Appended(before, items[..k + 1])
      && (if id == "" then cache.Keys else cache.Keys + {id}) == before.Keys + Named(items[..k + 1])
      && (id == "" ==> Consistent(cache, order'))
      && (id != "" ==> Consistent(cache[id := items[k]], order'))
    ensures forall id ::
      Latest(items[..k + 1], id, before)
      == if items[k].id == id && id != "" then items[k] else Latest(items[..k], id, before)
  {
    var more := items[..k + 1];
    assert more[..|more| - 1] == items[..k] && more[|more| - 1] == items[k];
    NamedMore(items, k);
    hide Named, Latest;
    forall id
      ensures Latest(more, id, before) == if items[k].id == id && id != "" then items[k] else Latest(items[..k], id, before)
    {
      LatestMore(items, k, id, before);
    }
  }

  lemma NamedMore(items: seq<Item>, k: nat)
    requires k < |items|
    ensures Named(items[..k + 1]) == Named(items[..k]) + if items[k].id == "" then {} else {items[k].id}
  {
    assert items[..k + 1] == items[..k] + [items[k]];
  }

  lemma LatestMore(items: seq<Item>, k: nat, id: string, before: map<string, Item>)
    requires k < |items|
    ensures Latest(items[..k + 1], id, before)
      == if items[k].id == id && id != "" then items[k] else Latest(items[..k], id, before)
  {
    assert items[..k + 1][..k] == items[..k];
  }

  /** Item k is the last with the id, which is not blank. */
  ghost predicate LastWith(items: seq<Item>, id: string, k: nat) {
    k < |items| && items[k].id == id != "" && forall j :: k < j < |items| ==> items[j].id != id
  }

  /** What is cached for an id is the last item that names it, or what was cached before. */
  ghost predicate NewestKept(before: map<string, Item>, items: seq<Item>, after: map<string, Item>) {
    && (forall id, k: nat :: id in after && LastWith(items, id, k) ==> after[id] == items[k])
    && (forall id :: id in after && id !in Named(items) ==> id in before && after[id] == before[id])
  }

  lemma {:induction false} LatestIsAt(items: seq<Item>, id: string, k: nat, before: map<string, Item>)
    requires LastWith(items, id, k)
    ensures Latest(items, id, before) == items[k]
    ensures forall said :: LastIn(items, id, said) == Some(items[k])
  {
    if k < |items| - 1 {
      LatestIsAt(items[..|items| - 1], id, k, before);
    }
  }

  lemma {:induction false} LatestIsOld(items: seq<Item>, id: string, before: map<string, Item>)
    requires id in before && (id == "" || forall k :: 0 <= k < |items| ==> items[k].id != id)
    ensures Latest(items, id, before) == before[id]
    ensures forall said :: LastIn(items, id, said) == said
  {
    if items != [] {
      LatestIsOld(items[..|items| - 1], id, before);
    }
  }

  lemma LatestIsNewest(items: seq<Item>, before: map<string, Item>, after: map<string, Item>)
    requires forall id :: id in after ==> after[id] == Latest(items, id, before) && id in before.Keys + Named(items)
    ensures NewestKept(before, items, after)
  {
    hide Latest;
    forall id, k: nat | id in after && LastWith(items, id, k)
      ensures after[id] == items[k]
    {
      LatestIsAt(items, id, k, before);
    }
    forall id | id in after && id !in Named(items)
      ensures id in before && after[id] == before[id]
    {
      if id != "" {
        assert forall k :: 0 <= k < |items| ==> items[k] in items;
      }
      LatestIsOld(items, id, before);
    }
  }

  /** A call says something about an id. */
  ghost predicate Mentions(call: Call, id: string) {
    match call
    case Remember(items) => id in Named(items)
    case Forget(ids) => id in ids
  }

  /** Call c is the last that mentions the id. */
  ghost predicate LastCall(calls: seq<Call>, id: string, c: nat) {
    c < |calls| && Mentions(calls[c], id) && forall d :: c < d < |calls| ==> !Mentions(calls[d], id)
  }

  ghost predicate LastNaming(calls: seq<Call>, id: string, c: nat, k: nat) {
    LastCall(calls, id, c) && calls[c].Remember? && LastWith(calls[c].items, id, k)
  }

  /** What was said last about an id is the last item with it in the last call that mentions it, or nothing
      when that call forgets it or none mentions it. */
  lemma {:induction false} LastSaidIs(calls: seq<Call>, id: string)
    ensures forall c: nat, k: nat :: LastNaming(calls, id, c, k) ==> LastSaid(calls, id) == Some(calls[c].items[k])
    ensures forall c: nat :: LastCall(calls, id, c) && calls[c].Forget? ==> LastSaid(calls, id).None?
    ensures (forall c :: 0 <= c < |calls| ==> !Mentions(calls[c], id)) ==> LastSaid(calls, id).None?
  {
    if calls != [] {
      var n: nat := |calls| - 1;
      LastSaidIs(calls[..n], id);
      LastCallSays(calls[n], id, LastSaid(calls[..n], id));
      hide Mentions, LastIn, LastWith;
      forall c: nat | c < n
        ensures LastCall(calls, id, c) ==> LastCall(calls[..n], id, c) && !Mentions(calls[n], id)
      {
      }
    }
  }

  lemma LastCallSays(call: Call, id: string, before: Option<Item>)
    ensures call.Remember? ==> forall k: nat :: LastWith(call.items, id, k) ==> LastIn(call.items, id, before) == Some(call.items[k])
    ensures call.Remember? && !Mentions(call, id) ==> LastIn(call.items, id, before) == before
  {
    hide LastIn;
    if call.Remember? {
      forall k: nat | LastWith(call.items, id, k)
        ensures LastIn(call.items, id, before) == Some(call.items[k])
      {
        LatestIsAt(call.items, id, k, map[]);
      }
      if !Mentions(call, id) {
        assert forall k :: 0 <= k < |call.items| ==> call.items[k] in call.items;
        LatestIsOld(call.items, id, map[id := Item(id, false, "")]);
      }
    }
  }

  /** What is cached after the calls is what they said last. */
  lemma LatestIsLast(items: seq<Item>, before: map<string, Item>, calls: seq<Call>, cache: map<string, Item>)
    requires forall id :: id in before ==> LastSaid(calls, id) == Some(before[id])
    requires forall id :: id in cache ==> cache[id] == Latest(items, id, before) && id in before.Keys + Named(items)
    ensures forall id :: id in cache ==> LastIn(items, id, LastSaid(calls, id)) == Some(cache[id])
  {
    forall id | id in cache
      ensures LastIn(items, id, LastSaid(calls, id)) == Some(cache[id])
    {
      LatestIsLastIn(items, id, before, LastSaid(calls, id));
    }
  }

  lemma {:induction false} LatestIsLastIn(items: seq<Item>, id: string, before: map<string, Item>, said: Option<Item>)
    requires id in before || id in Named(items)
    requires id in before ==> said == Some(before[id])
    ensures LastIn(items, id, said) == Some(Latest(items, id, before))
  {
    if items != [] {
      var front, last := items[..|items| - 1], items[|items| - 1];
      if last.id != id || id == "" {
        assert items == front + [last];
        LatestIsLastIn(front, id, before, said);
      }
    }
  }

  lemma EvictOne(all: map<string, Item>, cache: map<string, Item>, order: seq<string>, evicted: seq<string>)
    requires Consistent(cache, order) && order != [] && cache == all - SetOf(evicted)
    ensures Consistent(cache - {order[0]}, order[1..])
    ensures cache - {order[0]} == all - SetOf(evicted + [order[0]])
    ensures evicted + [order[0]] + order[1..] == evicted + order
  {
    assert order == [order[0]] + order[1..];
    assert SetOf(evicted + [order[0]]) == SetOf(evicted) + {order[0]};
  }

  lemma {:induction false} AtMostAsLong(keys: set<string>, order: seq<string>)
    requires forall id :: id in keys ==> id in order
    ensures |keys| <= |order|
  {
    if order == [] {
      assert keys == {};
    } else {
      AtMostAsLong(keys - {order[0]}, order[1..]);
    }
  }

  lemma KeysWithin(cache: map<string, Item>, order: seq<string>)
    requires Consistent(cache, order)
    ensures |cache| <= |order|
  {
    AtMostAsLong(cache.Keys, order);
    assert |cache| == |cache.Keys|;
  }

  // ---- the search ----

  /** What listing a directory gives: its items, or an error. */
  type Listing = string -> Option<seq<Item>>

  ghost predicate Child(list: Listing, parent: string, child: string) {
    list(parent).Some? && exists item :: item in list(parent).value && item.isDir && item.id == child
  }

  /** A directory reached from the root through listed directories. */
  ghost predicate Path(list: Listing, path: seq<string>) {
    |path| >= 1 && forall k :: 0 <= k < |path| - 1 ==> Child(list, path[k], path[k + 1])
  }

  ghost predicate Reachable(list: Listing, root: string, dir: string) {
    exists path :: Path(list, path) && path[0] == root && path[|path| - 1] == dir
  }

  ghost predicate Holds(list: Listing, dir: string, id: string) {
    list(dir).Some? && exists item :: item in list(dir).value && item.id == id
  }

  datatype Outcome = Found(item: Item) | NotFound | ListFailed

  lemma ReachableRoot(list: Listing, root: string)
    ensures Reachable(list, root, root)
  {
    assert Path(list, [root]);
  }

  lemma ReachableChild(list: Listing, root: string, dir: string, child: string)
    requires Reachable(list, root, dir) && Child(list, dir, child)
    ensures Reachable(list, root, child)
  {
    var path :| Path(list, path) && path[0] == root && path[|path| - 1] == dir;
    var longer := path + [child];
    assert Path(list, longer);
  }

  /** The ids of the directories among the items, in order. */
  function Dirs(items: seq<Item>): (dirs: seq<string>)
    ensures forall d :: d in dirs <==> exists item :: item in items && item.isDir && item.id == d
  {
    if items == [] then [] else
      var front, last := items[..|items| - 1], items[|items| - 1];
      assert items == front + [last];
      Dirs(front) + if last.isDir then [last.id] else []
  }

  /** Exactly the positions of the directories, in order. */
  ghost predicate DirsAt(items: seq<Item>, at: seq<nat>) {
    && (forall j :: 0 <= j < |at| ==> at[j] < |items| && items[at[j]].isDir)
    && (forall i, j :: 0 <= i < j < |at| ==> at[i] < at[j])
    && (forall k: nat :: k < |items| && items[k].isDir ==> k in at)
  }

  /** The ids of the items at those positions. */
  ghost predicate NamedAt(items: seq<Item>, at: seq<nat>, dirs: seq<string>) {
    |at| == |dirs| && forall j :: 0 <= j < |at| ==> at[j] < |items| && items[at[j]].id == dirs[j]
  }

  lemma DirsAtMore(items: seq<Item>, front: seq<nat>, dirs: seq<string>) returns (at: seq<nat>)
    requires items != [] && DirsAt(items[..|items| - 1], front) && NamedAt(items[..|items| - 1], front, dirs)
    ensures DirsAt(items, at)
    ensures NamedAt(items, at, dirs + if items[|items| - 1].isDir then [items[|items| - 1].id] else [])
  {
    var n: nat := |items| - 1;
    at := front;
    if items[n].isDir {
      at := front + [n];
      assert at[|front|] == n;
    } else {
      assert dirs + [] == dirs;
    }
    forall k: nat | k < n && items[k].isDir
      ensures k in at
    {
      assert items[..n][k].isDir;
      assert k in front;
    }
  }

  /** They are the directories in the order of the items. */
  lemma {:induction false} DirsInOrder(items: seq<Item>) returns (at: seq<nat>)
    ensures DirsAt(items, at) && NamedAt(items, at, Dirs(items))
  {
    hide DirsAt, NamedAt;
    if items == [] {
      NoDirs();
      NoneAt();
      at := [];
    } else {
      var n: nat := |items| - 1;
      var front := DirsInOrder(items[..n]);
      at := DirsAtMore(items, front, Dirs(items[..n]));
      DirsMore(items, n);
      assert items[..n + 1] == items;
    }
  }

  lemma NoneAt()
    ensures DirsAt([], []) && NamedAt([], [], [])
  {
  }

  /** Item `k` is the first with the id. */
  ghost predicate FirstWith(items: seq<Item>, id: string, k: nat) {
    k < |items| && items[k].id == id && forall j :: 0 <= j < k ==> items[j].id != id
  }

  ghost predicate FirstItem(items: seq<Item>, id: string, item: Item) {
    exists k: nat :: FirstWith(items, id, k) && item == items[k]
  }

  /** The first item of a directory with the id, and the directories before it, in order. */
  method ScanItems(items: seq<Item>, fileID: string) returns (found: Option<Item>, dirs: seq<string>)
    ensures found.Some? ==> found.value in items && found.value.id == fileID
    ensures found.None? ==> forall item :: item in items ==> item.id != fileID
    ensures found.Some? ==> exists k: nat :: FirstWith(items, fileID, k) && found.value == items[k] && dirs == Dirs(items[..k])
    ensures found.None? ==> dirs == Dirs(items)
  {
    hide Dirs;
    NoDirs();
    found, dirs := None, [];
    for k := 0 to |items|
      invariant forall j :: 0 <= j < k ==> items[j].id != fileID
      invariant dirs == Dirs(items[..k])
    {
      DirsMore(items, k);
      if items[k].id == fileID {
        assert FirstWith(items, fileID, k);
        return Some(items[k]), dirs;
      }
      if items[k].isDir {
        dirs := dirs + [items[k].id];
      }
    }
    assert items[..|items|] == items;
  }

  lemma NoDirs()
    ensures Dirs([]) == []
  {
  }

  lemma DirsMore(items: seq<Item>, k: nat)
    requires k < |items|
    ensures Dirs(items[..k + 1]) == Dirs(items[..k]) + if items[k].isDir then [items[k].id] else []
  {
    assert items[..k + 1][..k] == items[..k];
  }

  /** What the search keeps: everything seen is reachable, no visited directory holds the id, and every child
      of a visited directory is visited or queued. */
  ghost predicate Searching(list: Listing, root: string, fileID: string, queue: seq<string>, visited: set<string>) {
    && (root in visited || root in queue)
    && (forall d :: d in visited ==> list(d).Some? && !Holds(list, d, fileID))
    && (forall d, c :: d in visited && Child(list, d, c) ==> c in visited || c in queue)
    && (forall d :: d in visited || d in queue ==> Reachable(list, root, d))
  }

  lemma {:induction false} VisitedAll(list: Listing, root: string, fileID: string, visited: set<string>, path: seq<string>)
    requires Searching(list, root, fileID, [], visited) && Path(list, path) && path[0] == root
    ensures path[|path| - 1] in visited
  {
    if |path| > 1 {
      var front := path[..|path| - 1];
      assert forall k :: 0 <= k < |front| - 1 ==> Child(list, front[k], front[k + 1]) by {
        assert forall k :: 0 <= k < |front| ==> front[k] == path[k];
      }
      VisitedAll(list, root, fileID, visited, front);
      assert Child(list, path[|path| - 2], path[|path| - 1]);
    }
  }

  lemma SearchStep(list: Listing, root: string, fileID: string, queue: seq<string>, visited: set<string>, dirs: seq<string>)
    requires queue != [] && Searching(list, root, fileID, queue, visited)
    requires list(queue[0]).Some? && !Holds(list, queue[0], fileID)
    requires forall d :: d in dirs <==> Child(list, queue[0], d)
    ensures Searching(list, root, fileID, queue[1..] + dirs, visited + {queue[0]})
  {
    var parent := queue[0];
    assert queue == [parent] + queue[1..];
    forall d | d in dirs
      ensures Reachable(list, root, d)
    {
      ReachableChild(list, root, parent, d);
    }
  }

  lemma SkipStep(list: Listing, root: string, fileID: string, queue: seq<string>, visited: set<string>)
    requires queue != [] && Searching(list, root, fileID, queue, visited) && queue[0] in visited
    ensures Searching(list, root, fileID, queue[1..], visited)
  {
    assert queue == [queue[0]] + queue[1..];
  }

  // ---- nearer directories first ----

  /** A path from the root to the directory of at most `k` steps. */
  ghost predicate Steps(list: Listing, root: string, d: string, k: nat, path: seq<string>) {
    Path(list, path) && path[0] == root && path[|path| - 1] == d && |path| <= k + 1
  }

  ghost predicate Within(list: Listing, root: string, d: string, k: nat) {
    exists path :: Steps(list, root, d, k, path)
  }

  /** Before a directory is listed, all that are nearer to the root have been. */
  ghost predicate NearestFirst(list: Listing, root: string, listed: seq<string>) {
    forall j: nat, d, k: nat ::
      j < |listed| && Within(list, root, d, k) && !Within(list, root, listed[j], k) ==> d in listed[..j]
  }

  /** A child of a directory at depth `k` is visited at most one deeper, or queued there. */
  ghost predicate ChildKnown(c: string, k: nat, queue: seq<string>, tags: seq<nat>, depth: map<string, nat>)
    requires |tags| == |queue|
  {
    (c in depth && depth[c] <= k) || exists i :: 0 <= i < |queue| && queue[i] == c && tags[i] <= k
  }

  /** The depths of the visited directories and of the queue: steps in which they are reached, growing along
      the queue by at most one, none visited deeper than the front of the queue. */
  ghost predicate Layered(list: Listing, root: string, queue: seq<string>, tags: seq<nat>, depth: map<string, nat>) {
    && |tags| == |queue|
    && (forall i, j :: 0 <= i <= j < |tags| ==> tags[i] <= tags[j] <= tags[i] + 1)
    && (forall i :: 0 <= i < |queue| ==> Within(list, root, queue[i], tags[i]))
    && (forall d :: d in depth && queue != [] ==> depth[d] <= tags[0])
    && ChildKnown(root, 0, queue, tags, depth)
    && (forall d, c :: d in depth && Child(list, d, c) ==> ChildKnown(c, depth[d] + 1, queue, tags, depth))
  }

  lemma WithinRoot(list: Listing, root: string)
    ensures Within(list, root, root, 0)
  {
    assert Steps(list, root, root, 0, [root]);
  }

  lemma WithinMore(list: Listing, root: string, d: string, k: nat, m: nat)
    requires Within(list, root, d, k) && k <= m
    ensures Within(list, root, d, m)
  {
    var path :| Steps(list, root, d, k, path);
    assert Steps(list, root, d, m, path);
  }

  lemma WithinChild(list: Listing, root: string, d: string, c: string, k: nat)
    requires Within(list, root, d, k) && Child(list, d, c)
    ensures Within(list, root, c, k + 1)
  {
    var path :| Steps(list, root, d, k, path);
    assert Steps(list, root, c, k + 1, path + [c]);
  }

  lemma LayeredBegins(list: Listing, root: string)
    ensures Layered(list, root, [root], [0], map[])
  {
    WithinRoot(list, root);
    assert [root][0] == root && [0][0] <= 0;
  }

  lemma KnownAfterPop(c: string, k: nat, queue: seq<string>, tags: seq<nat>, depth: map<string, nat>)
    requires |tags| == |queue| > 0 && ChildKnown(c, k, queue, tags, depth)
    requires queue[0] in depth ==> depth[queue[0]] <= tags[0]
    requires queue[0] in depth
    ensures ChildKnown(c, k, queue[1..], tags[1..], depth)
  {
    if !(c in depth && depth[c] <= k) {
      var i :| 0 <= i < |queue| && queue[i] == c && tags[i] <= k;
      assert i > 0 && queue[1..][i - 1] == c && tags[1..][i - 1] <= k;
    }
  }

  lemma LayeredSkip(list: Listing, root: string, queue: seq<string>, tags: seq<nat>, depth: map<string, nat>)
    requires queue != [] && Layered(list, root, queue, tags, depth) && queue[0] in depth
    ensures Layered(list, root, queue[1..], tags[1..], depth)
  {
    hide Within, ChildKnown, Child;
    forall c, k: nat | ChildKnown(c, k, queue, tags, depth)
      ensures ChildKnown(c, k, queue[1..], tags[1..], depth)
    {
      KnownAfterPop(c, k, queue, tags, depth);
    }
  }

  function Copies(n: nat, v: nat): (s: seq<nat>)
    ensures |s| == n && forall i :: 0 <= i < n ==> s[i] == v
  {
    seq(n, _ => v)
  }

  lemma KnownAfterVisit(c: string, k: nat, queue: seq<string>, tags: seq<nat>, depth: map<string, nat>, more: seq<string>, t: nat)
    requires |tags| == |queue| > 0 && queue[0] !in depth
    requires ChildKnown(c, k, queue, tags, depth) || (c in more && t <= k)
    ensures ChildKnown(c, k, queue[1..] + more, tags[1..] + Copies(|more|, t), depth[queue[0] := tags[0]])
  {
    var q, g := queue[1..] + more, tags[1..] + Copies(|more|, t);
    if ChildKnown(c, k, queue, tags, depth) {
      if !(c in depth && depth[c] <= k) {
        var i :| 0 <= i < |queue| && queue[i] == c && tags[i] <= k;
        assert i > 0 ==> q[i - 1] == c && g[i - 1] <= k;
      }
    } else {
      var i :| 0 <= i < |more| && more[i] == c;
      assert q[|queue| - 1 + i] == c && g[|queue| - 1 + i] == t;
    }
  }

  lemma TagsGrow(tags: seq<nat>, n: nat)
    requires tags != [] && forall i, j :: 0 <= i <= j < |tags| ==> tags[i] <= tags[j] <= tags[i] + 1
    ensures var g := tags[1..] + Copies(n, tags[0] + 1);
      forall i, j :: 0 <= i <= j < |g| ==> tags[0] <= g[i] <= g[j] <= g[i] + 1
  {
    assert forall i :: 0 <= i < |tags| ==> tags[0] <= tags[i] <= tags[0] + 1;
  }

  lemma AllWithin(list: Listing, root: string, queue: seq<string>, tags: seq<nat>, depth: map<string, nat>, dirs: seq<string>)
    requires queue != [] && Layered(list, root, queue, tags, depth)
    requires forall d :: d in dirs <==> Child(list, queue[0], d)
    ensures var q, g := queue[1..] + dirs, tags[1..] + Copies(|dirs|, tags[0] + 1);
      forall i :: 0 <= i < |q| ==> Within(list, root, q[i], g[i])
  {
    hide Within, ChildKnown, Child;
    var q, g := queue[1..] + dirs, tags[1..] + Copies(|dirs|, tags[0] + 1);
    forall i | 0 <= i < |q|
      ensures Within(list, root, q[i], g[i])
    {
      if i < |queue| - 1 {
        assert q[i] == queue[i + 1] && g[i] == tags[i + 1];
      } else {
        assert q[i] == dirs[i - (|queue| - 1)] && g[i] == tags[0] + 1;
        assert q[i] in dirs;
        WithinChild(list, root, queue[0], q[i], tags[0]);
      }
    }
  }

  lemma AllKnown(list: Listing, root: string, queue: seq<string>, tags: seq<nat>, depth: map<string, nat>, dirs: seq<string>)
    requires queue != [] && Layered(list, root, queue, tags, depth) && queue[0] !in depth
    requires forall d :: d in dirs <==> Child(list, queue[0], d)
    ensures var q, g, known := queue[1..] + dirs, tags[1..] + Copies(|dirs|, tags[0] + 1), depth[queue[0] := tags[0]];
      && ChildKnown(root, 0, q, g, known)
      && forall d, c :: d in known && Child(list, d, c) ==> ChildKnown(c, known[d] + 1, q, g, known)
  {
    hide Within, ChildKnown, Child;
    var t := tags[0];
    var q, g, known := queue[1..] + dirs, tags[1..] + Copies(|dirs|, t + 1), depth[queue[0] := t];
    KnownAfterVisit(root, 0, queue, tags, depth, dirs, t + 1);
    forall d, c | d in known && Child(list, d, c)
      ensures ChildKnown(c, known[d] + 1, q, g, known)
    {
      KnownAfterVisit(c, known[d] + 1, queue, tags, depth, dirs, t + 1);
    }
  }

  lemma LayeredStep(list: Listing, root: string, queue: seq<string>, tags: seq<nat>, depth: map<string, nat>, dirs: seq<string>)
    requires queue != [] && Layered(list, root, queue, tags, depth) && queue[0] !in depth
    requires forall d :: d in dirs <==> Child(list, queue[0], d)
    ensures Layered(list, root, queue[1..] + dirs, tags[1..] + Copies(|dirs|, tags[0] + 1), depth[queue[0] := tags[0]])
  {
    hide Within, ChildKnown, Child;
    TagsGrow(tags, |dirs|);
    AllWithin(list, root, queue, tags, depth, dirs);
    AllKnown(list, root, queue, tags, depth, dirs);
  }

  /** All within fewer steps than the front of the queue have been visited. */
  lemma {:induction false} NearVisited(list: Listing, root: string, queue: seq<string>, tags: seq<nat>, depth: map<string, nat>,
                                       path: seq<string>)
    requires queue != [] && Layered(list, root, queue, tags, depth)
    requires Path(list, path) && path[0] == root && |path| <= tags[0]
    ensures var d := path[|path| - 1];
      d in depth && depth[d] <= |path| - 1
    decreases |path|
  {
    hide Within, Child;
    if |path| > 1 {
      var front := path[..|path| - 1];
      assert forall k :: 0 <= k < |front| ==> front[k] == path[k];
      NearVisited(list, root, queue, tags, depth, front);
      assert Child(list, path[|path| - 2], path[|path| - 1]);
      assert ChildKnown(path[|path| - 1], depth[path[|path| - 2]] + 1, queue, tags, depth);
    }
  }

  lemma ListedNext(list: Listing, root: string, queue: seq<string>, tags: seq<nat>, depth: map<string, nat>, listed: seq<string>)
    requires queue != [] && Layered(list, root, queue, tags, depth)
    requires NearestFirst(list, root, listed) && forall d :: d in listed <==> d in depth
    ensures NearestFirst(list, root, listed + [queue[0]])
  {
    hide Layered, Child, Path;
    QueuedWithin(list, root, queue, tags, depth);
    var after := listed + [queue[0]];
    forall j: nat, d, k: nat | j < |after| && Within(list, root, d, k) && !Within(list, root, after[j], k)
      ensures d in after[..j]
    {
      assert after[..j] == if j < |listed| then listed[..j] else listed;
      if j == |listed| {
        if tags[0] <= k {
          WithinMore(list, root, queue[0], tags[0], k);
        } else {
          var path :| Steps(list, root, d, k, path);
          NearVisited(list, root, queue, tags, depth, path);
        }
      }
    }
  }

  lemma QueuedWithin(list: Listing, root: string, queue: seq<string>, tags: seq<nat>, depth: map<string, nat>)
    requires queue != [] && Layered(list, root, queue, tags, depth)
    ensures |tags| == |queue| && Within(list, root, queue[0], tags[0])
  {
  }

  lemma NoneListed(list: Listing, root: string)
    ensures NearestFirst(list, root, [])
  {
  }

  /** findFamilyItem, on any graph with finitely many directories, cycles included. `listed` is the sequence
      of listing requests. */
  method FindFamilyItem(list: Listing, root: string, fileID: string, ghost universe: set<string>)
    returns (r: Outcome, ghost listed: seq<string>)
    requires root in universe
    requires forall d, c :: d in universe && Child(list, d, c) ==> c in universe
    ensures forall i, j :: 0 <= i < j < |listed| ==> listed[i] != listed[j]
    ensures forall d :: d in listed ==> Reachable(list, root, d)
    ensures NearestFirst(list, root, listed)
    ensures forall j :: 0 <= j < |listed| - 1 ==> list(listed[j]).Some? && !Holds(list, listed[j], fileID)
    ensures r.Found? ==> r.item.id == fileID
    ensures r.Found? ==> FoundIn(list, listed, fileID, r.item)
    ensures r.NotFound? ==> forall d :: Reachable(list, root, d) ==> d in listed && list(d).Some? && !Holds(list, d, fileID)
    ensures r.ListFailed? ==> listed != [] && list(listed[|listed| - 1]).None?
    ensures (forall d :: Reachable(list, root, d) ==> list(d).Some?)
      ==> (r.Found? <==> exists d :: Reachable(list, root, d) && Holds(list, d, fileID))
  {
    hide Searching, Reachable, Path, Layered, NearestFirst, FirstWith;
    var queue := [root];
    ghost var tags: seq<nat> := [0];
    ghost var depth: map<string, nat> := map[];
    LayeredBegins(list, root);
    NoneListed(list, root);
    var visited: set<string> := {};
    listed := [];
    SearchBegins(list, root, fileID);
    while queue != []
      invariant Searching(list, root, fileID, queue, visited)
      invariant visited <= universe && forall d :: d in queue ==> d in universe
      invariant Layered(list, root, queue, tags, depth) && depth.Keys == visited
      invariant NearestFirst(list, root, listed)
      invariant forall d :: d in listed <==> d in visited
      invariant forall j :: 0 <= j < |listed| ==> list(listed[j]).Some? && !Holds(list, listed[j], fileID)
      invariant forall i, j :: 0 <= i < j < |listed| ==> listed[i] != listed[j]
      decreases universe - visited, |queue|
    {
      var parent := queue[0];
      QueuedReachable(list, root, fileID, queue, visited);
      if parent in visited {
        SkipStep(list, root, fileID, queue, visited);
        QueuedWithin(list, root, queue, tags, depth);
        LayeredSkip(list, root, queue, tags, depth);
        queue, tags := queue[1..], tags[1..];
        continue;
      }
      ListedNext(list, root, queue, tags, depth, listed);
      listed := listed + [parent];
      var items := list(parent);
      if items.None? {
        return ListFailed, listed;
      }
      var found, dirs := ScanItems(items.value, fileID);
      if found.Some? {
        assert Holds(list, parent, fileID);
        return Found(found.value), listed;
      }
      SearchStep(list, root, fileID, queue, visited, dirs);
      QueuedWithin(list, root, queue, tags, depth);
      LayeredStep(list, root, queue, tags, depth, dirs);
      visited := visited + {parent};
      tags, depth := tags[1..] + Copies(|dirs|, tags[0] + 1), depth[parent := tags[0]];
      queue := queue[1..] + dirs;
    }
    r := NotFound;
    SearchEnds(list, root, fileID, visited);
  }

  /** The last listed directory has the item, as the first with the id. */
  ghost predicate FoundIn(list: Listing, listed: seq<string>, fileID: string, item: Item) {
    listed != [] && list(listed[|listed| - 1]).Some? && FirstItem(list(listed[|listed| - 1]).value, fileID, item)
  }

  lemma SearchBegins(list: Listing, root: string, fileID: string)
    ensures Searching(list, root, fileID, [root], {})
  {
    ReachableRoot(list, root);
  }

  lemma QueuedReachable(list: Listing, root: string, fileID: string, queue: seq<string>, visited: set<string>)
    requires queue != [] && Searching(list, root, fileID, queue, visited)
    ensures forall d :: d in visited || d == queue[0] ==> Reachable(list, root, d)
  {
  }

  lemma SearchEnds(list: Listing, root: string, fileID: string, visited: set<string>)
    requires Searching(list, root, fileID, [], visited)
    ensures forall d :: Reachable(list, root, d) <==> d in visited
    ensures forall d :: d in visited ==> list(d).Some? && !Holds(list, d, fileID)
  {
    forall d | Reachable(list, root, d)
      ensures d in visited
    {
      var path :| Path(list, path) && path[0] == root && path[|path| - 1] == d;
      VisitedAll(list, root, fileID, visited, path);
    }
  }
}
