/**
 drivers/115_Open/full_list.go: collecting a recursive listing page by page from a server that may repeat,
 change or miscount, and the path of a directory inside the mounted root.
 */
module FullList115 {
  import opened Parts
  import opened Text

  datatype FileEntry = FileEntry(fid: string, fileID: string, aid: string, info: string)

  function EntryID(e: FileEntry): string {
    var s := TrimSpace(e.fid);
    if s != "" then s else TrimSpace(e.fileID)
  }

  predicate IsTrashed(e: FileEntry) {
    e.aid == "7" || e.aid == "120"
  }

  datatype Page = Page(count: int, data: seq<FileEntry>)

  datatype Item = Item(id: string, info: string)

  datatype Outcome =
    | Collected(items: seq<Item>)
    | Failed                              // cancelled, or a request failed
    | Incomplete(expected: int, got: nat)
    | NoID
    | Repeated

  function IDs(es: seq<FileEntry>): set<string> {
    set e | e in es :: EntryID(e)
  }

  lemma IDsConcat(a: seq<FileEntry>, b: seq<FileEntry>)
    ensures IDs(a + b) == IDs(a) + IDs(b)
  {
    hide EntryID;
  }

  lemma IDsOne(e: FileEntry)
    ensures IDs([e]) == {EntryID(e)}
  {
    hide EntryID;
  }

  lemma IDsAt(es: seq<FileEntry>, id: string)
    ensures id in IDs(es) <==> exists k :: 0 <= k < |es| && EntryID(es[k]) == id
  {
    hide EntryID;
    if id in IDs(es) {
      var e :| e in es && EntryID(e) == id;
      var k :| 0 <= k < |es| && es[k] == e;
    }
  }

  /** Entry `i` is the first with its id. */
  ghost predicate FirstAt(es: seq<FileEntry>, i: nat) {
    i < |es| && forall j :: 0 <= j < i ==> EntryID(es[j]) != EntryID(es[i])
  }

  /** The entries to keep, by index: first with their id, and not in the recycle bin. */
  function KeptIndices(es: seq<FileEntry>): (xs: seq<nat>)
    ensures forall k :: 0 <= k < |xs| ==> xs[k] < |es|
  {
    if es == [] then [] else
      var front, last := es[..|es| - 1], es[|es| - 1];
      assert |front| <= |es|;
      KeptIndices(front) + if EntryID(last) in IDs(front) || IsTrashed(last) then [] else [|es| - 1]
  }

  function Kept(es: seq<FileEntry>): (items: seq<Item>)
    ensures |items| == |KeptIndices(es)|
  {
    var xs := KeptIndices(es);
    seq(|xs|, k requires 0 <= k < |xs| => Item(EntryID(es[xs[k]]), es[xs[k]].info))
  }

  lemma FirstAtFront(es: seq<FileEntry>, i: nat)
    requires es != [] && i < |es| - 1
    ensures FirstAt(es, i) <==> FirstAt(es[..|es| - 1], i)
  {
    hide EntryID;
    var front := es[..|es| - 1];
    assert forall j :: 0 <= j < |front| ==> es[j] == front[j];
  }

  lemma FirstAtLast(es: seq<FileEntry>)
    requires es != []
    ensures FirstAt(es, |es| - 1) <==> EntryID(es[|es| - 1]) !in IDs(es[..|es| - 1])
  {
    hide EntryID;
    var front, id := es[..|es| - 1], EntryID(es[|es| - 1]);
    IDsAt(front, id);
    assert forall j :: 0 <= j < |front| ==> es[j] == front[j];
  }

  lemma {:induction false} KeptIndicesAre(es: seq<FileEntry>)
    ensures forall i: nat :: i in KeptIndices(es) <==> FirstAt(es, i) && !IsTrashed(es[i])
    ensures forall a, b :: 0 <= a < b < |KeptIndices(es)| ==> KeptIndices(es)[a] < KeptIndices(es)[b]
  {
    hide EntryID, IDs, IsTrashed;
    if es != [] {
      var n := |es| - 1;
      var front := es[..n];
      KeptIndicesAre(front);
      FirstAtLast(es);
      forall i: nat
        ensures i in KeptIndices(es) <==> FirstAt(es, i) && !IsTrashed(es[i])
      {
        if i < n {
          FirstAtFront(es, i);
        }
        if i in KeptIndices(front) {
          assert FirstAt(front, i);
        }
      }
    }
  }

  /** The file id that is not blank, of the short and the long name. */
  ghost predicate Identifies(e: FileEntry, id: string) {
    (id == TrimSpace(e.fid) && id != "") || (TrimSpace(e.fid) == "" && id == TrimSpace(e.fileID))
  }

  lemma EntryIDIdentifies(e: FileEntry)
    ensures Identifies(e, EntryID(e))
  {
    hide TrimSpace;
  }

  /** The listing keeps exactly the first, untrashed occurrence of each id, in page order, no id twice. */
  lemma KeptIsFirstOccurrences(es: seq<FileEntry>)
    ensures forall k :: 0 <= k < |Kept(es)| ==>
      var i := KeptIndices(es)[k];
      && FirstAt(es, i) && es[i].aid != "7" && es[i].aid != "120"
      && Kept(es)[k] == Item(EntryID(es[i]), es[i].info) && Identifies(es[i], Kept(es)[k].id)
    ensures forall i: nat :: FirstAt(es, i) && es[i].aid != "7" && es[i].aid != "120" ==> i in KeptIndices(es)
    ensures forall a, b :: 0 <= a < b < |Kept(es)| ==>
      KeptIndices(es)[a] < KeptIndices(es)[b] && Kept(es)[a].id != Kept(es)[b].id
  {
    hide EntryID, Identifies, TrimSpace;
    KeptIndicesAre(es);
    var xs := KeptIndices(es);
    forall k | 0 <= k < |xs|
      ensures FirstAt(es, xs[k]) && !IsTrashed(es[xs[k]])
    {
      assert xs[k] in xs;
    }
    forall k | 0 <= k < |xs|
      ensures Identifies(es[xs[k]], EntryID(es[xs[k]]))
    {
      EntryIDIdentifies(es[xs[k]]);
    }
  }

  /** What one more entry adds to the list. */
  function Added(es: seq<FileEntry>, e: FileEntry): seq<Item> {
    if EntryID(e) in IDs(es) || IsTrashed(e) then [] else [Item(EntryID(e), e.info)]
  }

  lemma KeptMore(es: seq<FileEntry>, e: FileEntry)
    ensures Kept(es + [e]) == Kept(es) + Added(es, e)
    ensures IDs(es + [e]) == IDs(es) + {EntryID(e)}
  {
    hide EntryID, IDs, IsTrashed;
    IDsConcat(es, [e]);
    IDsOne(e);
    var more := es + [e];
    assert more[..|more| - 1] == es && more[|more| - 1] == e;
    var xs, ys := KeptIndices(es), KeptIndices(more);
    assert ys == xs + if EntryID(e) in IDs(es) || IsTrashed(e) then [] else [|es|];
    forall k | 0 <= k < |xs|
      ensures Kept(more)[k] == Kept(es)[k]
    {
      assert ys[k] == xs[k] && more[xs[k]] == es[xs[k]];
    }
  }

  /** One entry. */
  method TakeOne(f: FileEntry, entries: seq<Item>, seen: set<string>, ghost all: seq<FileEntry>)
    returns (ok: bool, entries': seq<Item>, seen': set<string>, added: nat)
    requires entries == Kept(all) && seen == IDs(all)
    ensures ok <==> EntryID(f) != ""
    ensures ok ==> entries' == Kept(all + [f]) && seen' == IDs(all + [f]) == seen + {EntryID(f)}
    ensures ok ==> added == if EntryID(f) in seen then 0 else 1
  {
    hide EntryID, Kept, IDs, IsTrashed;
    KeptMore(all, f);
    ok, entries', seen', added := true, entries, seen, 0;
    var fileID := TrimID(f);
    if fileID == "" {
      ok := false;
      return;
    }
    if fileID in seen {
      assert seen + {fileID} == seen;
      return;
    }
    seen' := seen + {fileID};
    added := 1;
    if !IsTrashed(f) {
      entries' := entries + [Item(fileID, f.info)];
    }
  }

  /** Goes through one page. */
  method TakePage(data: seq<FileEntry>, entries: seq<Item>, seen: set<string>, ghost all: seq<FileEntry>)
    returns (ok: bool, entries': seq<Item>, seen': set<string>, newIDs: nat)
    requires entries == Kept(all) && seen == IDs(all)
    ensures ok <==> "" !in IDs(data)
    ensures ok ==> entries' == Kept(all + data) && seen' == IDs(all + data) == seen + IDs(data)
    ensures ok ==> (newIDs == 0 <==> seen' == seen)
  {
    hide EntryID, Kept, IDs, IsTrashed;
    ok, entries', seen', newIDs := true, entries, seen, 0;
    NoIDs();
    assert all + data[..0] == all && data[..0] == [];
    for k := 0 to |data|
      invariant entries' == Kept(all + data[..k]) && seen' == IDs(all + data[..k]) == seen + IDs(data[..k])
      invariant "" !in IDs(data[..k]) && ok
      invariant newIDs == 0 <==> seen' == seen
    {
      PageSplits(all, data, k);
      var added;
      ok, entries', seen', added := TakeOne(data[k], entries', seen', all + data[..k]);
      if !ok { return; }
      newIDs := newIDs + added;
    }
    assert data[..|data|] == data;
  }

  lemma NoIDs()
    ensures IDs([]) == {} && Kept([]) == []
  {
  }

  lemma PageSplits(all: seq<FileEntry>, data: seq<FileEntry>, k: nat)
    requires k < |data|
    ensures all + data[..k] + [data[k]] == all + data[..k + 1]
    ensures IDs(data[..k + 1]) == IDs(data[..k]) + {EntryID(data[k])}
    ensures EntryID(data[k]) in IDs(data)
  {
    hide EntryID, IDs;
    IDsConcat(data[..k], [data[k]]);
    IDsOne(data[k]);
    assert data[..k + 1] == data[..k] + [data[k]];
    IDsAt(data, EntryID(data[k]));
  }

  /** The id is already trimmed, so trimming it again changes nothing. */
  method TrimID(f: FileEntry) returns (id: string)
    ensures id == EntryID(f)
  {
    TrimIsIdentityIff(EntryID(f));
    id := TrimSpace(EntryID(f));
  }

  /** Every entry has an id and no two have the same. */
  ghost predicate DistinctNamed(items: seq<FileEntry>) {
    && (forall i, j :: 0 <= i < j < |items| ==> EntryID(items[i]) != EntryID(items[j]))
    && (forall i :: 0 <= i < |items| ==> EntryID(items[i]) != "")
  }

  /** A server that lists `items` in order, any number at a time, and never counts too many. Before the end it
      may send an empty page, but not to two requests in a row. */
  ghost predicate Stable(fetch: (nat, nat) -> Option<Page>, items: seq<FileEntry>) {
    && DistinctNamed(items)
    && (forall round: nat, offset: nat :: fetch(round, offset).Some? && offset <= |items| ==>
          var page := fetch(round, offset).value;
          page.count <= |items| && page.data <= items[offset..])
    && (forall round: nat, offset: nat :: EmptyPage(fetch, round, offset) && offset < |items| ==>
          !EmptyPage(fetch, round + 1, offset))
  }

  predicate EmptyPage(fetch: (nat, nat) -> Option<Page>, round: nat, offset: nat) {
    fetch(round, offset).Some? && fetch(round, offset).value.data == []
  }

  lemma StableIsNew(items: seq<FileEntry>, at: nat, data: seq<FileEntry>)
    requires DistinctNamed(items) && at <= |items| && data <= items[at..] && data != []
    ensures "" !in IDs(data)
    ensures EntryID(data[0]) in IDs(data) && EntryID(data[0]) !in IDs(items[..at])
    ensures items[..at] + data == items[..at + |data|]
  {
    hide EntryID, IDs;
    assert forall k :: 0 <= k < |data| ==> data[k] == items[at + k];
    IDsAt(data, "");
    IDsAt(data, EntryID(data[0]));
    IDsAt(items[..at], EntryID(data[0]));
  }

  lemma {:induction false} DistinctIDs(items: seq<FileEntry>)
    requires DistinctNamed(items)
    ensures |IDs(items)| == |items|
  {
    hide EntryID, IDs;
    if items == [] {
      NoIDs();
    } else {
      var front, last := items[..|items| - 1], items[|items| - 1];
      assert forall k :: 0 <= k < |front| ==> front[k] == items[k];
      DistinctIDs(front);
      IDsConcat(front, [last]);
      IDsOne(last);
      assert items == front + [last];
      IDsAt(front, EntryID(last));
    }
  }

  /** The ids a server can ever send are among `universe`. */
  ghost predicate Within(fetch: (nat, nat) -> Option<Page>, universe: set<string>) {
    forall round, offset :: fetch(round, offset).Some? ==> IDs(fetch(round, offset).value.data) <= universe
  }

  function Larger(a: int, b: int): int {
    if a > b then a else b
  }

  /** The rounds of a listing, given by the offset each one asked for: what its pages hold, joined. */
  function Taken(fetch: (nat, nat) -> Option<Page>, offsets: seq<nat>): seq<FileEntry> {
    if offsets == [] then [] else
      var n := |offsets| - 1;
      Taken(fetch, offsets[..n]) + (match fetch(n, offsets[n])
                                    case Some(page) => page.data
                                    case None => [])
  }

  /** The largest count that a round's page declared. */
  function Declared(fetch: (nat, nat) -> Option<Page>, offsets: seq<nat>): int {
    if offsets == [] then 0 else
      var n := |offsets| - 1;
      Larger((match fetch(n, offsets[n])
              case Some(page) => page.count
              case None => 0), Declared(fetch, offsets[..n]))
  }

  /** No round declared more than that, and it is reached unless no round declared more than 0. */
  lemma {:induction false} DeclaredIsLargest(fetch: (nat, nat) -> Option<Page>, offsets: seq<nat>)
    ensures Declared(fetch, offsets) >= 0
    ensures forall k :: 0 <= k < |offsets| && fetch(k, offsets[k]).Some? ==> fetch(k, offsets[k]).value.count <= Declared(fetch, offsets)
    ensures Declared(fetch, offsets) > 0 ==> exists k ::
      0 <= k < |offsets| && fetch(k, offsets[k]).Some? && fetch(k, offsets[k]).value.count == Declared(fetch, offsets)
  {
    if offsets != [] {
      var n := |offsets| - 1;
      var front := offsets[..n];
      DeclaredIsLargest(fetch, front);
      assert forall k :: 0 <= k < n ==> offsets[k] == front[k];
      if Declared(fetch, offsets) > 0 && Declared(fetch, offsets) == Declared(fetch, front) {
        var k :| 0 <= k < n && fetch(k, front[k]).Some? && fetch(k, front[k]).value.count == Declared(fetch, front);
        assert fetch(k, offsets[k]).Some?;
      }
    }
  }

  /** Every round was answered, and asked for what follows the entries already taken. */
  ghost predicate Asked(fetch: (nat, nat) -> Option<Page>, offsets: seq<nat>) {
    forall k :: 0 <= k < |offsets| ==>
      fetch(k, offsets[k]).Some? && offsets[k] == |Taken(fetch, offsets[..k])|
  }

  lemma AskedMore(fetch: (nat, nat) -> Option<Page>, offsets: seq<nat>, offset: nat)
    requires Asked(fetch, offsets) && fetch(|offsets|, offset).Some?
    requires offset == |Taken(fetch, offsets)|
    ensures Asked(fetch, offsets + [offset])
    ensures var page := fetch(|offsets|, offset).value;
      && Taken(fetch, offsets + [offset]) == Taken(fetch, offsets) + page.data
      && Declared(fetch, offsets + [offset]) == Larger(page.count, Declared(fetch, offsets))
  {
    var more := offsets + [offset];
    assert more[..|offsets|] == offsets;
    forall k | 0 <= k < |more|
      ensures fetch(k, more[k]).Some? && more[k] == |Taken(fetch, more[..k])|
    {
      assert more[..k] == offsets[..k];
    }
  }

  lemma NoRounds(fetch: (nat, nat) -> Option<Page>)
    ensures Taken(fetch, []) == [] && Declared(fetch, []) == 0 && Asked(fetch, [])
  {
  }

  /** The last two rounds asked for the same entries and found none. */
  ghost predicate EndsEmpty(fetch: (nat, nat) -> Option<Page>, offsets: seq<nat>) {
    var n := |offsets|;
    && n >= 2 && offsets[n - 2] == offsets[n - 1]
    && (fetch(n - 2, offsets[n - 2]).Some? ==> fetch(n - 2, offsets[n - 2]).value.data == [])
    && (fetch(n - 1, offsets[n - 1]).Some? ==> fetch(n - 1, offsets[n - 1]).value.data == [])
  }

  /** The last round sent entries, and nothing new. */
  ghost predicate OnlyRepeats(fetch: (nat, nat) -> Option<Page>, offsets: seq<nat>) {
    var n := |offsets| - 1;
    && offsets != [] && |Taken(fetch, offsets)| > |Taken(fetch, offsets[..n])|
    && IDs(Taken(fetch, offsets)) == IDs(Taken(fetch, offsets[..n]))
  }

  /** The last round sent `n` entries, after the entries `before`. */
  ghost predicate LastRound(fetch: (nat, nat) -> Option<Page>, offsets: seq<nat>, n: nat, before: seq<FileEntry>) {
    offsets != [] && Taken(fetch, offsets[..|offsets| - 1]) == before && |Taken(fetch, offsets)| == |before| + n
  }

  /** The next request, for what follows the entries taken, was not answered. */
  ghost predicate NotAnswered(fetch: (nat, nat) -> Option<Page>, offsets: seq<nat>) {
    fetch(|offsets|, |Taken(fetch, offsets)|).None?
  }

  /** One request, remembered in `offsets`. */
  method Fetch(fetch: (nat, nat) -> Option<Page>, round: nat, offset: nat, expected: int, ghost offsets: seq<nat>)
    returns (page: Option<Page>, expectedCount: int, ghost offsets': seq<nat>)
    requires round == |offsets| && Asked(fetch, offsets) && offset == |Taken(fetch, offsets)|
    requires expected == Declared(fetch, offsets)
    ensures page == fetch(round, offset)
    ensures Asked(fetch, offsets') && offsets' == if page.Some? then offsets + [offset] else offsets
    ensures page.Some? ==> Taken(fetch, offsets') == Taken(fetch, offsets) + page.value.data
    ensures page.Some? ==> expectedCount == Declared(fetch, offsets') == Larger(page.value.count, expected)
  {
    page, expectedCount, offsets' := fetch(round, offset), expected, offsets;
    if page.Some? {
      AskedMore(fetch, offsets, offset);
      offsets' := offsets + [offset];
      if page.value.count > expectedCount {
        expectedCount := page.value.count;
      }
    }
  }

  /** A round of the loop: an empty page is asked for once more. */
  method FetchAgain(fetch: (nat, nat) -> Option<Page>, round: nat, offset: nat, expected: int,
                    ghost offsets: seq<nat>, ghost universe: set<string>, ghost items: seq<FileEntry>)
    returns (page: Option<Page>, round': nat, expectedCount: int, ghost offsets': seq<nat>)
    requires Within(fetch, universe)
    requires round == |offsets| && Asked(fetch, offsets) && offset == |Taken(fetch, offsets)|
    requires expected == Declared(fetch, offsets)
    ensures Asked(fetch, offsets')
    ensures page.Some? ==> round' == |offsets'| && expectedCount == Declared(fetch, offsets')
    ensures page.Some? ==> Taken(fetch, offsets') == Taken(fetch, offsets) + page.value.data
    ensures page.Some? ==> IDs(page.value.data) <= universe
    ensures page.None? ==> NotAnswered(fetch, offsets')
    ensures page.Some? ==> LastRound(fetch, offsets', |page.value.data|, Taken(fetch, offsets))
    ensures page.Some? && page.value.data == [] ==> EndsEmpty(fetch, offsets')
    ensures page.Some? && Stable(fetch, items) && StableSoFar(items, offset, Taken(fetch, offsets), expected)
      ==> StableRound(items, offset, Taken(fetch, offsets), page.value, expectedCount)
  {
    hide IDs, Stable, Within, Taken, Declared, Asked, StableSoFar, StableRound, Larger, EmptyPage, EntryID;
    EmptyPageIs(fetch, round, offset);
    EmptyPageIs(fetch, round + 1, offset);
    ghost var all := Taken(fetch, offsets);
    round' := round;
    page, expectedCount, offsets' := Fetch(fetch, round, offset, expected, offsets);
    if page.None? { return; }
    FetchFacts(fetch, universe, items, round, offset, all, expected);
    round' := round + 1;
    if page.value.data == [] {
      assert all + [] == all;
      ghost var declared := expectedCount;
      page, expectedCount, offsets' := Fetch(fetch, round', offset, expectedCount, offsets');
      if page.None? { return; }
      FetchFacts(fetch, universe, items, round', offset, all, declared);
      round' := round' + 1;
    }
    if page.Some? {
      EmptyTwice(fetch, items, round, offset, all, page.value, expectedCount);
    }
  }

  /** collectFullListPages, for any server whose ids are finitely many. */
  method Collect(fetch: (nat, nat) -> Option<Page>, ghost universe: set<string>, ghost items: seq<FileEntry>)
    returns (r: Outcome, ghost offsets: seq<nat>)
    requires Within(fetch, universe)
    ensures Asked(fetch, offsets)
    ensures r.Failed? ==> NotAnswered(fetch, offsets)
    ensures r.NoID? ==> "" in IDs(Taken(fetch, offsets))
    ensures r.Repeated? ==> OnlyRepeats(fetch, offsets)
    ensures r.Collected? || r.Incomplete? ==> EndsEmpty(fetch, offsets)
    ensures r.Collected? ==> r.items == Kept(Taken(fetch, offsets)) && "" !in IDs(Taken(fetch, offsets))
    ensures r.Collected? ==> Declared(fetch, offsets) <= |IDs(Taken(fetch, offsets))|
    ensures r.Incomplete? ==> r.expected == Declared(fetch, offsets) > r.got == |IDs(Taken(fetch, offsets))|
    ensures Stable(fetch, items) ==> r.Failed? || r == Collected(Kept(items))
  {
    hide EntryID, Kept, IDs, Stable, Within, Taken, Declared, Asked, StableSoFar, StableRound, EndsEmpty;
    var entries: seq<Item> := [];
    var offset, round := 0, 0;
    var expectedCount := 0;
    var seenIDs: set<string> := {};
    offsets := [];
    NoIDs();
    NoRounds(fetch);
    StableStart(items);
    while true
      invariant Asked(fetch, offsets) && round == |offsets|
      invariant expectedCount == Declared(fetch, offsets)
      invariant offset == |Taken(fetch, offsets)|
      invariant entries == Kept(Taken(fetch, offsets))
      invariant seenIDs == IDs(Taken(fetch, offsets)) && "" !in seenIDs && seenIDs <= universe
      invariant Stable(fetch, items) ==> StableSoFar(items, offset, Taken(fetch, offsets), expectedCount)
      decreases universe - seenIDs
    {
      ghost var all := Taken(fetch, offsets);
      var page;
      page, round, expectedCount, offsets := FetchAgain(fetch, round, offset, expectedCount, offsets, universe, items);
      if page.None? { return Failed, offsets; }
      StableGoesOn(fetch, items, offset, all, page.value, expectedCount);
      if page.value.data == [] {
        assert all + [] == all;
        if expectedCount > |seenIDs| {
          return Incomplete(expectedCount, |seenIDs|), offsets;
        }
        return Collected(entries), offsets;
      }
      ghost var before := seenIDs;
      IDsConcat(all, page.value.data);
      var ok, newIDs;
      ok, entries, seenIDs, newIDs := TakePage(page.value.data, entries, seenIDs, all);
      if !ok { return NoID, offsets; }
      if newIDs == 0 { return Repeated, offsets; }
      offset := offset + |page.value.data|;
      assert before < seenIDs <= universe;
    }
  }

  /** What a stable server has sent so far is how its list begins. */
  ghost predicate StableSoFar(items: seq<FileEntry>, offset: nat, all: seq<FileEntry>, expectedCount: int) {
    offset <= |items| && all == items[..offset] && expectedCount <= |items|
  }

  lemma EmptyPageIs(fetch: (nat, nat) -> Option<Page>, round: nat, offset: nat)
    ensures EmptyPage(fetch, round, offset) <==> fetch(round, offset).Some? && fetch(round, offset).value.data == []
  {
  }

  /** The second of two requests in a row tells the end of a stable server's list. */
  lemma EmptyTwice(fetch: (nat, nat) -> Option<Page>, items: seq<FileEntry>, round: nat, offset: nat,
                   all: seq<FileEntry>, page: Page, declared: int)
    requires page.data == [] ==> EmptyPage(fetch, round, offset) && EmptyPage(fetch, round + 1, offset)
    ensures Stable(fetch, items) && StablePage(items, offset, all, page, declared)
      ==> StableRound(items, offset, all, page, declared)
  {
    hide EntryID, EmptyPage;
  }

  lemma StableStart(items: seq<FileEntry>)
    ensures StableSoFar(items, 0, [], 0)
  {
  }

  /** What one answered round tells, in general and about a stable server. */
  lemma FetchFacts(fetch: (nat, nat) -> Option<Page>, universe: set<string>, items: seq<FileEntry>, round: nat,
                   offset: nat, all: seq<FileEntry>, declared: int)
    requires Within(fetch, universe) && fetch(round, offset).Some?
    ensures var page := fetch(round, offset).value;
      && IDs(page.data) <= universe
      && (Stable(fetch, items) && StableSoFar(items, offset, all, declared)
          ==> StablePage(items, offset, all, page, Larger(page.count, declared)))
  {
    hide EntryID, IDs, Larger;
    var page := fetch(round, offset).value;
    if Stable(fetch, items) && StableSoFar(items, offset, all, declared) {
      assert page.count <= |items| && page.data <= items[offset..];
      LargerBound(page.count, declared, |items|);
      if page.data != [] {
        StableIsNew(items, offset, page.data);
      }
    }
  }

  lemma LargerBound(a: int, b: int, bound: int)
    requires a <= bound && b <= bound
    ensures Larger(a, b) <= bound
  {
  }

  /** A round with a stable server: nothing at the end of the list, something new before it. */
  ghost predicate StableRound(items: seq<FileEntry>, offset: nat, all: seq<FileEntry>, page: Page, declared: int) {
    (page.data == [] ==> offset == |items|) && StablePage(items, offset, all, page, declared)
  }

  /** A page of a stable server: nothing, or what follows, which is new. */
  ghost predicate StablePage(items: seq<FileEntry>, offset: nat, all: seq<FileEntry>, page: Page, declared: int) {
    if page.data == [] then
      StableSoFar(items, offset, all, declared)
    else
      && StableSoFar(items, offset + |page.data|, all + page.data, declared)
      && "" !in IDs(page.data)
      && EntryID(page.data[0]) in IDs(page.data) && EntryID(page.data[0]) !in IDs(all)
  }

  /** What the loop needs to know of it: at its end the whole list was taken, before it there is a new id. */
  lemma StableGoesOn(fetch: (nat, nat) -> Option<Page>, items: seq<FileEntry>, offset: nat, all: seq<FileEntry>, page: Page, declared: int)
    ensures Stable(fetch, items) && StableRound(items, offset, all, page, declared) ==>
      if page.data == [] then
        all == items && |IDs(all)| == |items| && declared <= |items|
      else
        && StableSoFar(items, offset + |page.data|, all + page.data, declared)
        && "" !in IDs(page.data) && IDs(all) + IDs(page.data) != IDs(all)
  {
    hide EntryID, IDs;
    if Stable(fetch, items) && StableRound(items, offset, all, page, declared) {
      if page.data == [] {
        DistinctIDs(items);
        assert items[..|items|] == items;
      } else {
        assert EntryID(page.data[0]) in IDs(all) + IDs(page.data);
      }
    }
  }
}
