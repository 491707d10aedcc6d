/** internal/aiorganize/service.go: what is kept of the model's answers. */
module AiResults {
  import opened Parts
  import opened Text
  import opened AiWorks

  const MAX_TITLE := 200

  /** The media type hinted for each work; of works with the same id, the last one's. */
  function Hints(works: seq<Work>): map<string, string> {
    if works == [] then map[] else
      var last := works[|works| - 1];
      Hints(works[..|works| - 1])[last.id := last.mediaTypeHint]
  }

  lemma {:induction false} HintedIff(works: seq<Work>)
    ensures Hints(works).Keys == WorkIDs(works)
  {
    if works != [] {
      var front, last := works[..|works| - 1], works[|works| - 1];
      HintedIff(front);
      assert works == front + [last];
      assert WorkIDs(works) == WorkIDs(front) + {last.id};
    }
  }

  predicate IsMediaType(s: string) {
    s == "movie" || s == "tv"
  }

  function InRange(v: Option<int>, lo: int, hi: int): Option<int> {
    if v.Some? && (v.value < lo || v.value > hi) then None else v
  }

  /** One answer after cleaning. `lower` is strings.ToLower and `year` the current year. */
  function Cleaned(item: Item, hint: string, lower: string -> string, year: int): Item {
    var title, media := TrimSpace(item.title), lower(TrimSpace(item.mediaType));
    if !item.recognized || title == "" || |title| > MAX_TITLE then
      Item(item.id, false, "", "", None, "", None, [])
    else
      Item(item.id, true, title, TrimSpace(item.originalTitle), InRange(item.year, 1870, year + 3),
           if IsMediaType(media) then media else if IsMediaType(hint) then hint else "movie",
           InRange(item.season, 0, 100), [])
  }

  /** The answers that are the first about a work that was asked about. */
  function FirstKnown(works: seq<Work>, items: seq<Item>): (kept: seq<Item>) {
    if items == [] then [] else
      var kept, item := FirstKnown(works, items[..|items| - 1]), items[|items| - 1];
      if item.id in Hints(works) && item.id !in ItemIDs(kept) then kept + [item] else kept
  }

  function HintOr(works: seq<Work>, id: string): string {
    if id in Hints(works) then Hints(works)[id] else ""
  }

  function CleanedAll(works: seq<Work>, kept: seq<Item>, lower: string -> string, year: int): seq<Item> {
    seq(|kept|, k requires 0 <= k < |kept| => Cleaned(kept[k], HintOr(works, kept[k].id), lower, year))
  }

  function Validated(works: seq<Work>, items: seq<Item>, lower: string -> string, year: int): seq<Item> {
    CleanedAll(works, FirstKnown(works, items), lower, year)
  }

  /** Answer i is the first about its work, which was asked about. */
  ghost predicate FirstAbout(works: seq<Work>, items: seq<Item>, i: nat) {
    && i < |items|
    && (exists w :: w in works && w.id == items[i].id)
    && forall j :: 0 <= j < i ==> items[j].id != items[i].id
  }

  /** Exactly the positions of first answers, in order. */
  ghost predicate FirstAnswers(works: seq<Work>, items: seq<Item>, from: seq<nat>) {
    && (forall k :: 0 <= k < |from| ==> FirstAbout(works, items, from[k]))
    && (forall k, l :: 0 <= k < l < |from| ==> from[k] < from[l])
    && (forall i: nat :: FirstAbout(works, items, i) ==> i in from)
  }

  /** Work j is the last with its id. */
  ghost predicate LastWork(works: seq<Work>, id: string, j: nat) {
    j < |works| && works[j].id == id && forall l :: j < l < |works| ==> works[l].id != id
  }

  ghost predicate KeptWithin(before: Option<int>, after: Option<int>, lo: int, hi: int) {
    && (before.Some? && lo <= before.value <= hi ==> after == before)
    && (before.Some? && (before.value < lo || hi < before.value) ==> after.None?)
    && (before.None? ==> after.None?)
  }

  /** What a kept answer is, from the answer given: recognised exactly when that was and its trimmed title has
      1 to 200 characters; and then with its trimmed texts, its numbers where they are in range, and as media
      type the lowered one, or the hint, or "movie". */
  ghost predicate KeptFrom(given: Item, hint: string, lower: string -> string, year: int, kept: Item) {
    var media := lower(TrimSpace(given.mediaType));
    if given.recognized && 1 <= |TrimSpace(given.title)| <= 200 then
      && kept.id == given.id && kept.recognized && kept.files == []
      && kept.title == TrimSpace(given.title) && kept.originalTitle == TrimSpace(given.originalTitle)
      && KeptWithin(given.year, kept.year, 1870, year + 3) && KeptWithin(given.season, kept.season, 0, 100)
      && (media == "movie" || media == "tv" ==> kept.mediaType == media)
      && (media != "movie" && media != "tv" && (hint == "movie" || hint == "tv") ==> kept.mediaType == hint)
      && (media != "movie" && media != "tv" && hint != "movie" && hint != "tv" ==> kept.mediaType == "movie")
    else
      kept == Item(given.id, false, "", "", None, "", None, [])
  }

  /** Each kept answer is what its first answer becomes, under the hint of the last work with the id. */
  ghost predicate AllKeptFrom(works: seq<Work>, items: seq<Item>, lower: string -> string, year: int, from: seq<nat>, out: seq<Item>)
    requires forall k :: 0 <= k < |from| ==> from[k] < |items|
  {
    && |out| == |from|
    && forall k, j: nat :: 0 <= k < |out| && LastWork(works, items[from[k]].id, j) ==>
         KeptFrom(items[from[k]], works[j].mediaTypeHint, lower, year, out[k])
  }

  lemma CleanedIsKept(given: Item, hint: string, lower: string -> string, year: int)
    ensures KeptFrom(given, hint, lower, year, Cleaned(given, hint, lower, year))
  {
    hide TrimSpace;
  }

  lemma {:induction false} HintIsLast(works: seq<Work>, id: string, j: nat)
    requires LastWork(works, id, j)
    ensures id in Hints(works) && Hints(works)[id] == works[j].mediaTypeHint
  {
    if j < |works| - 1 {
      HintIsLast(works[..|works| - 1], id, j);
    }
  }

  lemma FirstAboutMore(works: seq<Work>, items: seq<Item>, i: nat)
    requires items != [] && i < |items|
    ensures i < |items| - 1 ==> (FirstAbout(works, items, i) <==> FirstAbout(works, items[..|items| - 1], i))
    ensures i == |items| - 1 ==> (FirstAbout(works, items, i)
      <==> items[i].id in WorkIDs(works) && items[i].id !in ItemIDs(items[..|items| - 1]))
  {
    var front := items[..|items| - 1];
    if i == |items| - 1 {
      assert forall j :: 0 <= j < |front| ==> front[j] in front;
    }
  }

  lemma FirstAnswersMore(works: seq<Work>, items: seq<Item>, front: seq<nat>)
    requires items != [] && FirstAnswers(works, items[..|items| - 1], front)
    ensures FirstAnswers(works, items, front + (if FirstAbout(works, items, |items| - 1) then [|items| - 1] else []))
  {
    var n := |items| - 1;
    var from := front + (if FirstAbout(works, items, n) then [n] else []);
    forall i: nat | i < n
      ensures FirstAbout(works, items, i) <==> FirstAbout(works, items[..n], i)
    {
      FirstAboutMore(works, items, i);
    }
    NotAbout(works, items[..n]);
    NotAbout(works, items);
    hide FirstAbout;
    forall i: nat | FirstAbout(works, items, i)
      ensures i in from
    {
      if i < n {
        assert i in front;
      }
    }
  }

  /** The answers kept are those at the positions of first answers. */
  lemma {:induction false} FirstKnownAt(works: seq<Work>, items: seq<Item>) returns (from: seq<nat>)
    ensures FirstAnswers(works, items, from) && |FirstKnown(works, items)| == |from|
    ensures forall k :: 0 <= k < |from| ==> from[k] < |items| && FirstKnown(works, items)[k] == items[from[k]]
  {
    hide Hints, WorkIDs, ItemIDs, FirstAbout, FirstAnswers;
    if items == [] {
      from := [];
      NoFirst(works);
    } else {
      var n := |items| - 1;
      var front := FirstKnownAt(works, items[..n]);
      HintedIff(works);
      KnownIDs(works, items[..n]);
      InBoth(ItemIDs(items[..n]), WorkIDs(works), items[n].id);
      FirstAboutMore(works, items, n);
      FirstAnswersMore(works, items, front);
      from := front + (if FirstAbout(works, items, n) then [n] else []);
    }
  }

  lemma InBoth(a: set<string>, b: set<string>, id: string)
    ensures id in b ==> (id in a * b <==> id in a)
  {
  }

  lemma NoFirst(works: seq<Work>)
    ensures FirstAnswers(works, [], [])
  {
  }

  lemma NotAbout(works: seq<Work>, items: seq<Item>)
    ensures forall i: nat :: FirstAbout(works, items, i) ==> i < |items|
  {
  }

  lemma ValidatedFrom(works: seq<Work>, items: seq<Item>, lower: string -> string, year: int) returns (from: seq<nat>)
    ensures FirstAnswers(works, items, from) && forall k :: 0 <= k < |from| ==> from[k] < |items|
    ensures AllKeptFrom(works, items, lower, year, from, Validated(works, items, lower, year))
  {
    hide Cleaned, Hints, KeptFrom, FirstAnswers;
    from := FirstKnownAt(works, items);
    var kept, out := FirstKnown(works, items), Validated(works, items, lower, year);
    forall k, j: nat | 0 <= k < |out| && LastWork(works, items[from[k]].id, j)
      ensures KeptFrom(items[from[k]], works[j].mediaTypeHint, lower, year, out[k])
    {
      HintIsLast(works, kept[k].id, j);
      CleanedIsKept(kept[k], works[j].mediaTypeHint, lower, year);
    }
  }

  /** validateResults. */
  method ValidateResults(works: seq<Work>, items: seq<Item>, lower: string -> string, year: int)
    returns (out: seq<Item>, ghost from: seq<nat>)
    ensures FirstAnswers(works, items, from) && forall k :: 0 <= k < |from| ==> from[k] < |items|
    ensures AllKeptFrom(works, items, lower, year, from, out)
    ensures out == Validated(works, items, lower, year)
  {
    hide FirstAnswers, AllKeptFrom, Cleaned, CleanedAll, FirstKnown, Hints, WorkIDs, ItemIDs, TrimSpace, Validated, HintOr;
    var allowed: map<string, string> := map[];
    NoHints();
    for k := 0 to |works|
      invariant allowed == Hints(works[..k])
    {
      HintsMore(works, k);
      allowed := allowed[works[k].id := works[k].mediaTypeHint];
    }
    assert works[..|works|] == works;
    out := [];
    var seen: set<string> := {};
    NothingKept(works, items, lower, year);
    for k := 0 to |items|
      invariant out == Validated(works, items[..k], lower, year)
      invariant seen == ItemIDs(FirstKnown(works, items[..k]))
    {
      var item := items[k];
      ValidatedMore(works, items, k, lower, year);
      if item.id in allowed && item.id !in seen {
        seen := seen + {item.id};
        var cleaned := Clean(item, allowed[item.id], lower, year);
        out := out + [cleaned];
      }
    }
    assert items[..|items|] == items;
    from := ValidatedFrom(works, items, lower, year);
  }

  /** The body of the loop of validateResults on one item. */
  method Clean(item: Item, hint: string, lower: string -> string, year: int) returns (r: Item)
    ensures r == Cleaned(item, hint, lower, year) && KeptFrom(item, hint, lower, year, r)
  {
    CleanedIsKept(item, hint, lower, year);
    hide TrimSpace, IsMediaType, KeptFrom;
    var title := TrimSpace(item.title);
    var media := lower(TrimSpace(item.mediaType));
    if !item.recognized || title == "" || |title| > MAX_TITLE {
      return Item(item.id, false, "", "", None, "", None, []);
    }
    if !IsMediaType(media) {
      media := hint;
      if !IsMediaType(media) {
        media := "movie";
      }
    }
    var aired, season := item.year, item.season;
    if aired.Some? && (aired.value < 1870 || aired.value > year + 3) {
      aired := None;
    }
    if season.Some? && (season.value < 0 || season.value > 100) {
      season := None;
    }
    r := Item(item.id, true, title, TrimSpace(item.originalTitle), aired, media, season, []);
  }

  lemma NoHints()
    ensures Hints([]) == map[]
  {
  }

  lemma HintsMore(works: seq<Work>, k: nat)
    requires k < |works|
    ensures Hints(works[..k + 1]) == Hints(works[..k])[works[k].id := works[k].mediaTypeHint]
  {
    assert works[..k + 1][..k] == works[..k];
  }

  lemma NothingKept(works: seq<Work>, items: seq<Item>, lower: string -> string, year: int)
    ensures Validated(works, items[..0], lower, year) == [] && ItemIDs(FirstKnown(works, items[..0])) == {}
  {
  }

  lemma ValidatedMore(works: seq<Work>, items: seq<Item>, k: nat, lower: string -> string, year: int)
    requires k < |items|
    ensures var kept, item := FirstKnown(works, items[..k]), items[k];
      var take := item.id in Hints(works) && item.id !in ItemIDs(kept);
      && ItemIDs(FirstKnown(works, items[..k + 1])) == ItemIDs(kept) + (if take then {item.id} else {})
      && Validated(works, items[..k + 1], lower, year) == Validated(works, items[..k], lower, year)
         + (if take then [Cleaned(item, Hints(works)[item.id], lower, year)] else [])
  {
    hide Cleaned, Hints;
    var kept, item := FirstKnown(works, items[..k]), items[k];
    assert items[..k + 1][..k] == items[..k];
    MoreIDs(kept, item);
    assert ItemIDs(kept) + {} == ItemIDs(kept);
  }

  lemma MoreIDs(kept: seq<Item>, item: Item)
    ensures ItemIDs(kept + [item]) == ItemIDs(kept) + {item.id}
  {
  }

  lemma {:induction false} KnownIDs(works: seq<Work>, items: seq<Item>)
    ensures ItemIDs(FirstKnown(works, items)) == ItemIDs(items) * WorkIDs(works)
  {
    HintedIff(works);
    hide Hints, WorkIDs, ItemIDs;
    NoIDs();
    if items != [] {
      var front, item := items[..|items| - 1], items[|items| - 1];
      KnownIDs(works, front);
      assert items == front + [item];
      MoreIDs(front, item);
      MoreIDs(FirstKnown(works, front), item);
    }
  }

  lemma NoIDs()
    ensures ItemIDs([]) == {}
  {
  }

  /** What every kept answer looks like. */
  predicate Clean1(item: Item, year: int) {
    if item.recognized then
      && Trimmed(item.title) && 1 <= |item.title| <= MAX_TITLE && Trimmed(item.originalTitle)
      && IsMediaType(item.mediaType) && item.files == []
      && (item.year.Some? ==> 1870 <= item.year.value <= year + 3)
      && (item.season.Some? ==> 0 <= item.season.value <= 100)
    else
      item == Item(item.id, false, "", "", None, "", None, [])
  }

  /** Cleaning changes exactly the answers that are not clean. `lower` must keep the two media types. */
  lemma CleanedIff(item: Item, hint: string, lower: string -> string, year: int)
    requires lower("movie") == "movie" && lower("tv") == "tv"
    ensures Clean1(Cleaned(item, hint, lower, year), year)
    ensures Cleaned(item, hint, lower, year) == item <==> Clean1(item, year)
  {
    TrimIsIdentityIff(item.title);
    TrimIsIdentityIff(item.originalTitle);
    if IsMediaType(item.mediaType) {
      TrimIsIdentityIff(item.mediaType);
    }
    hide TrimSpace;
  }

  /** At most one answer a work, none for a work not asked about, every one clean, and one for each work the
      model answered. */
  lemma ValidatedIsSound(works: seq<Work>, items: seq<Item>, lower: string -> string, year: int)
    requires lower("movie") == "movie" && lower("tv") == "tv"
    ensures var out := Validated(works, items, lower, year);
      && DistinctItems(out) && ItemIDs(out) == ItemIDs(items) * WorkIDs(works)
      && (forall k :: 0 <= k < |out| ==> Clean1(out[k], year))
  {
    var kept := FirstKnown(works, items);
    FirstKnownDistinct(works, items);
    KnownIDs(works, items);
    SameIDs(CleanedAll(works, kept, lower, year), kept);
    CleanedAllIsClean(works, kept, lower, year);
  }

  lemma SameIDs(a: seq<Item>, b: seq<Item>)
    requires |a| == |b| && forall k :: 0 <= k < |a| ==> a[k].id == b[k].id
    ensures ItemIDs(a) == ItemIDs(b)
    ensures DistinctItems(a) <==> DistinctItems(b)
  {
    forall id | id in ItemIDs(a) + ItemIDs(b)
      ensures id in ItemIDs(a) && id in ItemIDs(b)
    {
      var k :| 0 <= k < |a| && (a[k].id == id || b[k].id == id);
      assert a[k] in a && b[k] in b;
    }
  }

  lemma {:induction false} FirstKnownDistinct(works: seq<Work>, items: seq<Item>)
    ensures DistinctItems(FirstKnown(works, items))
  {
    if items != [] {
      var front, item := items[..|items| - 1], items[|items| - 1];
      FirstKnownDistinct(works, front);
      var kept := FirstKnown(works, front);
      if item.id !in ItemIDs(kept) {
        forall k | 0 <= k < |kept|
          ensures kept[k].id != item.id
        {
          assert kept[k] in kept;
        }
      }
    }
  }

  lemma CleanedAllIsClean(works: seq<Work>, kept: seq<Item>, lower: string -> string, year: int)
    requires lower("movie") == "movie" && lower("tv") == "tv"
    ensures forall k :: 0 <= k < |kept| ==> Clean1(CleanedAll(works, kept, lower, year)[k], year)
  {
    hide Cleaned, Clean1;
    forall k | 0 <= k < |kept|
      ensures Clean1(CleanedAll(works, kept, lower, year)[k], year)
    {
      CleanedIff(kept[k], HintOr(works, kept[k].id), lower, year);
    }
  }

  /** Of the answers about one work, the first one is kept. */
  lemma {:induction false} FirstAnswerKept(works: seq<Work>, items: seq<Item>, k: nat)
    requires k < |items| && items[k].id in WorkIDs(works)
    requires forall j :: 0 <= j < k ==> items[j].id != items[k].id
    ensures items[k] in FirstKnown(works, items)
    decreases |items|
  {
    hide Hints;
    var front := items[..|items| - 1];
    HintedIff(works);
    KnownIDs(works, front);
    if k < |front| {
      FirstAnswerKept(works, front, k);
    } else {
      assert items[k].id !in ItemIDs(front);
    }
  }

  /** Validating twice is validating once. */
  lemma ValidatedTwice(works: seq<Work>, items: seq<Item>, lower: string -> string, year: int)
    requires lower("movie") == "movie" && lower("tv") == "tv"
    ensures var out := Validated(works, items, lower, year);
      Validated(works, out, lower, year) == out
  {
    var out := Validated(works, items, lower, year);
    hide Validated, CleanedAll, FirstKnown, Clean1;
    ValidatedIsSound(works, items, lower, year);
    DistinctKnownKept(works, out);
    CleanKept(works, out, lower, year);
    ValidatedMeans(works, out, lower, year);
  }

  lemma ValidatedMeans(works: seq<Work>, items: seq<Item>, lower: string -> string, year: int)
    ensures Validated(works, items, lower, year) == CleanedAll(works, FirstKnown(works, items), lower, year)
  {
  }

  lemma {:induction false} DistinctKnownKept(works: seq<Work>, items: seq<Item>)
    requires DistinctItems(items) && ItemIDs(items) <= WorkIDs(works)
    ensures FirstKnown(works, items) == items
  {
    hide Hints;
    HintedIff(works);
    if items != [] {
      var front, item := items[..|items| - 1], items[|items| - 1];
      assert items == front + [item];
      MoreIDs(front, item);
      DistinctKnownKept(works, front);
      assert item.id !in ItemIDs(front);
    }
  }

  lemma CleanKept(works: seq<Work>, items: seq<Item>, lower: string -> string, year: int)
    requires lower("movie") == "movie" && lower("tv") == "tv"
    requires forall k :: 0 <= k < |items| ==> Clean1(items[k], year)
    ensures CleanedAll(works, items, lower, year) == items
  {
    hide Cleaned, Clean1;
    forall k | 0 <= k < |items|
      ensures CleanedAll(works, items, lower, year)[k] == items[k]
    {
      CleanedIff(items[k], HintOr(works, items[k].id), lower, year);
    }
  }
}
