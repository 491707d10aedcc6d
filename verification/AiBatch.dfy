/** internal/aiorganize/service.go: a whole request, from the cache through the chunks to the merged result. */
module AiBatch {
  import opened Parts
  import opened AiWorks
  import opened AiChunks
  import opened AiRecognition
  import opened AiResults
  import opened AiCache

  /** What a request meets: the model's answers by call number, the encoded length of a work, the base URL and
      model configured, strings.ToLower, the clock by reading and the current year. */
  datatype Outside = Outside(calls: nat -> Attempt, encoded: Work -> nat, config: string,
                             lower: string -> string, clock: nat -> int, year: int)

  /** SHA-256 of the JSON of a configuration and a work, in hexadecimal. */
  type Digest = (string, Work) -> string

  datatype Progress = Progress(total: nat, completed: nat, cached: nat, failed: nat, chunk: nat, chunks: nat,
                               batchSize: nat, splitDepth: nat)

  datatype Result = Result(items: seq<Item>, cached: nat, failed: nat)

  function Fingerprint(digest: Digest, config: string, work: Work): string {
    digest(config, work.(id := ""))
  }

  ghost predicate Injective(digest: Digest) {
    forall c, v, d, w :: digest(c, v) == digest(d, w) ==> c == d && v == w
  }

  /** The works agree in all that the model is shown but the id, a position in one request. */
  ghost predicate SameButID(v: Work, w: Work) {
    v.mediaTypeHint == w.mediaTypeHint && v.files == w.files && v.info == w.info
  }

  /** Works share a cache key exactly when they were asked about under one configuration and agree up to
      their ids. */
  lemma FingerprintIff(digest: Digest, c: string, v: Work, d: string, w: Work)
    requires Injective(digest)
    ensures Fingerprint(digest, c, v) == Fingerprint(digest, d, w) <==> c == d && SameButID(v, w)
  {
    if c == d && SameButID(v, w) {
      assert v.(id := "") == w.(id := "");
    }
  }

  /** The report before a call. */
  function ReportOf(now: Progress, call: Asked): Progress {
    now.(batchSize := if call.start <= call.end then call.end - call.start else 0, splitDepth := call.depth)
  }

  /** The report after a chunk. */
  function DoneReport(first: Progress, processed: nat, failed: nat, chunk: nat, chunks: nat): Progress {
    Progress(first.total, first.cached + processed, first.cached, failed, chunk, chunks, 0, 0)
  }

  // ---- the cached works ----

  /** The cached answers, each under the id of the work it was found for. */
  function Hits(works: seq<Work>, found: seq<Option<Item>>): seq<Item>
    requires |works| == |found|
  {
    if works == [] then [] else
      var n := |works| - 1;
      Hits(works[..n], found[..n])
      + (match found[n]
         case Some(item) => [item.(id := works[n].id)]
         case None => [])
  }

  function Misses(works: seq<Work>, found: seq<Option<Item>>): seq<Work>
    requires |works| == |found|
  {
    if works == [] then [] else
      var n := |works| - 1;
      Misses(works[..n], found[..n]) + (if found[n].None? then [works[n]] else [])
  }

  // ---- the chunks ----

  /** What the chunks so far have added: the validated items, the failed works, the works of answered batches,
      the first error, how many chunks had items, and the state of the calls. */
  datatype Run = Run(items: seq<Item>, failed: nat, answered: int, err: Failure, chunksWithItems: nat,
                     next: nat, cancelled: bool)

  function RunChunks(chunks: seq<seq<Work>>, out: Outside): Run {
    if chunks == [] then Run([], 0, 0, NoError, 0, 0, false) else
      var chunk := chunks[|chunks| - 1];
      AfterChunk(RunChunks(chunks[..|chunks| - 1], out), chunk, out)
  }

  function AfterChunk(before: Run, chunk: seq<Work>, out: Outside): Run {
    var o := Recognize(0, |chunk|, 0, out.calls, before.next, before.cancelled);
    Run(before.items + Validated(chunk, o.items, out.lower, out.year), before.failed + o.failed,
        before.answered + Works(o.answered), if before.err == NoError then o.err else before.err,
        before.chunksWithItems + (if |o.items| > 0 then 1 else 0), o.next, o.cancelled)
  }

  lemma RunMore(chunks: seq<seq<Work>>, k: nat, out: Outside)
    requires k < |chunks|
    ensures RunChunks(chunks[..k + 1], out) == AfterChunk(RunChunks(chunks[..k], out), chunks[k], out)
  {
    assert chunks[..k + 1][..k] == chunks[..k];
  }

  lemma NoRun(out: Outside)
    ensures RunChunks([], out) == Run([], 0, 0, NoError, 0, 0, false)
  {
  }

  ghost predicate NonemptyChunks(chunks: seq<seq<Work>>) {
    forall k :: 0 <= k < |chunks| ==> |chunks[k]| >= 1
  }

  /** Over all chunks the failed works and the works of answered batches are the works of the chunks, and a
      run without failed works is one without an error. */
  lemma {:induction false} RunAccounts(chunks: seq<seq<Work>>, out: Outside)
    requires NonemptyChunks(chunks)
    ensures var run := RunChunks(chunks, out);
      run.failed + run.answered == |Flatten(chunks)| && (run.err == NoError <==> run.failed == 0)
  {
    hide Recognize, Validated;
    if chunks != [] {
      var before := RunChunks(chunks[..|chunks| - 1], out);
      RunAccounts(chunks[..|chunks| - 1], out);
      FailedAndAnsweredAreAll(0, |chunks[|chunks| - 1]|, 0, out.calls, before.next, before.cancelled);
    }
  }

  /** How the recognition of chunk `c` ends, after the chunks before it. */
  function ChunkOutcome(chunks: seq<seq<Work>>, c: nat, out: Outside): Outcome
    requires c < |chunks|
  {
    var before := RunChunks(chunks[..c], out);
    Recognize(0, |chunks[c]|, 0, out.calls, before.next, before.cancelled)
  }

  /** Chunk `c` is the first to end in an error. */
  ghost predicate FirstFailing(chunks: seq<seq<Work>>, c: nat, out: Outside) {
    && c < |chunks| && ChunkOutcome(chunks, c, out).err != NoError
    && forall b: nat :: b < c ==> ChunkOutcome(chunks, b, out).err == NoError
  }

  ghost predicate NoneFails(chunks: seq<seq<Work>>, out: Outside) {
    forall c: nat :: c < |chunks| ==> ChunkOutcome(chunks, c, out).err == NoError
  }

  lemma OutcomeInFront(chunks: seq<seq<Work>>, c: nat, out: Outside)
    requires c < |chunks| - 1
    ensures ChunkOutcome(chunks, c, out) == ChunkOutcome(chunks[..|chunks| - 1], c, out)
  {
    assert chunks[..|chunks| - 1][..c] == chunks[..c];
  }

  /** The error of the run is that of the first chunk that failed. */
  lemma {:induction false} RunErrorIsFirst(chunks: seq<seq<Work>>, out: Outside)
    ensures RunChunks(chunks, out).err == NoError <==> NoneFails(chunks, out)
    ensures forall c: nat :: FirstFailing(chunks, c, out) ==> RunChunks(chunks, out).err == ChunkOutcome(chunks, c, out).err
  {
    hide Recognize, Validated;
    if chunks != [] {
      var n: nat := |chunks| - 1;
      var front := chunks[..n];
      RunErrorIsFirst(front, out);
      forall c: nat | c < n
        ensures ChunkOutcome(chunks, c, out) == ChunkOutcome(front, c, out)
      {
        OutcomeInFront(chunks, c, out);
      }
      assert RunChunks(front, out).err == NoError ==> RunChunks(chunks, out).err == ChunkOutcome(chunks, n, out).err;
      forall c: nat | FirstFailing(chunks, c, out)
        ensures RunChunks(chunks, out).err == ChunkOutcome(chunks, c, out).err
      {
        if c < n {
          assert FirstFailing(front, c, out);
        }
      }
    }
  }

  ghost predicate FewCalls(chunks: seq<seq<Work>>, c: nat, out: Outside)
    requires c < |chunks|
  {
    ChunkOutcome(chunks, c, out).next <= RunChunks(chunks[..c], out).next + 3
  }

  ghost predicate CancelledAmong(out: Outside, from: nat, end: nat) {
    exists k: nat :: from <= k < end && out.calls(k).cancelled
  }

  /** The calls of the run are those from 0 to before `next`, and the request is cancelled in the end exactly
      when it was by the time one of them ended; from then on a chunk takes at most three calls. */
  lemma {:induction false} RunCancelledIff(chunks: seq<seq<Work>>, out: Outside)
    requires NonemptyChunks(chunks)
    ensures var run := RunChunks(chunks, out);
      run.cancelled <==> CancelledAmong(out, 0, run.next)
    ensures forall c: nat :: c < |chunks| && RunChunks(chunks[..c], out).cancelled ==> FewCalls(chunks, c, out)
  {
    hide Recognize, Validated, RunChunks;
    if chunks == [] {
      NoRun(out);
    } else {
      var n: nat := |chunks| - 1;
      RunCancelledIff(chunks[..n], out);
      RunMore(chunks, n, out);
      assert chunks[..n + 1] == chunks;
      ChunkCancelled(|chunks[n]|, RunChunks(chunks[..n], out), out);
    }
    forall c: nat | c < |chunks| && RunChunks(chunks[..c], out).cancelled
      ensures FewCalls(chunks, c, out)
    {
      ChunkCancelled(|chunks[c]|, RunChunks(chunks[..c], out), out);
    }
  }

  lemma ChunkCancelled(n: nat, before: Run, out: Outside)
    requires n >= 1
    ensures var o := Recognize(0, n, 0, out.calls, before.next, before.cancelled);
      && before.next <= o.next
      && (o.cancelled <==> before.cancelled || CancelledAmong(out, before.next, o.next))
      && (before.cancelled ==> o.next <= before.next + 3)
  {
    hide Recognize, FollowedRight;
    CallsAreBounded(0, n, 0, out.calls, before.next, before.cancelled);
    HalvedExactly(0, n, 0, out.calls, before.next, before.cancelled);
    var o := Recognize(0, n, 0, out.calls, before.next, before.cancelled);
    if c :| c in o.asked && out.calls(c.attempt).cancelled {
      assert before.next <= c.attempt < o.next;
    }
    if k: nat :| before.next <= k < o.next && out.calls(k).cancelled {
      assert o.asked[k - before.next] in o.asked && o.asked[k - before.next].attempt == k;
    }
  }

  lemma DistinctFront(a: seq<Work>, b: seq<Work>)
    requires DistinctWorks(a + b)
    ensures DistinctWorks(a) && DistinctWorks(b) && WorkIDs(a) !! WorkIDs(b)
    ensures WorkIDs(a + b) == WorkIDs(a) + WorkIDs(b)
  {
    var all := a + b;
    forall i, j | 0 <= i < |a| && 0 <= j < |b|
      ensures a[i].id != b[j].id
    {
      assert all[i] == a[i] && all[|a| + j] == b[j];
    }
    forall i, j | 0 <= i < j < |a|
      ensures a[i].id != a[j].id
    {
      assert all[i] == a[i] && all[j] == a[j];
    }
    forall i, j | 0 <= i < j < |b|
      ensures b[i].id != b[j].id
    {
      assert all[|a| + i] == b[i] && all[|a| + j] == b[j];
    }
  }

  lemma BothDistinct(a: seq<Item>, b: seq<Item>)
    requires DistinctItems(a) && DistinctItems(b) && ItemIDs(a) !! ItemIDs(b)
    ensures DistinctItems(a + b) && ItemIDs(a + b) == ItemIDs(a) + ItemIDs(b)
  {
    var all := a + b;
    forall i, j | 0 <= i < j < |all|
      ensures all[i].id != all[j].id
    {
      if i < |a| <= j {
        assert a[i] in a && b[j - |a|] in b;
        assert a[i].id in ItemIDs(a) && b[j - |a|].id in ItemIDs(b);
      }
    }
  }

  /** The recognised items: at most one a work of the chunks, and none foreign. */
  lemma {:induction false} RunItems(chunks: seq<seq<Work>>, out: Outside)
    requires DistinctWorks(Flatten(chunks))
    requires out.lower("movie") == "movie" && out.lower("tv") == "tv"
    ensures DistinctItems(RunChunks(chunks, out).items)
    ensures ItemIDs(RunChunks(chunks, out).items) <= WorkIDs(Flatten(chunks))
  {
    hide Recognize, Validated, DistinctWorks, DistinctItems, WorkIDs, ItemIDs;
    if chunks == [] {
      NoItems();
    } else {
      var front, chunk := chunks[..|chunks| - 1], chunks[|chunks| - 1];
      var before := RunChunks(front, out);
      var o := Recognize(0, |chunk|, 0, out.calls, before.next, before.cancelled);
      DistinctFront(Flatten(front), chunk);
      RunItems(front, out);
      ValidatedIsSound(chunk, o.items, out.lower, out.year);
      BothDistinct(before.items, Validated(chunk, o.items, out.lower, out.year));
    }
  }

  lemma NoItems()
    ensures DistinctItems([]) && ItemIDs([]) == {}
  {
  }

  /** No call's answer names a failed work, which it was not asked about. */
  ghost predicate NamesNoFailed(works: seq<Work>, asked: seq<Asked>, calls: nat -> Attempt) {
    forall a, k: nat ::
      a in asked && calls(a.attempt).answer.Answered? && k < |works| && !(a.start <= k < a.end) && FailedWork(asked, calls, k)
      ==> works[k].id !in ItemIDs(calls(a.attempt).answer.items)
  }

  /** No failed work is among the recognised items. */
  ghost predicate NoneFailed(works: seq<Work>, asked: seq<Asked>, calls: nat -> Attempt, items: seq<Item>) {
    forall k: nat :: k < |works| && FailedWork(asked, calls, k) ==> works[k].id !in ItemIDs(items)
  }

  lemma {:induction false} AnswerNames(batches: seq<Batch>, calls: nat -> Attempt, id: string)
    ensures id in ItemIDs(AnswersOf(batches, calls)) <==> exists b :: b in batches && AnswerHas(calls(b.attempt).answer, id)
  {
    hide ItemIDs;
    if batches == [] {
      NoItems();
    } else {
      var first := calls(batches[0].attempt).answer;
      AnswerNames(batches[1..], calls, id);
      JoinedIDs(if first.Answered? then first.items else [], AnswersOf(batches[1..], calls));
      NoItems();
      assert batches == [batches[0]] + batches[1..];
    }
  }

  ghost predicate AnswerHas(answer: Answer, id: string) {
    answer.Answered? && id in ItemIDs(answer.items)
  }

  lemma JoinedIDs(a: seq<Item>, b: seq<Item>)
    ensures ItemIDs(a + b) == ItemIDs(a) + ItemIDs(b)
  {
  }

  /** An id is among a chunk's items exactly when the answer to some call names it. */
  lemma NamedBySome(asked: seq<Asked>, calls: nat -> Attempt, id: string)
    ensures id in ItemIDs(AnswersOf(AnsweredOf(asked, calls), calls))
      <==> exists a :: a in asked && AnswerHas(calls(a.attempt).answer, id)
  {
    hide ItemIDs, AnswersOf, AnsweredOf;
    var batches := AnsweredOf(asked, calls);
    AnswerNames(batches, calls, id);
    if b :| b in batches && AnswerHas(calls(b.attempt).answer, id) {
      AnsweredMember(asked, calls, b);
    }
    if a :| a in asked && AnswerHas(calls(a.attempt).answer, id) {
      AnsweredMember(asked, calls, Batch(a.start, a.end, a.attempt));
    }
  }

  /** No failed work is recognised if and only if no call's answer names one. The condition speaks of each call
      made, the stretch it asked about and the ids it answered. */
  lemma NoFailedRecognisedIff(works: seq<Work>, out: Outside, next: nat, cancelled: bool)
    requires |works| >= 1
    requires out.lower("movie") == "movie" && out.lower("tv") == "tv"
    ensures var o := Recognize(0, |works|, 0, out.calls, next, cancelled);
      NoneFailed(works, o.asked, out.calls, Validated(works, o.items, out.lower, out.year))
      <==> NamesNoFailed(works, o.asked, out.calls)
  {
    hide Recognize, Validated, ItemIDs, WorkIDs, AnswersOf, AnsweredOf, FailedWork;
    var o := Recognize(0, |works|, 0, out.calls, next, cancelled);
    BatchesInOrder(0, |works|, 0, out.calls, next, cancelled);
    AnsweredAreAsked(0, |works|, 0, out.calls, next, cancelled);
    ValidatedIsSound(works, o.items, out.lower, out.year);
    var valid := Validated(works, o.items, out.lower, out.year);
    forall k: nat | k < |works| && FailedWork(o.asked, out.calls, k)
      ensures works[k].id in ItemIDs(valid)
        <==> exists a :: a in o.asked && AnswerHas(out.calls(a.attempt).answer, works[k].id) && !(a.start <= k < a.end)
    {
      NamedBySome(o.asked, out.calls, works[k].id);
      WorkNamed(works, k);
      NotAskedAbout(o.asked, out.calls, k);
    }
  }

  lemma WorkNamed(works: seq<Work>, k: nat)
    requires k < |works|
    ensures works[k].id in WorkIDs(works)
  {
    assert works[k] in works;
  }

  lemma NotAskedAbout(asked: seq<Asked>, calls: nat -> Attempt, k: nat)
    requires FailedWork(asked, calls, k)
    ensures forall a :: a in asked && calls(a.attempt).answer.Answered? ==> !(a.start <= k < a.end)
  {
  }

  /** Then the items of a chunk and its failed works together are at most the chunk. */
  lemma RecognisedAndFailed(works: seq<Work>, out: Outside, next: nat, cancelled: bool)
    requires |works| >= 1
    requires out.lower("movie") == "movie" && out.lower("tv") == "tv"
    requires NamesNoFailed(works, Recognize(0, |works|, 0, out.calls, next, cancelled).asked, out.calls)
    ensures var o := Recognize(0, |works|, 0, out.calls, next, cancelled);
      |Validated(works, o.items, out.lower, out.year)| + o.failed <= |works|
  {
    hide Recognize, Validated, ItemIDs, WorkIDs, FailedWork, NamesNoFailed, NoneFailed, Covered, Span, IDsAt;
    var o := Recognize(0, |works|, 0, out.calls, next, cancelled);
    var valid := Validated(works, o.items, out.lower, out.year);
    NoFailedRecognisedIff(works, out, next, cancelled);
    ValidatedIsSound(works, o.items, out.lower, out.year);
    AsManyAsNamed(valid);
    FailedAreCounted(|works|, out.calls, next, cancelled);
    var lost := Span(0, |works|) - Covered(o.answered);
    OnlyTheRest(works, o.asked, out.calls, valid, lost);
    RestAtMost(works, ItemIDs(valid), lost);
  }

  lemma RestAtMost(works: seq<Work>, ids: set<string>, lost: set<nat>)
    requires lost <= Span(0, |works|) && ids <= IDsAt(works, Span(0, |works|) - lost)
    ensures |ids| + |lost| <= |works|
  {
    hide IDsAt;
    var rest := Span(0, |works|) - lost;
    AtMostOneEach(works, rest);
    SmallerSet(ids, IDsAt(works, rest));
    assert rest + lost == Span(0, |works|);
  }

  /** The ids of the works at some positions. */
  function IDsAt(works: seq<Work>, at: set<nat>): set<string>
    requires forall k :: k in at ==> k < |works|
  {
    set k | k in at :: works[k].id
  }

  lemma {:induction false} AtMostOneEach(works: seq<Work>, at: set<nat>)
    requires forall k :: k in at ==> k < |works|
    ensures |IDsAt(works, at)| <= |at|
  {
    if at == {} {
      assert IDsAt(works, at) == {};
    } else {
      var k :| k in at;
      AtMostOneEach(works, at - {k});
      assert IDsAt(works, at) == IDsAt(works, at - {k}) + {works[k].id};
    }
  }

  lemma OnlyTheRest(works: seq<Work>, asked: seq<Asked>, calls: nat -> Attempt, valid: seq<Item>, lost: set<nat>)
    requires NoneFailed(works, asked, calls, valid) && ItemIDs(valid) <= WorkIDs(works)
    requires forall k: nat :: k in lost <==> k < |works| && FailedWork(asked, calls, k)
    ensures ItemIDs(valid) <= IDsAt(works, Span(0, |works|) - lost)
  {
    hide ItemIDs, FailedWork;
    forall id | id in ItemIDs(valid)
      ensures id in IDsAt(works, Span(0, |works|) - lost)
    {
      var w :| w in works && w.id == id;
      var k: nat :| k < |works| && works[k] == w;
      assert k !in lost;
    }
  }

  lemma {:induction false} AsManyAsNamed(items: seq<Item>)
    requires DistinctItems(items)
    ensures |items| == |ItemIDs(items)|
  {
    if items != [] {
      var front, last := items[..|items| - 1], items[|items| - 1];
      AsManyAsNamed(front);
      assert items == front + [last];
      MoreIDs(front, last);
      assert last.id !in ItemIDs(front);
    }
  }

  /** Without that it can fail: the left half's answer `x`, `y` also names the work of the right half, which
      fails. */
  lemma FailedYetRecognised(v: Work, w: Work, x: Item, y: Item, out: Outside)
    requires x.id == v.id && y.id == w.id && v.id != w.id
    requires out.calls(0) == Attempt(Timeout, false) && out.calls(2) == Attempt(Refused, false)
    requires out.calls(1) == Attempt(Answered([x, y]), false)
    requires out.lower("movie") == "movie" && out.lower("tv") == "tv"
    ensures var o := Recognize(0, 2, 0, out.calls, 0, false);
      o.failed == 1 && |Validated([v, w], o.items, out.lower, out.year)| == 2
  {
    hide Recognize, Validated, Cleaned, Clean1;
    LeftAnswersAll([x, y], out.calls);
    var o := Recognize(0, 2, 0, out.calls, 0, false);
    var valid := Validated([v, w], o.items, out.lower, out.year);
    ValidatedIsSound([v, w], o.items, out.lower, out.year);
    AsManyAsNamed(valid);
    BothKnown(v, w, x, y);
  }

  lemma BothKnown(v: Work, w: Work, x: Item, y: Item)
    requires x.id == v.id && y.id == w.id && v.id != w.id
    ensures |ItemIDs([x, y]) * WorkIDs([v, w])| == 2
  {
    assert [v, w][0] == v && [v, w][1] == w && [x, y][0] == x && [x, y][1] == y;
    assert v in [v, w] && w in [v, w] && x in [x, y] && y in [x, y];
    assert ItemIDs([x, y]) * WorkIDs([v, w]) == {v.id, w.id};
  }

  lemma LeftAnswersAll(items: seq<Item>, calls: nat -> Attempt)
    requires calls(0) == Attempt(Timeout, false) && calls(2) == Attempt(Refused, false)
    requires calls(1) == Attempt(Answered(items), false)
    ensures Recognize(0, 2, 0, calls, 0, false).failed == 1 && Recognize(0, 2, 0, calls, 0, false).items == items
  {
    hide Recognize;
    var left, right, _ := RecognizeStep(0, 2, 0, calls, 0, false);
    var _, _, _ := RecognizeStep(0, 1, 1, calls, 1, false);
    var _, _, _ := RecognizeStep(1, 1, 1, calls, 2, false);
  }

  // ---- the request order ----

  /** workPosition. */
  function WorkPosition(works: seq<Work>, id: string): (p: nat)
    ensures p <= |works|
    ensures p < |works| <==> id in WorkIDs(works)
    ensures p < |works| ==> works[p].id == id
    ensures forall k :: 0 <= k < p ==> works[k].id != id
  {
    if works == [] then 0
    else if works[0].id == id then 0
    else
      var p := 1 + WorkPosition(works[1..], id);
      assert works == [works[0]] + works[1..];
      assert forall k :: 0 < k < |works| ==> works[k] == works[1..][k - 1];
      p
  }

  ghost predicate InRequestOrder(works: seq<Work>, items: seq<Item>) {
    forall i, j :: 0 <= i < j < |items| ==> WorkPosition(works, items[i].id) <= WorkPosition(works, items[j].id)
  }

  ghost predicate StrictlyInRequestOrder(works: seq<Work>, items: seq<Item>) {
    forall i, j :: 0 <= i < j < |items| ==> WorkPosition(works, items[i].id) < WorkPosition(works, items[j].id)
  }

  /** Sorting by position keeps the items and leaves equal positions in their order: sort.SliceStable, as an
      insertion sort. */
  function Sorted(works: seq<Work>, items: seq<Item>): seq<Item> {
    if items == [] then [] else Insert(works, Sorted(works, items[..|items| - 1]), items[|items| - 1])
  }

  function Insert(works: seq<Work>, sorted: seq<Item>, item: Item): seq<Item> {
    if sorted == [] then [item]
    else if WorkPosition(works, item.id) < WorkPosition(works, sorted[|sorted| - 1].id) then
      Insert(works, sorted[..|sorted| - 1], item) + [sorted[|sorted| - 1]]
    else sorted + [item]
  }

  lemma {:induction false} InsertSorts(works: seq<Work>, sorted: seq<Item>, item: Item)
    requires InRequestOrder(works, sorted)
    ensures InRequestOrder(works, Insert(works, sorted, item))
    ensures multiset(Insert(works, sorted, item)) == multiset(sorted) + multiset{item}
  {
    hide WorkPosition, InRequestOrder;
    if sorted == [] {
      OneInOrder(works, item);
    } else {
      var front, last := sorted[..|sorted| - 1], sorted[|sorted| - 1];
      assert sorted == front + [last];
      OrderFront(works, front, last);
      if WorkPosition(works, item.id) < WorkPosition(works, last.id) {
        InsertSorts(works, front, item);
        InOrderBeforeLast(works, Insert(works, front, item), front, item, last);
      } else {
        InOrderAfterLast(works, front, last, item);
      }
    }
  }

  lemma OneInOrder(works: seq<Work>, item: Item)
    ensures InRequestOrder(works, [item])
  {
  }

  lemma OrderFront(works: seq<Work>, front: seq<Item>, last: Item)
    requires InRequestOrder(works, front + [last])
    ensures InRequestOrder(works, front)
    ensures forall x :: x in front ==> WorkPosition(works, x.id) <= WorkPosition(works, last.id)
  {
    hide WorkPosition;
    var all := front + [last];
    assert forall k :: 0 <= k < |front| ==> all[k] == front[k];
    assert all[|front|] == last;
  }

  lemma InOrderBeforeLast(works: seq<Work>, moved: seq<Item>, front: seq<Item>, item: Item, last: Item)
    requires InRequestOrder(works, moved) && multiset(moved) == multiset(front) + multiset{item}
    requires forall x :: x in front ==> WorkPosition(works, x.id) <= WorkPosition(works, last.id)
    requires WorkPosition(works, item.id) < WorkPosition(works, last.id)
    ensures InRequestOrder(works, moved + [last])
  {
    hide WorkPosition;
    forall x | x in moved
      ensures WorkPosition(works, x.id) <= WorkPosition(works, last.id)
    {
      assert x in multiset(moved);
    }
  }

  lemma InOrderAfterLast(works: seq<Work>, front: seq<Item>, last: Item, item: Item)
    requires InRequestOrder(works, front + [last])
    requires WorkPosition(works, last.id) <= WorkPosition(works, item.id)
    ensures InRequestOrder(works, front + [last] + [item])
  {
    hide WorkPosition;
    var all := front + [last];
    assert all[|front|] == last;
  }

  lemma {:induction false} SortedSorts(works: seq<Work>, items: seq<Item>)
    ensures InRequestOrder(works, Sorted(works, items))
    ensures multiset(Sorted(works, items)) == multiset(items)
  {
    hide InRequestOrder, Insert;
    if items == [] {
      NoneSorted(works);
    } else {
      var front := items[..|items| - 1];
      SortedSorts(works, front);
      InsertSorts(works, Sorted(works, front), items[|items| - 1]);
      assert items == front + [items[|items| - 1]];
    }
  }

  /** The items about the work at position `p`, in their order. */
  function AtPosition(works: seq<Work>, items: seq<Item>, p: nat): seq<Item> {
    if items == [] then [] else
      var last := items[|items| - 1];
      AtPosition(works, items[..|items| - 1], p) + if WorkPosition(works, last.id) == p then [last] else []
  }

  lemma {:induction false} InsertStable(works: seq<Work>, sorted: seq<Item>, item: Item, p: nat)
    ensures AtPosition(works, Insert(works, sorted, item), p)
      == AtPosition(works, sorted, p) + if WorkPosition(works, item.id) == p then [item] else []
  {
    hide WorkPosition;
    if sorted == [] {
    } else {
      var front, last := sorted[..|sorted| - 1], sorted[|sorted| - 1];
      if WorkPosition(works, item.id) < WorkPosition(works, last.id) {
        InsertStable(works, front, item, p);
        var moved := Insert(works, front, item);
        assert (moved + [last])[..|moved|] == moved;
      } else {
        assert (sorted + [item])[..|sorted|] == sorted;
      }
    }
  }

  /** Items about the same work stay in their order. */
  lemma {:induction false} SortedStable(works: seq<Work>, items: seq<Item>, p: nat)
    ensures AtPosition(works, Sorted(works, items), p) == AtPosition(works, items, p)
  {
    hide Insert, WorkPosition;
    if items != [] {
      SortedStable(works, items[..|items| - 1], p);
      InsertStable(works, Sorted(works, items[..|items| - 1]), items[|items| - 1], p);
    }
  }

  lemma NoneSorted(works: seq<Work>)
    ensures InRequestOrder(works, [])
  {
  }

  lemma SameMembers(a: seq<Item>, b: seq<Item>)
    requires multiset(a) == multiset(b)
    ensures ItemIDs(a) == ItemIDs(b) && |a| == |b|
  {
    assert |multiset(a)| == |a| && |multiset(b)| == |b|;
    forall x: Item
      ensures x in a <==> x in b
    {
      assert x in a <==> x in multiset(a);
    }
  }

  /** Distinct ids of the request, in order, are strictly in order. */
  lemma StrictlyInOrder(works: seq<Work>, items: seq<Item>)
    requires InRequestOrder(works, items) && DistinctItems(items) && ItemIDs(items) <= WorkIDs(works)
    ensures StrictlyInRequestOrder(works, items)
  {
    forall i, j | 0 <= i < j < |items|
      ensures WorkPosition(works, items[i].id) < WorkPosition(works, items[j].id)
    {
      assert items[i] in items && items[j] in items;
      assert items[i].id in WorkIDs(works) && items[j].id in WorkIDs(works);
    }
  }

  /** A permutation of items with distinct ids has distinct ids. */
  lemma DistinctAnyOrder(a: seq<Item>, b: seq<Item>)
    requires multiset(a) == multiset(b) && DistinctItems(a)
    ensures DistinctItems(b)
  {
    if i, j :| 0 <= i < j < |b| && b[i].id == b[j].id {
      TwiceIn(b, i, j);
      var x :| x in a && x == b[i] by { assert b[i] in multiset(b); assert b[i] in multiset(a); }
      var y :| y in a && y == b[j] by { assert b[j] in multiset(b); assert b[j] in multiset(a); }
      var p :| 0 <= p < |a| && a[p] == x;
      var q :| 0 <= q < |a| && a[q] == y;
      assert p == q;
      OnceIn(a, p);
    }
  }

  lemma TwiceIn(b: seq<Item>, i: nat, j: nat)
    requires i < j < |b| && b[i] == b[j]
    ensures multiset(b)[b[i]] >= 2
  {
    assert b == b[..j] + b[j..] && b[i] in b[..j] && b[j] in b[j..];
  }

  lemma OnceIn(a: seq<Item>, p: nat)
    requires DistinctItems(a) && p < |a|
    ensures multiset(a)[a[p]] == 1
  {
    assert a == a[..p] + [a[p]] + a[p + 1..];
    assert a[p] !in a[..p] && a[p] !in a[p + 1..];
  }

  // ---- progress ----

  /** Reports that never go back, the last at `completed` of `total`. */
  ghost predicate Steady(reports: seq<Progress>, total: nat, completed: nat) {
    && |reports| >= 1 && reports[|reports| - 1].completed == completed
    && (forall k :: 0 <= k < |reports| ==> reports[k].total == total)
    && (forall i, j :: 0 <= i < j < |reports| ==> reports[i].completed <= reports[j].completed)
  }

  lemma SteadyMore(reports: seq<Progress>, total: nat, completed: nat, p: Progress)
    requires Steady(reports, total, completed) && p.total == total && p.completed >= completed
    ensures Steady(reports + [p], total, p.completed)
  {
  }

  lemma OneReport(p: Progress)
    ensures Steady([p], p.total, p.completed)
  {
  }

  // ---- the cache loop ----

  /** What the cache holds under a key at a time. */
  function Held(entries: map<string, Entry>, key: string, now: int): Option<Item> {
    if key in entries && !Expired(entries[key], now) then Some(entries[key].result) else None
  }

  /** The answers found are what the cache held under the works' keys when each was asked for. */
  ghost predicate FoundInCache(works: seq<Work>, found: seq<Option<Item>>, digest: Digest, out: Outside, entries: map<string, Entry>) {
    |found| <= |works|
    && forall k :: 0 <= k < |found| ==>
         found[k] == Held(entries, Fingerprint(digest, out.config, works[k]), out.clock(k))
  }

  /** An item that a chunk put in the cache: the configuration and the work it was put for, and when. */
  datatype Told = Told(config: string, work: Work, item: Item, at: int)

  /** The puts to the cache are the items told, each under the key of its work. */
  ghost predicate PutsOf(told: seq<Told>, puts: seq<Put>, digest: Digest) {
    && |puts| == |told|
    && forall i :: 0 <= i < |told| ==>
         puts[i] == Put(Fingerprint(digest, told[i].config, told[i].work), told[i].item, told[i].at)
  }

  ghost predicate About(t: Told, config: string, w: Work) {
    t.config == config && SameButID(t.work, w)
  }

  /** Number i is the last item told about a work. */
  ghost predicate LastTold(told: seq<Told>, i: nat, config: string, w: Work) {
    i < |told| && About(told[i], config, w) && forall j :: i < j < |told| ==> !About(told[j], config, w)
  }

  ghost predicate NeverTold(told: seq<Told>, config: string, w: Work) {
    forall i :: 0 <= i < |told| ==> !About(told[i], config, w)
  }

  /** Where the last item told about the work is still held and was told within a day, it is found;
      otherwise, and when nothing was told about the work, nothing is. */
  ghost predicate FoundAsTold(w: Work, found: Option<Item>, config: string, now: int, told: seq<Told>, puts: seq<Put>, held: set<string>)
    requires |puts| == |told|
  {
    && (NeverTold(told, config, w) ==> found.None?)
    && (forall i: nat :: LastTold(told, i, config, w) ==>
          found == if puts[i].key in held && now <= told[i].at + 24 * 3600 then Some(told[i].item) else None)
  }

  lemma FoundIsLastTold(w: Work, digest: Digest, config: string, now: int, told: seq<Told>, puts: seq<Put>, entries: map<string, Entry>)
    requires Injective(digest) && PutsOf(told, puts, digest) && AsLastPut(entries, puts)
    ensures FoundAsTold(w, Held(entries, Fingerprint(digest, config, w), now), config, now, told, puts, entries.Keys)
  {
    hide Injective, Fingerprint, SameButID;
    var key := Fingerprint(digest, config, w);
    forall i | 0 <= i < |told|
      ensures puts[i].key == key <==> About(told[i], config, w)
    {
      FingerprintIff(digest, told[i].config, told[i].work, config, w);
    }
    if NeverTold(told, config, w) {
      NeverPut(puts, key);
    }
    forall i: nat | LastTold(told, i, config, w)
      ensures LastPut(puts, key) == Some(puts[i])
    {
      LastPutIs(puts, key, i);
    }
  }

  lemma {:induction false} LastPutIs(puts: seq<Put>, key: string, i: nat)
    requires i < |puts| && puts[i].key == key && forall j :: i < j < |puts| ==> puts[j].key != key
    ensures LastPut(puts, key) == Some(puts[i])
  {
    if i < |puts| - 1 {
      LastPutIs(puts[..|puts| - 1], key, i);
    }
  }

  lemma {:induction false} NeverPut(puts: seq<Put>, key: string)
    requires forall j :: 0 <= j < |puts| ==> puts[j].key != key
    ensures LastPut(puts, key) == None
  {
    if puts != [] {
      NeverPut(puts[..|puts| - 1], key);
    }
  }

  /** The whole cache loop. */
  ghost predicate AllAsTold(works: seq<Work>, found: seq<Option<Item>>, out: Outside, told: seq<Told>, puts: seq<Put>, held: set<string>) {
    && |found| == |works| && |puts| == |told|
    && forall k :: 0 <= k < |works| ==> FoundAsTold(works[k], found[k], out.config, out.clock(k), told, puts, held)
  }

  lemma AllFoundAsTold(works: seq<Work>, found: seq<Option<Item>>, digest: Digest, out: Outside, told: seq<Told>, puts: seq<Put>, entries: map<string, Entry>)
    requires PutsOf(told, puts, digest) && AsLastPut(entries, puts)
    requires FoundInCache(works, found, digest, out, entries) && |found| == |works|
    ensures Injective(digest) ==> AllAsTold(works, found, out, told, puts, entries.Keys)
  {
    hide Injective, Held, Fingerprint, FoundAsTold, AsLastPut;
    if Injective(digest) {
      forall k | 0 <= k < |works|
        ensures FoundAsTold(works[k], found[k], out.config, out.clock(k), told, puts, entries.Keys)
      {
        FoundIsLastTold(works[k], digest, out.config, out.clock(k), told, puts, entries);
      }
    }
  }

  ghost predicate ClockRuns(clock: nat -> int) {
    forall i, j :: i <= j ==> clock(i) <= clock(j)
  }

  /** The entries that getCached has dropped had expired. */
  ghost predicate OnlyExpiredGone(before: map<string, Entry>, after: map<string, Entry>, now: int) {
    && (forall key :: key in after ==> key in before && after[key] == before[key])
    && (forall key :: key in before && key !in after ==> Expired(before[key], now))
  }

  lemma NoneFound(works: seq<Work>, digest: Digest, out: Outside, entries: map<string, Entry>)
    ensures FoundInCache(works, [], digest, out, entries)
  {
  }

  lemma FoundMore(works: seq<Work>, found: seq<Option<Item>>, digest: Digest, out: Outside, entries: map<string, Entry>, r: Option<Item>)
    requires FoundInCache(works, found, digest, out, entries) && |found| < |works|
    requires r == Held(entries, Fingerprint(digest, out.config, works[|found|]), out.clock(|found|))
    ensures FoundInCache(works, found + [r], digest, out, entries)
  {
    hide Held, Fingerprint;
  }

  lemma NothingGone(entries: map<string, Entry>, now: int)
    ensures OnlyExpiredGone(entries, entries, now)
  {
  }

  lemma HeldMeans(entries: map<string, Entry>, key: string, now: int)
    ensures Held(entries, key, now).Some? <==> key in entries && !Expired(entries[key], now)
    ensures key in entries && !Expired(entries[key], now) ==> Held(entries, key, now) == Some(entries[key].result)
  {
  }

  lemma DropIsExpired(before: map<string, Entry>, after: map<string, Entry>, key: string, out: Outside, k: nat)
    requires ClockRuns(out.clock) && OnlyExpiredGone(before, after, out.clock(k))
    ensures Held(after, key, out.clock(k)) == Held(before, key, out.clock(k))
    ensures OnlyExpiredGone(before, after, out.clock(k + 1))
    ensures Held(after, key, out.clock(k)).None? ==> OnlyExpiredGone(before, after - {key}, out.clock(k + 1))
  {
    assert out.clock(k) <= out.clock(k + 1);
  }

  /** Hits and pending works share out the request. */
  lemma {:induction false} HitsAndMisses(works: seq<Work>, found: seq<Option<Item>>)
    requires |works| == |found| && DistinctWorks(works)
    ensures DistinctItems(Hits(works, found)) && DistinctWorks(Misses(works, found))
    ensures ItemIDs(Hits(works, found)) + WorkIDs(Misses(works, found)) == WorkIDs(works)
    ensures ItemIDs(Hits(works, found)) !! WorkIDs(Misses(works, found))
  {
    hide DistinctWorks, DistinctItems, WorkIDs, ItemIDs;
    if works == [] {
      NoItems();
      NoWorks();
    } else {
      var n := |works| - 1;
      var w := works[n];
      assert works == works[..n] + [w];
      DistinctFront(works[..n], [w]);
      HitsAndMisses(works[..n], found[..n]);
      OneWork(w);
      match found[n]
      case Some(item) =>
        OneItem(item.(id := w.id));
        BothDistinct(Hits(works[..n], found[..n]), [item.(id := w.id)]);
        assert Misses(works, found) == Misses(works[..n], found[..n]);
      case None =>
        assert Hits(works, found) == Hits(works[..n], found[..n]);
        BothWorksDistinct(Misses(works[..n], found[..n]), [w]);
    }
  }

  lemma NoWorks()
    ensures WorkIDs([]) == {} && DistinctWorks([])
  {
  }

  lemma OneWork(w: Work)
    ensures WorkIDs([w]) == {w.id} && DistinctWorks([w])
  {
  }

  lemma OneItem(i: Item)
    ensures ItemIDs([i]) == {i.id} && DistinctItems([i])
  {
  }

  lemma BothWorksDistinct(a: seq<Work>, b: seq<Work>)
    requires DistinctWorks(a) && DistinctWorks(b) && WorkIDs(a) !! WorkIDs(b)
    ensures DistinctWorks(a + b) && WorkIDs(a + b) == WorkIDs(a) + WorkIDs(b)
  {
    var all := a + b;
    forall i, j | 0 <= i < j < |all|
      ensures all[i].id != all[j].id
    {
      if i < |a| <= j {
        assert a[i] in a && b[j - |a|] in b;
        assert a[i].id in WorkIDs(a) && b[j - |a|].id in WorkIDs(b);
      }
    }
  }

  /** Exactly the positions where nothing was found, in order. */
  ghost predicate NotFoundAt(found: seq<Option<Item>>, at: seq<nat>) {
    && (forall j :: 0 <= j < |at| ==> at[j] < |found| && found[at[j]].None?)
    && (forall i, j :: 0 <= i < j < |at| ==> at[i] < at[j])
    && (forall k: nat :: k < |found| && found[k].None? ==> k in at)
  }

  /** The works at those positions. */
  ghost predicate WorksAt(works: seq<Work>, at: seq<nat>, some: seq<Work>) {
    |at| == |some| && forall j :: 0 <= j < |at| ==> at[j] < |works| && works[at[j]] == some[j]
  }

  lemma NotFoundMore(works: seq<Work>, found: seq<Option<Item>>, front: seq<nat>, some: seq<Work>) returns (at: seq<nat>)
    requires |works| == |found| && found != []
    requires NotFoundAt(found[..|found| - 1], front) && WorksAt(works[..|found| - 1], front, some)
    ensures NotFoundAt(found, at)
    ensures WorksAt(works, at, some + if found[|found| - 1].None? then [works[|found| - 1]] else [])
  {
    var n: nat := |found| - 1;
    at := front;
    if found[n].None? {
      at := front + [n];
      assert at[|front|] == n;
    } else {
      assert some + [] == some;
    }
    forall k: nat | k < n && found[k].None?
      ensures k in at
    {
      assert found[..n][k].None?;
      assert k in front;
    }
  }

  /** The pending works are the works not found, in the order of the request. */
  lemma {:induction false} MissesInOrder(works: seq<Work>, found: seq<Option<Item>>) returns (at: seq<nat>)
    requires |works| == |found|
    ensures NotFoundAt(found, at) && WorksAt(works, at, Misses(works, found))
  {
    hide NotFoundAt, WorksAt;
    if works == [] {
      NoneNotFound();
      at := [];
    } else {
      var n: nat := |works| - 1;
      var front := MissesInOrder(works[..n], found[..n]);
      at := NotFoundMore(works, found, front, Misses(works[..n], found[..n]));
    }
  }

  lemma NoneNotFound()
    ensures NotFoundAt([], []) && WorksAt([], [], [])
  {
  }

  lemma {:induction false} HitsAndMissesCount(works: seq<Work>, found: seq<Option<Item>>)
    requires |works| == |found|
    ensures |Hits(works, found)| + |Misses(works, found)| == |works|
  {
    if works != [] {
      HitsAndMissesCount(works[..|works| - 1], found[..|works| - 1]);
    }
  }

  lemma HitsMore(works: seq<Work>, found: seq<Option<Item>>, k: nat, r: Option<Item>)
    requires |found| == k < |works|
    ensures Hits(works[..k + 1], found + [r]) == Hits(works[..k], found)
      + (match r
         case Some(item) => [item.(id := works[k].id)]
         case None => [])
    ensures Misses(works[..k + 1], found + [r]) == Misses(works[..k], found) + (if r.None? then [works[k]] else [])
  {
    assert works[..k + 1][..k] == works[..k] && (found + [r])[..k] == found;
  }

  lemma NoHits()
    ensures Hits([], []) == [] && Misses([], []) == []
  {
  }

  // ---- the whole request ----

  datatype EnhanceError = Unavailable | Failed(failure: Failure)

  /** The greedy chunks of the works that the cache did not know. */
  ghost predicate ChunksOf(pending: seq<Work>, chunks: seq<seq<Work>>, out: Outside) {
    Flatten(chunks) == pending && Greedy(chunks, SampledLength(out.encoded), 10, 16384)
  }

  /** Each item was told, in order, about a work of its id, at the next readings of the clock. */
  ghost predicate Stored(before: seq<Told>, after: seq<Told>, items: seq<Item>, works: seq<Work>, out: Outside, tick: nat) {
    && before <= after && |after| == |before| + |items|
    && forall k :: 0 <= k < |items| ==> ToldFor(after[|before| + k], items[k], works, out.config, out.clock(tick + k))
  }

  ghost predicate ToldFor(t: Told, item: Item, works: seq<Work>, config: string, at: int) {
    t.item == item && t.config == config && t.at == at && t.work in works && t.work.id == item.id
  }

  lemma NoneStored(told: seq<Told>, out: Outside, tick: nat)
    ensures Flatten<Work>([]) == []
    ensures Stored(told, told, [], [], out, tick)
  {
  }

  lemma NoneStoredOf(told: seq<Told>, works: seq<Work>, out: Outside, tick: nat)
    ensures Stored(told, told, [], works, out, tick)
  {
  }

  lemma StoredMore(before: seq<Told>, after: seq<Told>, items: seq<Item>, k: nat, works: seq<Work>, out: Outside, tick: nat, p: nat)
    requires k < |items| && Stored(before, after, items[..k], works, out, tick)
    requires p < |works| && works[p].id == items[k].id
    ensures Stored(before, after + [Told(out.config, works[p], items[k], out.clock(tick + k))], items[..k + 1], works, out, tick)
  {
  }

  lemma StoredBoth(a: seq<Told>, b: seq<Told>, c: seq<Told>, x: seq<Item>, y: seq<Item>, v: seq<Work>, w: seq<Work>, out: Outside, tick: nat)
    requires Stored(a, b, x, v, out, tick) && Stored(b, c, y, w, out, tick + |x|)
    ensures Stored(a, c, x + y, v + w, out, tick)
  {
    forall k | 0 <= k < |x + y|
      ensures ToldFor(c[|a| + k], (x + y)[k], v + w, out.config, out.clock(tick + k))
    {
      if k < |x| {
        assert b[|a| + k] == c[|a| + k];
      } else {
        assert c[|a| + k] == c[|b| + (k - |x|)];
        assert ToldFor(c[|b| + (k - |x|)], y[k - |x|], w, out.config, out.clock(tick + |x| + (k - |x|)));
      }
    }
  }

  lemma PutMore(told: seq<Told>, puts: seq<Put>, digest: Digest, t: Told)
    requires PutsOf(told, puts, digest)
    ensures PutsOf(told + [t], puts + [Put(Fingerprint(digest, t.config, t.work), t.item, t.at)], digest)
  {
    hide Fingerprint;
  }

  lemma FlattenUpTo(chunks: seq<seq<Work>>, k: nat)
    requires k < |chunks|
    ensures Flatten(chunks[..k + 1]) == Flatten(chunks[..k]) + chunks[k]
  {
    assert chunks[..k + 1][..k] == chunks[..k];
  }

  /** There is an error exactly when a chunk failed and neither the cache nor the model gave anything. */
  ghost predicate Merged(works: seq<Work>, hits: seq<Item>, run: Run, r: Result, err: Option<EnhanceError>) {
    if run.err != NoError && run.chunksWithItems == 0 && hits + run.items == [] then
      err == Some(Failed(run.err)) && r == Result([], 0, 0)
    else
      err == None && r == Result(Sorted(works, hits + run.items), |hits|, run.failed)
  }

  /** The first and the last report. */
  ghost predicate Ended(reports: seq<Progress>, works: seq<Work>, found: seq<Option<Item>>, run: Run, chunks: nat)
    requires |works| == |found|
  {
    var cached := |Hits(works, found)|;
    && reports != [] && reports[0] == Progress(|works|, cached, cached, 0, 0, chunks, 0, 0)
    && (chunks > 0 ==> reports[|reports| - 1] == Progress(|works|, |works|, cached, run.failed, chunks, chunks, 0, 0))
  }

  lemma MergedMeans(works: seq<Work>, hits: seq<Item>, run: Run)
    ensures run.err != NoError && run.chunksWithItems == 0 && hits + run.items == []
      ==> Merged(works, hits, run, Result([], 0, 0), Some(Failed(run.err)))
    ensures !(run.err != NoError && run.chunksWithItems == 0 && hits + run.items == [])
      ==> Merged(works, hits, run, Result(Sorted(works, hits + run.items), |hits|, run.failed), None)
  {
  }

  lemma {:induction false} NothingAnswered(chunks: seq<seq<Work>>, out: Outside)
    ensures RunChunks(chunks, out).chunksWithItems == 0 <==> NoAnswerHasItems(chunks, out)
    ensures NoAnswerHasItems(chunks, out) ==> RunChunks(chunks, out).items == []
  {
    hide Recognize;
    if chunks != [] {
      var n: nat := |chunks| - 1;
      var front := chunks[..n];
      NothingAnswered(front, out);
      forall c: nat | c < n
        ensures ChunkOutcome(chunks, c, out) == ChunkOutcome(front, c, out)
      {
        OutcomeInFront(chunks, c, out);
      }
      assert NoAnswerHasItems(chunks, out) <==> NoAnswerHasItems(front, out) && ChunkOutcome(chunks, n, out).items == [];
    }
  }

  ghost predicate NoAnswerHasItems(chunks: seq<seq<Work>>, out: Outside) {
    forall c: nat :: c < |chunks| ==> ChunkOutcome(chunks, c, out).items == []
  }

  /** The request fails exactly when nothing was cached, no answer held any item, not even one that is not
      kept, and some work failed; the error is that of the first chunk that failed. */
  lemma FailsIff(works: seq<Work>, found: seq<Option<Item>>, chunks: seq<seq<Work>>, out: Outside, r: Result, err: Option<EnhanceError>)
    requires |works| == |found| && NonemptyChunks(chunks)
    requires Merged(works, Hits(works, found), RunChunks(chunks, out), r, err)
    ensures err.Some? <==> Hits(works, found) == [] && NoAnswerHasItems(chunks, out) && RunChunks(chunks, out).failed > 0
    ensures err.Some? ==> r == Result([], 0, 0)
    ensures forall c: nat :: err.Some? && FirstFailing(chunks, c, out) ==> err == Some(Failed(ChunkOutcome(chunks, c, out).err))
  {
    hide Recognize, RunChunks, Hits, Sorted;
    NothingAnswered(chunks, out);
    RunAccounts(chunks, out);
    RunErrorIsFirst(chunks, out);
  }

  /** The result for works with distinct ids: at most one item a work, none foreign, strictly in request
      order, exactly the hits and the recognised items; and every work was cached, answered or failed. */
  lemma ResultIsOrdered(works: seq<Work>, found: seq<Option<Item>>, chunks: seq<seq<Work>>, out: Outside, r: Result)
    requires DistinctWorks(works) && |found| == |works| && ChunksOf(Misses(works, found), chunks, out)
    requires out.lower("movie") == "movie" && out.lower("tv") == "tv"
    requires Merged(works, Hits(works, found), RunChunks(chunks, out), r, None)
    ensures StrictlyInRequestOrder(works, r.items) && ItemIDs(r.items) <= WorkIDs(works)
    ensures DistinctItems(r.items)
    ensures multiset(r.items) == multiset(Hits(works, found) + RunChunks(chunks, out).items)
    ensures r.cached + r.failed + RunChunks(chunks, out).answered == |works|
  {
    hide Recognize, Flatten, RunChunks, Greedy, Hits, Misses, Sorted, WorkPosition, DistinctWorks, DistinctItems, ItemIDs, WorkIDs;
    var hits, run := Hits(works, found), RunChunks(chunks, out);
    HitsAndMisses(works, found);
    HitsAndMissesCount(works, found);
    GreedyNonempty(chunks, out);
    RunAccounts(chunks, out);
    RunItems(chunks, out);
    BothDistinct(hits, run.items);
    SortedSorts(works, hits + run.items);
    SameMembers(r.items, hits + run.items);
    DistinctAnyOrder(hits + run.items, r.items);
    StrictlyInOrder(works, r.items);
  }

  lemma GreedyNonempty(chunks: seq<seq<Work>>, out: Outside)
    requires Greedy(chunks, SampledLength(out.encoded), 10, 16384)
    ensures NonemptyChunks(chunks)
  {
  }

  lemma NonemptyChunk(chunks: seq<seq<Work>>, c: nat, out: Outside)
    requires c < |chunks| && Greedy(chunks, SampledLength(out.encoded), 10, 16384)
    ensures |chunks[c]| >= 1
  {
  }

  class Service {
    const cache: Cache
    const digest: Digest
    ghost var told: seq<Told>

    ghost predicate Valid()
      reads this, cache
    {
      cache.Valid() && PutsOf(told, cache.puts, digest)
    }

    constructor (digest: Digest)
      ensures Valid() && fresh(cache) && this.digest == digest && told == []
    {
      cache := new Cache();
      this.digest := digest;
      told := [];
    }

    /** The first loop: ask the cache about every work. */
    method LookUp(works: seq<Work>, out: Outside) returns (hits: seq<Item>, pending: seq<Work>, ghost found: seq<Option<Item>>)
      requires Valid() && ClockRuns(out.clock)
      modifies cache`entries
      ensures Valid() && |found| == |works|
      ensures Injective(digest) ==> AllAsTold(works, found, out, told, cache.puts, old(cache.entries).Keys)
      ensures hits == Hits(works, found) && pending == Misses(works, found)
    {
      hide ClockRuns, OnlyExpiredGone, Held, HitOf, Fingerprint, FoundInCache, AsLastPut, Hits, Misses, PutsOf, AllAsTold, Injective;
      hits, pending, found := [], [], [];
      NoneFound(works, digest, out, cache.entries);
      NoHits();
      NothingGone(cache.entries, out.clock(0));
      for k := 0 to |works|
        invariant cache.Valid() && |found| == k
        invariant FoundInCache(works, found, digest, out, old(cache.entries))
        invariant OnlyExpiredGone(old(cache.entries), cache.entries, out.clock(k))
        invariant hits == Hits(works[..k], found) && pending == Misses(works[..k], found)
      {
        var key := Fingerprint(digest, out.config, works[k]);
        DropIsExpired(old(cache.entries), cache.entries, key, out, k);
        HeldMeans(cache.entries, key, out.clock(k));
        var r := cache.GetCached(key, out.clock(k));
        HitsMore(works, found, k, r);
        FoundMore(works, found, digest, out, old(cache.entries), r);
        if r.Some? {
          hits := hits + [r.value.(id := works[k].id)];
        } else {
          pending := pending + [works[k]];
        }
        found := found + [r];
      }
      assert works[..|works|] == works;
      AllFoundAsTold(works, found, digest, out, told, cache.puts, old(cache.entries));
    }

    /** The put loop of one chunk: every validated item is put under the key of its work. */
    method StoreAll(chunk: seq<Work>, valid: seq<Item>, out: Outside, tick: nat) returns (kept: seq<Item>)
      requires Valid() && ItemIDs(valid) <= WorkIDs(chunk)
      modifies this`told, cache
      ensures Valid() && kept == valid
      ensures Stored(old(told), told, valid, chunk, out, tick)
    {
      hide Fingerprint, AiCache.Replaced, PutsOf, Stored;
      kept := [];
      ghost var before := told;
      NoneStoredOf(told, chunk, out, tick);
      for k := 0 to |valid|
        invariant Valid() && kept == valid[..k]
        invariant Stored(before, told, valid[..k], chunk, out, tick)
      {
        assert valid[k] in valid;
        assert valid[..k + 1] == valid[..k] + [valid[k]];
        var p := WorkPosition(chunk, valid[k].id);
        if p < |chunk| {
          ghost var t := Told(out.config, chunk[p], valid[k], out.clock(tick + k));
          StoredMore(before, told, valid, k, chunk, out, tick, p);
          PutMore(told, cache.puts, digest, t);
          cache.PutCached(Fingerprint(digest, out.config, chunk[p]), valid[k], out.clock(tick + k));
          told := told + [t];
          kept := kept + [valid[k]];
        }
      }
      assert valid[..|valid|] == valid;
    }

    /** What one chunk's recognition leaves: the cleaned answers are put in the cache and counted. */
    method KeepAnswers(chunk: seq<Work>, o: Outcome, before: Run, out: Outside, tick: nat) returns (run: Run)
      requires Valid() && out.lower("movie") == "movie" && out.lower("tv") == "tv"
      requires o == Recognize(0, |chunk|, 0, out.calls, before.next, before.cancelled)
      modifies this`told, cache
      ensures Valid() && run == AfterChunk(before, chunk, out)
      ensures Stored(old(told), told, Validated(chunk, o.items, out.lower, out.year), chunk, out, tick)
    {
      hide PutsOf, Stored, Recognize, Validated, ItemIDs, WorkIDs;
      var valid, from := ValidateResults(chunk, o.items, out.lower, out.year);
      ValidatedIsSound(chunk, o.items, out.lower, out.year);
      var kept := StoreAll(chunk, valid, out, tick);
      run := Run(before.items + kept, before.failed + o.failed, before.answered + Works(o.answered),
                 if before.err == NoError then o.err else before.err,
                 before.chunksWithItems + (if |o.items| > 0 then 1 else 0), o.next, o.cancelled);
    }

    /** The same, for chunk `c` after the chunks before it, which were told since `start`. */
    method KeepChunk(chunks: seq<seq<Work>>, c: nat, o: Outcome, before: Run, out: Outside, tick: nat, ghost start: seq<Told>)
      returns (run: Run)
      requires Valid() && out.lower("movie") == "movie" && out.lower("tv") == "tv"
      requires c < |chunks| && before == RunChunks(chunks[..c], out)
      requires o == Recognize(0, |chunks[c]|, 0, out.calls, before.next, before.cancelled)
      requires Stored(start, told, before.items, Flatten(chunks[..c]), out, tick)
      modifies this`told, cache
      ensures Valid() && run == RunChunks(chunks[..c + 1], out)
      ensures run.next == o.next && run.cancelled == o.cancelled
      ensures Stored(start, told, run.items, Flatten(chunks[..c + 1]), out, tick)
    {
      hide PutsOf, Stored, Recognize, Validated, Flatten, RunChunks;
      ghost var was := told;
      FlattenUpTo(chunks, c);
      RunMore(chunks, c, out);
      run := KeepAnswers(chunks[c], o, before, out, tick + |before.items|);
      StoredBoth(start, was, told, before.items, Validated(chunks[c], o.items, out.lower, out.year), Flatten(chunks[..c]), chunks[c], out, tick);
    }

    /** The loop over the chunks, after the first report. */
    method RunAll(batches: seq<seq<Work>>, first: Progress, out: Outside) returns (run: Run, reports: seq<Progress>)
      requires Valid() && Greedy(batches, SampledLength(out.encoded), 10, 16384)
      requires out.lower("movie") == "movie" && out.lower("tv") == "tv"
      requires first.completed == first.cached
      modifies this`told, cache
      ensures Valid() && run == RunChunks(batches, out)
      ensures Stored(old(told), told, run.items, Flatten(batches), out, first.total)
      ensures Steady(reports, first.total, first.cached + |Flatten(batches)|)
      ensures |reports| == 1 + run.next + |batches| && reports[0] == first
      ensures batches != [] ==> reports[|reports| - 1] == DoneReport(first, |Flatten(batches)|, run.failed, |batches|, |batches|)
    {
      hide PutsOf, Steady, Stored, Recognize, Validated, Flatten, RunChunks, Greedy;
      var total, cached := first.total, first.cached;
      reports := [first];
      OneReport(first);
      run := Run([], 0, 0, NoError, 0, 0, false);
      var processed := 0;
      NoRun(out);
      NoneStored(told, out, total);
      for c := 0 to |batches|
        invariant Valid()
        invariant run == RunChunks(batches[..c], out)
        invariant processed == |Flatten(batches[..c])|
        invariant Stored(old(told), told, run.items, Flatten(batches[..c]), out, total)
        invariant Steady(reports, total, cached + processed)
        invariant |reports| == 1 + run.next + c && reports[0] == first
        invariant c > 0 ==> reports[|reports| - 1] == DoneReport(first, processed, run.failed, c, |batches|)
      {
        var chunk := batches[c];
        NonemptyChunk(batches, c, out);
        CallsAreBounded(0, |chunk|, 0, out.calls, run.next, run.cancelled);
        var o := Recognize(0, |chunk|, 0, out.calls, run.next, run.cancelled);
        var now := Progress(total, cached + processed, cached, run.failed, c + 1, |batches|, 0, 0);
        reports := ReportAttempts(reports, o.asked, now);
        processed := processed + |chunk|;
        FlattenUpTo(batches, c);
        run := KeepChunk(batches, c, o, run, out, total, old(told));
        var done := Progress(total, cached + processed, cached, run.failed, c + 1, |batches|, 0, 0);
        SteadyMore(reports, total, cached + processed - |chunk|, done);
        reports := reports + [done];
      }
      assert batches[..|batches|] == batches;
    }

    /** EnhanceWithProgress. */
    method EnhanceWithProgress(works: seq<Work>, available: bool, out: Outside)
      returns (r: Result, err: Option<EnhanceError>, reports: seq<Progress>, ghost found: seq<Option<Item>>, ghost chunks: seq<seq<Work>>)
      requires Valid() && ClockRuns(out.clock)
      requires out.lower("movie") == "movie" && out.lower("tv") == "tv"
      modifies this`told, cache
      ensures Valid()
      ensures !available ==> err == Some(Unavailable) && told == old(told) && reports == []
      ensures available && works == [] ==> err.None? && r == Result([], 0, 0) && told == old(told) && reports == []
      ensures available && works != [] ==> |found| == |works|
      ensures available && works != [] && Injective(digest)
        ==> AllAsTold(works, found, out, old(told), old(cache.puts), old(cache.entries).Keys)
      ensures available && works != [] ==> ChunksOf(Misses(works, found), chunks, out)
      ensures available && works != [] ==> Steady(reports, |works|, |works|)
      ensures available && works != [] ==> |reports| == 1 + RunChunks(chunks, out).next + |chunks|
      ensures available && works != [] ==> Ended(reports, works, found, RunChunks(chunks, out), |chunks|)
      ensures available && works != [] ==> Merged(works, Hits(works, found), RunChunks(chunks, out), r, err)
      ensures available && works != []
        ==> Stored(old(told), told, RunChunks(chunks, out).items, Flatten(chunks), out, |works|)
    {
      hide AllAsTold, Injective, PutsOf, ClockRuns, Steady, Merged, Stored, Recognize, Validated, Flatten, RunChunks, Greedy, Hits, Misses, Sorted, ItemIDs, WorkIDs;
      r, err, reports, found, chunks := Result([], 0, 0), None, [], [], [];
      if !available {
        return r, Some(Unavailable), [], [], [];
      }
      if works == [] {
        return;
      }
      var hits, pending;
      hits, pending, found := LookUp(works, out);
      var batches := SplitWorks(pending, out.encoded);
      chunks := batches;
      var run;
      run, reports := RunAll(batches, Progress(|works|, |hits|, |hits|, 0, 0, |batches|, 0, 0), out);
      HitsAndMissesCount(works, found);
      var all := hits + run.items;
      MergedMeans(works, hits, run);
      if run.chunksWithItems == 0 && |pending| > 0 && run.err != NoError && |all| == 0 {
        return Result([], 0, 0), Some(Failed(run.err)), reports, found, chunks;
      }
      r := Result(Sorted(works, all), |hits|, run.failed);
    }

    /** The reports before the calls of one chunk. */
    method ReportAttempts(reports: seq<Progress>, attempts: seq<Asked>, now: Progress) returns (all: seq<Progress>)
      requires Steady(reports, now.total, now.completed)
      ensures Steady(all, now.total, now.completed)
      ensures |all| == |reports| + |attempts| && all[..|reports|] == reports
      ensures forall k :: 0 <= k < |attempts| ==>
        all[|reports| + k] == ReportOf(now, attempts[k])
    {
      hide Steady;
      all := reports;
      for k := 0 to |attempts|
        invariant Steady(all, now.total, now.completed)
        invariant |all| == |reports| + k && all[..|reports|] == reports
        invariant forall j :: 0 <= j < k ==>
          all[|reports| + j] == ReportOf(now, attempts[j])
      {
        var p := ReportOf(now, attempts[k]);
        SteadyMore(all, now.total, now.completed, p);
        all := all + [p];
      }
    }
  }
}
