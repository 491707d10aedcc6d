/**
 drivers/139Cloud/upload.go: an explicit list of parts, upload addresses fetched in batches of a hundred, and
 parts read at their own offsets.
 */
module Upload139 {
  import opened Parts
  import opened Resumable
  import opened Transfer
  import PartSize
  import Text

  const MAX_PARTS_PER_REQUEST := 100

  datatype Spec = Spec(number: nat, size: nat, offset: nat)

  function PartCount(size: nat, p: nat): nat
    requires p > 0
  {
    if size == 0 then 1 else Count(size, p)
  }

  /** Numbered 1, 2, ... and laid end to end over the file. */
  ghost predicate Tiles(parts: seq<Spec>, size: nat) {
    && |parts| >= 1 && parts[0].offset == 0
    && (forall k :: 0 <= k < |parts| ==> parts[k].number == k + 1)
    && (forall k :: 0 < k < |parts| ==> parts[k].offset == parts[k - 1].offset + parts[k - 1].size)
    && parts[|parts| - 1].offset + parts[|parts| - 1].size == size
    && (size > 0 ==> forall k :: 0 <= k < |parts| ==> parts[k].size > 0)
  }

  /** The specs of a file cut into parts of size `p`. */
  ghost predicate Cuts(parts: seq<Spec>, size: nat, p: nat) {
    && p > 0 && |parts| == PartCount(size, p)
    && forall k :: 0 <= k < |parts| ==> parts[k] == SpecAt(size, p, k)
  }

  /** The spec between two cuts. */
  function SpecAt(size: nat, p: nat, k: nat): Spec {
    CutStep(size, p, k);
    Spec(k + 1, Cut(size, p, k + 1) - Cut(size, p, k), Cut(size, p, k))
  }

  lemma SpecIsComputed(size: nat, p: nat, k: nat)
    requires p > 0 && k < PartCount(size, p)
    ensures var offset := k * p;
      SpecAt(size, p, k) == Spec(k + 1, if size - offset < p then size - offset else p, offset)
  {
    if size > 0 {
      CountCovers(size, p);
      PartLenIsCut(size, p, k + 1);
    }
  }

  /** buildUploadParts */
  method BuildUploadParts(size: nat) returns (parts: seq<Spec>)
    ensures Cuts(parts, size, PartSize.Size139(size))
  {
    hide SpecAt, Cut;
    var partSize := 100 * PartSize.MB;
    if size > 30 * PartSize.GB {
      partSize := 512 * PartSize.MB;
    }
    var count := (size + partSize - 1) / partSize;
    if count < 1 {
      count := 1;
    }
    parts := [];
    for index := 0 to count
      invariant |parts| == index
      invariant forall k :: 0 <= k < index ==> parts[k] == SpecAt(size, partSize, k)
    {
      SpecIsComputed(size, partSize, index);
      var offset := index * partSize;
      var length := partSize;
      if size - offset < length {
        length := size - offset;
      }
      if length < 0 {
        length := 0;
      }
      parts := parts + [Spec(index + 1, length, offset)];
    }
  }

  lemma CutsTile(parts: seq<Spec>, size: nat, p: nat)
    requires Cuts(parts, size, p)
    ensures Tiles(parts, size)
  {
    CountCovers(size, p);
    assert Cut(size, p, 0) == 0;
    assert |parts| >= 1;
    assert parts[0] == Spec(1, Cut(size, p, 1) - Cut(size, p, 0), Cut(size, p, 0));
    var last := |parts| - 1;
    assert parts[last] == Spec(last + 1, Cut(size, p, last + 1) - Cut(size, p, last), Cut(size, p, last));
    assert Cut(size, p, last + 1) == size;
    forall k | 0 <= k < |parts|
      ensures parts[k].number == k + 1
      ensures k > 0 ==> parts[k].offset == parts[k - 1].offset + parts[k - 1].size
    {
      assert parts[k] == Spec(k + 1, Cut(size, p, k + 1) - Cut(size, p, k), Cut(size, p, k));
      if k > 0 {
        assert parts[k - 1] == Spec(k, Cut(size, p, k) - Cut(size, p, k - 1), Cut(size, p, k - 1));
      }
    }
    if size > 0 {
      forall k | 0 <= k < |parts|
        ensures parts[k].size > 0
      {
        PartLenIsCut(size, p, k + 1);
      }
    }
  }

  /** The parts not yet completed, in order. */
  function Pending(parts: seq<Spec>, completed: set<nat>): (pending: seq<Spec>)
    ensures forall x :: x in pending <==> x in parts && x.number !in completed
    ensures |pending| <= |parts|
  {
    if parts == [] then [] else
      var last := parts[|parts| - 1];
      assert parts == parts[..|parts| - 1] + [last];
      Pending(parts[..|parts| - 1], completed) + if last.number in completed then [] else [last]
  }

  ghost predicate Rising(parts: seq<Spec>) {
    forall i, j :: 0 <= i < j < |parts| ==> parts[i].number < parts[j].number
  }

  lemma {:induction false} PendingRises(parts: seq<Spec>, completed: set<nat>)
    ensures Rising(parts) ==> Rising(Pending(parts, completed))
  {
    if parts != [] {
      var front, last := parts[..|parts| - 1], parts[|parts| - 1];
      PendingRises(front, completed);
      assert Rising(parts) ==> Rising(front) && forall x :: x in front ==> x.number < last.number;
    }
  }

  /** pending139Parts: exactly the parts not completed, in ascending order when the parts are. */
  method PendingParts(parts: seq<Spec>, completed: set<nat>) returns (pending: seq<Spec>)
    ensures pending == Pending(parts, completed)
    ensures Rising(parts) ==> Rising(pending)
  {
    PendingRises(parts, completed);
    pending := [];
    for k := 0 to |parts|
      invariant pending == Pending(parts[..k], completed)
    {
      assert parts[..k + 1][..k] == parts[..k];
      if parts[k].number !in completed {
        pending := pending + [parts[k]];
      }
    }
    assert parts[..|parts|] == parts;
  }

  function TotalSize(parts: seq<Spec>): nat {
    if parts == [] then 0 else TotalSize(parts[..|parts| - 1]) + parts[|parts| - 1].size
  }

  /** The sizes of the completed parts. */
  function Uploaded(parts: seq<Spec>, completed: set<nat>): nat {
    if parts == [] then 0 else
      var last := parts[|parts| - 1];
      Uploaded(parts[..|parts| - 1], completed) + if last.number in completed then last.size else 0
  }

  /** uploaded139Bytes */
  method UploadedBytes(parts: seq<Spec>, completed: set<nat>) returns (uploaded: nat)
    ensures uploaded == Uploaded(parts, completed)
  {
    uploaded := 0;
    for k := 0 to |parts|
      invariant uploaded == Uploaded(parts[..k], completed)
    {
      assert parts[..k + 1][..k] == parts[..k];
      if parts[k].number in completed {
        uploaded := uploaded + parts[k].size;
      }
    }
    assert parts[..|parts|] == parts;
  }

  lemma {:induction false} UploadedPlusPending(parts: seq<Spec>, completed: set<nat>)
    ensures Uploaded(parts, completed) + TotalSize(Pending(parts, completed)) == TotalSize(parts)
  {
    if parts != [] {
      var front, last := parts[..|parts| - 1], parts[|parts| - 1];
      UploadedPlusPending(front, completed);
      var rest := Pending(front, completed);
      if last.number in completed {
        assert Pending(parts, completed) == rest;
      } else {
        assert Pending(parts, completed) == rest + [last];
        assert (rest + [last])[..|rest|] == rest;
      }
    }
  }

  lemma {:induction false} TiledTotal(parts: seq<Spec>, k: nat)
    requires 1 <= k <= |parts| && parts[0].offset == 0
    requires forall j :: 0 < j < |parts| ==> parts[j].offset == parts[j - 1].offset + parts[j - 1].size
    ensures TotalSize(parts[..k]) == parts[k - 1].offset + parts[k - 1].size
  {
    assert parts[..k][..k - 1] == parts[..k - 1];
    if k > 1 {
      TiledTotal(parts, k - 1);
    }
  }

  /** For every completed set, what is uploaded and what is pending make up the whole file. */
  lemma UploadedAndPendingAreTheFile(parts: seq<Spec>, size: nat, completed: set<nat>)
    requires Tiles(parts, size)
    ensures Uploaded(parts, completed) + TotalSize(Pending(parts, completed)) == size
  {
    UploadedPlusPending(parts, completed);
    TiledTotal(parts, |parts|);
    assert parts[..|parts|] == parts;
  }

  datatype PartURL = PartURL(number: int, url: string)

  /** A part has an address that is not blank. */
  predicate HasURL(urls: map<int, string>, number: int) {
    number in urls && Text.TrimSpace(urls[number]) != ""
  }

  /** The item gives an address. */
  predicate Gives(item: PartURL) {
    item.number > 0 && Text.TrimSpace(item.url) != ""
  }

  /** The last address the items give for part `n`. */
  function LastURL(items: seq<PartURL>, n: int): Option<string> {
    if items == [] then None else
      var last := items[|items| - 1];
      if last.number == n && Gives(last) then Some(last.url) else LastURL(items[..|items| - 1], n)
  }

  /** Some item gives an address for part `n`. */
  ghost predicate GivesFor(items: seq<PartURL>, n: int) {
    LastURL(items, n).Some?
  }

  /** What is known of part `n` after the items: the last address they give, or what was known before. */
  function KnownURL(urls: map<int, string>, items: seq<PartURL>, n: int): Option<string> {
    match LastURL(items, n)
    case Some(url) => Some(url)
    case None => if n in urls then Some(urls[n]) else None
  }

  ghost predicate Merges(before: map<int, string>, items: seq<PartURL>, after: map<int, string>) {
    forall n :: (if n in after then Some(after[n]) else None) == KnownURL(before, items, n)
  }

  lemma MergesNothing(urls: map<int, string>, items: seq<PartURL>)
    ensures Merges(urls, items[..0], urls)
  {
  }

  lemma MergesOne(before: map<int, string>, items: seq<PartURL>, k: nat, after: map<int, string>)
    requires k < |items| && Merges(before, items[..k], after)
    ensures Merges(before, items[..k + 1], if Gives(items[k]) then after[items[k].number := items[k].url] else after)
  {
    hide Gives;
    assert items[..k + 1][..k] == items[..k];
  }

  /** Item k is the last to give part `n` an address. */
  ghost predicate LastGiving(items: seq<PartURL>, n: int, k: nat) {
    && k < |items| && items[k].number == n > 0 && Text.TrimSpace(items[k].url) != ""
    && forall j :: k < j < |items| && items[j].number == n ==> Text.TrimSpace(items[j].url) == ""
  }

  /** Where the items give a part an address its last one is known afterwards, and elsewhere nothing changes. */
  ghost predicate MergesLast(before: map<int, string>, items: seq<PartURL>, after: map<int, string>) {
    && (forall n, k: nat :: LastGiving(items, n, k) ==> n in after && after[n] == items[k].url)
    && (forall n :: n in before ==> n in after)
    && (forall n :: n in after && (n !in before || after[n] != before[n]) ==> exists k: nat :: LastGiving(items, n, k))
  }

  lemma {:induction false} LastURLIs(items: seq<PartURL>, n: int, k: nat)
    requires LastGiving(items, n, k)
    ensures LastURL(items, n) == Some(items[k].url)
  {
    hide Text.TrimSpace;
    if k < |items| - 1 {
      LastURLIs(items[..|items| - 1], n, k);
    }
  }

  lemma {:induction false} LastGiver(items: seq<PartURL>, n: int) returns (k: nat)
    requires LastURL(items, n).Some?
    ensures LastGiving(items, n, k)
  {
    hide Text.TrimSpace;
    k := |items| - 1;
    if !(items[k].number == n && Gives(items[k])) {
      k := LastGiver(items[..k], n);
    }
  }

  lemma MergesAreLast(before: map<int, string>, items: seq<PartURL>, after: map<int, string>)
    requires Merges(before, items, after)
    ensures MergesLast(before, items, after)
  {
    hide LastURL, Text.TrimSpace;
    forall n, k: nat | LastGiving(items, n, k)
      ensures n in after && after[n] == items[k].url
    {
      LastURLIs(items, n, k);
      assert (if n in after then Some(after[n]) else None) == KnownURL(before, items, n);
    }
    forall n | n in before
      ensures n in after
    {
      assert (if n in after then Some(after[n]) else None) == KnownURL(before, items, n);
    }
    forall n | n in after && (n !in before || after[n] != before[n])
      ensures exists k: nat :: LastGiving(items, n, k)
    {
      assert (if n in after then Some(after[n]) else None) == KnownURL(before, items, n);
      var k := LastGiver(items, n);
    }
  }

  /** mergeUploadURLs: for each part the last address given, or what was known before. */
  method MergeUploadURLs(dest: map<int, string>, items: seq<PartURL>) returns (urls: map<int, string>)
    ensures Merges(dest, items, urls) && MergesLast(dest, items, urls)
  {
    hide Gives, Merges, MergesLast;
    urls := dest;
    MergesNothing(dest, items);
    for k := 0 to |items|
      invariant Merges(dest, items[..k], urls)
    {
      MergesOne(dest, items, k, urls);
      if Gives(items[k]) {
        urls := urls[items[k].number := items[k].url];
      }
    }
    assert items[..|items|] == items;
    MergesAreLast(dest, items, urls);
  }

  /** An address given is not blank, so merging never takes one away. */
  lemma {:induction false} LastURLGives(items: seq<PartURL>, n: int)
    ensures LastURL(items, n).Some? ==> Text.TrimSpace(LastURL(items, n).value) != ""
  {
    if items != [] {
      LastURLGives(items[..|items| - 1], n);
    }
  }

  lemma MergedHas(before: map<int, string>, items: seq<PartURL>, after: map<int, string>)
    requires Merges(before, items, after)
    ensures forall n :: HasURL(after, n) <==> HasURL(before, n) || GivesFor(items, n)
    ensures forall n :: HasURL(before, n) ==> HasURL(after, n)
  {
    forall n
      ensures HasURL(after, n) <==> HasURL(before, n) || GivesFor(items, n)
      ensures HasURL(before, n) ==> HasURL(after, n)
    {
      LastURLGives(items, n);
      hide LastURL;
      assert (if n in after then Some(after[n]) else None) == KnownURL(before, items, n);
    }
  }

  /** hasUploadURLs */
  method HasUploadURLs(urls: map<int, string>, parts: seq<Spec>) returns (all: bool)
    ensures all <==> AllHave(urls, parts)
  {
    for k := 0 to |parts|
      invariant forall j :: 0 <= j < k ==> HasURL(urls, parts[j].number)
    {
      if !HasURL(urls, parts[k].number) {
        return false;
      }
    }
    all := true;
  }

  /** The answer to one request for addresses: items, or an error. */
  type Answer = Option<seq<PartURL>>

  /** The server answers a request in full: an address for each part asked for. */
  ghost predicate InFull(asked: seq<Spec>, answer: seq<PartURL>) {
    forall k :: 0 <= k < |asked| ==> GivesFor(answer, asked[k].number)
  }

  /** Each request was for at most a hundred parts, all of them pending. */
  ghost predicate AskedRight(asked: seq<seq<Spec>>, pending: seq<Spec>) {
    forall k :: 0 <= k < |asked| ==>
      1 <= |asked[k]| <= 100 && forall x :: x in asked[k] ==> x in pending
  }

  ghost predicate Answered(asked: seq<seq<Spec>>, answers: seq<Answer>) {
    |asked| <= |answers| && forall k :: 0 <= k < |asked| ==> answers[k].Some?
  }

  ghost predicate AllInFull(asked: seq<seq<Spec>>, answers: seq<Answer>)
    requires Answered(asked, answers)
  {
    forall k :: 0 <= k < |asked| ==> InFull(asked[k], answers[k].value)
  }

  /** The first `k` parts have addresses. */
  ghost predicate Covered(urls: map<int, string>, parts: seq<Spec>, k: nat)
    requires k <= |parts|
  {
    forall j :: 0 <= j < k ==> HasURL(urls, parts[j].number)
  }

  ghost predicate KeepsURLs(before: map<int, string>, after: map<int, string>) {
    forall n :: HasURL(before, n) ==> HasURL(after, n)
  }

  /** Every part of the batch has an address. */
  predicate AllHave(urls: map<int, string>, batch: seq<Spec>) {
    forall k :: 0 <= k < |batch| ==> HasURL(urls, batch[k].number)
  }

  /** One batch: skipped when every part in it has an address, asked for otherwise. */
  method FetchBatch(batch: seq<Spec>, urls: map<int, string>, asked: seq<seq<Spec>>, answers: seq<Answer>, ghost pending: seq<Spec>)
    returns (ok: bool, urls': map<int, string>, asked': seq<seq<Spec>>)
    requires AskedRight(asked, pending) && Answered(asked, answers)
    requires 1 <= |batch| <= MAX_PARTS_PER_REQUEST && forall x :: x in batch ==> x in pending
    ensures asked' == if AllHave(urls, batch) then asked else asked + [batch]
    ensures ok <==> AllHave(urls, batch) || (|asked| < |answers| && answers[|asked|].Some?)
    ensures AskedRight(asked', pending) && (ok ==> Answered(asked', answers))
    ensures KeepsURLs(urls, urls')
    ensures ok && AllInFull(asked', answers) ==> AllInFull(asked, answers) && Covered(urls', batch, |batch|)
  {
    hide GivesFor, HasURL, AllInFull, AskedRight, Answered, Covered, InFull, AllHave, Merges;
    BatchFacts(batch, urls, asked, answers, pending);
    ok, urls', asked' := true, urls, asked;
    var had := HasUploadURLs(urls, batch);
    if !had {
      asked' := asked + [batch];
      if |asked| >= |answers| || answers[|asked|].None? {
        return false, urls, asked';
      }
      urls' := MergeUploadURLs(urls, answers[|asked|].value);
      FullSplits(asked, batch, answers);
      MergedCovers(batch, answers[|asked|].value, urls, urls');
    }
  }

  lemma BatchFacts(batch: seq<Spec>, urls: map<int, string>, asked: seq<seq<Spec>>, answers: seq<Answer>, pending: seq<Spec>)
    requires AskedRight(asked, pending) && Answered(asked, answers)
    requires 1 <= |batch| <= MAX_PARTS_PER_REQUEST && forall x :: x in batch ==> x in pending
    ensures AskedRight(asked + [batch], pending) && KeepsURLs(urls, urls)
    ensures AllHave(urls, batch) ==> Covered(urls, batch, |batch|)
  {
  }

  lemma MergedCovers(batch: seq<Spec>, answer: seq<PartURL>, before: map<int, string>, urls: map<int, string>)
    requires Merges(before, answer, urls)
    ensures InFull(batch, answer) ==> Covered(urls, batch, |batch|)
    ensures KeepsURLs(before, urls)
  {
    MergedHas(before, answer, urls);
    hide GivesFor, HasURL, Merges, LastURL;
  }

  lemma FullSplits(asked: seq<seq<Spec>>, batch: seq<Spec>, answers: seq<Answer>)
    requires Answered(asked, answers) && |asked| < |answers| && answers[|asked|].Some?
    ensures Answered(asked + [batch], answers)
    ensures AllInFull(asked + [batch], answers) ==> AllInFull(asked, answers) && InFull(batch, answers[|asked|].value)
  {
    hide InFull;
    var more := asked + [batch];
    assert forall k :: 0 <= k < |asked| ==> more[k] == asked[k];
    assert more[|asked|] == batch;
  }

  lemma CoveredMore(urls: map<int, string>, urls': map<int, string>, pending: seq<Spec>, start: nat, end: nat)
    requires start <= end <= |pending| && KeepsURLs(urls, urls') && Covered(urls, pending, start)
    requires Covered(urls', pending[start..end], end - start)
    ensures Covered(urls', pending, end)
  {
    hide HasURL;
    var batch := pending[start..end];
    forall j | 0 <= j < end
      ensures HasURL(urls', pending[j].number)
    {
      if j >= start {
        assert batch[j - start] == pending[j];
      }
    }
  }

  /** The address loop: one request for each batch of a hundred pending parts that lacks an address, the one
      that ends in an error included. If every request is answered in full, no pending part is left without
      an address. */
  method FetchURLs(pending: seq<Spec>, initial: map<int, string>, answers: seq<Answer>)
    returns (ok: bool, urls: map<int, string>, asked: seq<seq<Spec>>)
    ensures AskedRight(asked, pending) && |asked| <= Count(|pending|, 100)
    ensures ok ==> Answered(asked, answers)
    ensures !ok ==> asked != [] && (|asked| > |answers| || answers[|asked| - 1].None?)
    ensures KeepsURLs(initial, urls)
    ensures ok && AllInFull(asked, answers) ==> Covered(urls, pending, |pending|)
  {
    hide AskedRight, Answered, AllInFull, Covered, HasURL, AllHave, MergesLast;
    NothingAsked(pending, answers, initial);
    urls, asked, ok := initial, [], true;
    var start := 0;
    var batches: nat := 0;
    while start < |pending|
      invariant 0 <= start <= |pending| && ok
      invariant start <= batches * MAX_PARTS_PER_REQUEST && (start < |pending| ==> start == batches * MAX_PARTS_PER_REQUEST)
      invariant |asked| <= batches <= Count(|pending|, MAX_PARTS_PER_REQUEST)
      invariant AskedRight(asked, pending) && Answered(asked, answers)
      invariant AllInFull(asked, answers) ==> Covered(urls, pending, start)
      invariant KeepsURLs(initial, urls)
      decreases |pending| - start
    {
      var end := start + MAX_PARTS_PER_REQUEST;
      if end > |pending| {
        end := |pending|;
      }
      ghost var before := urls;
      ok, urls, asked := FetchBatch(pending[start..end], urls, asked, answers, pending);
      if !ok {
        return;
      }
      if AllInFull(asked, answers) {
        CoveredMore(before, urls, pending, start, end);
      }
      start := end;
      batches := batches + 1;
    }
  }

  lemma NothingAsked(pending: seq<Spec>, answers: seq<Answer>, urls: map<int, string>)
    ensures AskedRight([], pending) && Answered([], answers) && Covered(urls, pending, 0) && KeepsURLs(urls, urls)
  {
  }

  /** Each of the first `k` parts has an address or was done before. */
  ghost predicate AddressedOrDone(urls: map<int, string>, parts: seq<Spec>, k: nat, had: set<nat>)
    requires k <= |parts|
  {
    forall j :: 0 <= j < k ==> HasURL(urls, parts[j].number) || parts[j].number in had
  }

  /** Where the part loop stands before part `k`: `had` was done at its start, `now` is done. */
  ghost predicate Passed(urls: map<int, string>, parts: seq<Spec>, k: nat, had: set<nat>, now: set<nat>, empty: bool)
    requires k <= |parts|
  {
    && had <= now
    && (forall j :: 0 <= j < k ==> parts[j].number in now || empty)
    && (forall j :: k <= j < |parts| && parts[j].number in now ==> parts[j].number in had)
    && (!empty ==> AddressedOrDone(urls, parts, k, had))
  }

  lemma PassNone(urls: map<int, string>, parts: seq<Spec>, had: set<nat>, empty: bool)
    ensures Passed(urls, parts, 0, had, had, empty)
  {
  }

  lemma PassOne(urls: map<int, string>, parts: seq<Spec>, k: nat, had: set<nat>, now: set<nat>, empty: bool)
    requires k < |parts| && Passed(urls, parts, k, had, now, empty)
    requires forall j :: 0 <= j < |parts| ==> parts[j].number == j + 1
    ensures had <= now
    ensures parts[k].number in now || empty ==> Passed(urls, parts, k + 1, had, now, empty)
    ensures HasURL(urls, parts[k].number) ==> Passed(urls, parts, k + 1, had, now + {parts[k].number}, empty)
  {
    hide HasURL;
  }

  lemma PassedHere(urls: map<int, string>, parts: seq<Spec>, k: nat, had: set<nat>, now: set<nat>, empty: bool)
    requires k < |parts| && Passed(urls, parts, k, had, now, empty)
    requires forall j :: 0 <= j < |parts| ==> parts[j].number == j + 1
    ensures k + 1 in now <==> k + 1 in had
  {
    hide HasURL;
    assert parts[k].number == k + 1;
  }

  lemma NotAddressed(urls: map<int, string>, parts: seq<Spec>, k: nat, had: set<nat>)
    requires k < |parts| && !HasURL(urls, parts[k].number) && parts[k].number !in had
    ensures !AddressedOrDone(urls, parts, |parts|, had)
  {
    hide HasURL;
  }

  lemma PassedAll(urls: map<int, string>, plan: Plan, parts: seq<Spec>, had: set<nat>, now: set<nat>)
    requires Cuts(parts, |plan.file|, plan.p) && plan.n == |parts|
    requires Passed(urls, parts, |parts|, had, now, |plan.file| == 0)
    ensures Sufficient(plan, now) && had <= now
    ensures |plan.file| > 0 ==> AddressedOrDone(urls, parts, |parts|, had)
  {
    hide Cuts, Sufficient, AddressedOrDone;
    AllNumbered(plan, parts, now);
  }

  class Session {
    const plan: Plan
    const parts: seq<Spec>
    const file: LocalFile
    const remote: Remote
    var completedParts: set<nat>
    var saved: set<nat>
    var savedSession: bool
    ghost var sys: Sys

    ghost predicate Valid()
      reads this, file, remote
    {
      && plan.Valid() && Cuts(parts, |plan.file|, plan.p) && plan.n == |parts| && file.content == plan.file
      && Inv(plan, sys)
      && sys.store == remote.store && sys.joined == remote.joined
      && sys.saved.Keys == saved && (sys.running ==> sys.done.Keys == completedParts)
      && (!savedSession ==> saved == {})
    }

    constructor (parts: seq<Spec>, file: LocalFile, remote: Remote)
      requires Cuts(parts, |file.content|, PartSize.Size139(|file.content|))
      requires remote.store == map[] && remote.joined == None
      ensures Valid() && sys == Init && this.parts == parts && this.file == file && this.remote == remote
    {
      this.plan := Plan(file.content, PartSize.Size139(|file.content|), |parts|);
      this.parts, this.file, this.remote := parts, file, remote;
      completedParts, saved, savedSession, sys := {}, {}, false, Init;
      new;
      CountCovers(|plan.file|, plan.p);
      assert sys.saved.Keys == {};
    }

    /** persist139ResumeState */
    method Persist()
      requires Valid() && sys.running
      modifies this`saved, this`savedSession, this`sys
      ensures Valid() && Reaches(plan, old(sys), sys)
      ensures saved == completedParts && savedSession && sys == old(sys).(saved := sys.done)
    {
      hide Inv, Reaches, Cuts;
      ReachesSelf(plan, sys);
      OtherIsStep(plan, old(sys), sys, Step.Persist);
      saved, savedSession := completedParts, true;
      sys := sys.(saved := sys.done);
    }

    /** putUploadPart: the part's own section of the file. */
    method PutUploadPart(part: Spec) returns (r: Reply)
      requires Valid() && sys.running && part in parts && part.number !in completedParts
      modifies this`sys, this`completedParts, this`saved, this`savedSession, file, remote`script, remote`store
      ensures Valid() && sys.running && Reaches(plan, old(sys), sys)
      ensures completedParts == if r.Ok? then old(completedParts) + {part.number} else old(completedParts)
      ensures saved == if r.Ok? then completedParts else old(saved)
      ensures remote.script == Rest(old(remote.script)) && (Next(old(remote.script)).Accept? ==> r.Ok?)
    {
      hide Inv, Reaches, Cuts, Cut;
      SpecIsPart(plan, parts, part);
      ReachesSelf(plan, sys);
      file.SeekStart(part.offset);
      var data := file.Deliver(part.size);
      ghost var fate := Next(remote.script);
      r := remote.Put(part.number, data);
      PutIsStep(plan, old(sys), sys, fate, part.number, fate.Accept?);
      sys := AfterPut(plan, sys, fate, part.number, fate.Accept?);
      if r.Exists? {
        r := Failed(Fatal);
      }
      if r.Ok? {
        completedParts := completedParts + {part.number};
        ghost var was := sys;
        Persist();
        ReachesTrans(plan, old(sys), was, sys);
      }
    }

    /** The part loop: a missing address stops it, except for the single part of an empty file. */
    method SendParts(urls: map<int, string>, ghost more: nat) returns (fault: Option<Fault>, uploaded: nat, noAddress: bool)
      requires Valid() && sys.running
      modifies this`sys, this`completedParts, this`saved, this`savedSession, file, remote`script, remote`store
      ensures Valid() && sys.running && Reaches(plan, old(sys), sys)
      ensures old(completedParts) <= completedParts && (saved == old(saved) || saved == completedParts)
      ensures fault.None? ==> Sufficient(plan, completedParts) && uploaded == |plan.file|
      ensures fault.None? && |plan.file| > 0 ==> AddressedOrDone(urls, parts, |parts|, old(completedParts))
      ensures uploaded == Uploaded(parts, completedParts)
      ensures noAddress ==> fault.Some? && |plan.file| > 0 && !AddressedOrDone(urls, parts, |parts|, old(completedParts))
      ensures Granted(old(remote.script), Lacking(old(completedParts), plan.n) + more)
        ==> (fault.Some? ==> noAddress) && (fault.None? ==> Granted(remote.script, more))
    {
      hide Lacking, Inv, Reaches, HasURL, Uploaded, Sufficient, Passed, AddressedOrDone, Granted, Cuts;
      PartNumbers(plan, parts);
      ReachesSelf(plan, sys);
      PassNone(urls, parts, completedParts, |plan.file| == 0);
      fault, noAddress := None, false;
      ghost var all := Lacking(completedParts, plan.n);
      NoneLacking(completedParts);
      uploaded := UploadedBytes(parts, completedParts);
      for k := 0 to |parts|
        invariant Valid() && sys.running && Reaches(plan, old(sys), sys) && fault.None? && !noAddress
        invariant Passed(urls, parts, k, old(completedParts), completedParts, |plan.file| == 0)
        invariant uploaded == Uploaded(parts, completedParts)
        invariant saved == old(saved) || saved == completedParts
        invariant Lacking(old(completedParts), k) <= all
        invariant Granted(old(remote.script), all + more) ==> Granted(remote.script, all - Lacking(old(completedParts), k) + more)
      {
        var part := parts[k];
        PassOne(urls, parts, k, old(completedParts), completedParts, |plan.file| == 0);
        LackingNext(old(completedParts), k + 1);
        LackingLess(old(completedParts), k + 1, plan.n);
        GrantedNext(remote.script, all - Lacking(old(completedParts), k + 1) + more);
        GrantedLess(remote.script, all - Lacking(old(completedParts), k + 1) + more, all - Lacking(old(completedParts), k) + more);
        PassedHere(urls, parts, k, old(completedParts), completedParts, |plan.file| == 0);
        if part.number in completedParts {
          continue;
        }
        if !HasURL(urls, part.number) {
          if |plan.file| == 0 {
            continue;
          }
          NotAddressed(urls, parts, k, old(completedParts));
          return Some(Fatal), uploaded, true;
        }
        ghost var was, had := sys, completedParts;
        var r := PutUploadPart(part);
        ReachesTrans(plan, old(sys), was, sys);
        if !r.Ok? {
          return Some(FaultOf(r)), uploaded, false;
        }
        UploadedMore(parts, had, k);
        uploaded := uploaded + part.size;
      }
      PassedAll(urls, plan, parts, old(completedParts), completedParts);
      AllUploaded(plan, parts, completedParts);
    }

    /** Asks the server to put the parts together. */
    method Complete() returns (fault: Option<Fault>)
      requires Valid() && sys.running && Sufficient(plan, completedParts)
      modifies this`sys, remote`script, remote`joined
      ensures Valid() && sys.running && Reaches(plan, old(sys), sys) && sys == old(sys).(joined := sys.joined)
      ensures fault.None? ==> remote.joined == Some(plan.file)
      ensures Granted(old(remote.script), 1) ==> fault.None?
    {
      hide Inv, Reaches, Cuts, Sufficient, Granted;
      GrantedNext(remote.script, 0);
      ReachesSelf(plan, sys);
      CompleteIsStep(plan, old(sys), sys);
      var r := remote.CompleteAll();
      sys := sys.(joined := remote.joined);
      fault := if r.Ok? then None else Some(FaultOf(r));
    }

    /** The upload from the point where the session is known: fetch addresses, send, complete. `initial` are
        the addresses that came with a new session. */
    method UploadLocalFile(initial: seq<PartURL>, answers: seq<Answer>)
      returns (fault: Option<Fault>, uploaded: nat, ghost asked: seq<seq<Spec>>)
      requires Valid() && !sys.running
      modifies this, file, remote
      ensures Valid() && !sys.running && Reaches(plan, old(sys), sys)
      ensures fault.None? ==> remote.joined == Some(plan.file) && uploaded == |plan.file|
      ensures old(saved) <= saved
      ensures |asked| <= Count(|parts|, MAX_PARTS_PER_REQUEST)
      ensures Granted(old(remote.script), Lacking(old(saved), plan.n) + 2) && Answered(asked, answers) && AllInFull(asked, answers) ==> fault.None?
    {
      hide Lacking, Inv, Reaches, Cuts, Sufficient, KeepsURLs, AskedRight, Answered, AllInFull, Covered, HasURL, Granted, AddressedOrDone, Merges;
      uploaded, asked := 0, [];
      ghost var all := Lacking(saved, plan.n);
      var urls: map<int, string> := map[];
      var isNew := !savedSession;
      fault := Begin(all + 1);
      if fault.Some? { return; }
      ghost var was := sys;
      if isNew {
        urls := MergeUploadURLs(urls, initial);
      }
      var ok, requests := true, [];
      if |plan.file| > 0 {
        ok, urls, requests := FetchPending(urls, answers);
      }
      asked := requests;
      if ok {
        var noAddress;
        fault, uploaded, noAddress := SendParts(urls, 1);
        ReachesTrans(plan, old(sys), was, sys);
        if fault.None? {
          was := sys;
          fault := Complete();
          ReachesTrans(plan, old(sys), was, sys);
        }
      } else {
        fault := Some(Fatal);
      }
      OtherIsStep(plan, old(sys), sys, Step.Stop);
      sys := sys.(running := false, done := map[]);
    }

    /** Fetches the addresses of the parts still pending. */
    method FetchPending(initial: map<int, string>, answers: seq<Answer>) returns (ok: bool, urls: map<int, string>, asked: seq<seq<Spec>>)
      requires Valid() && sys.running
      ensures |asked| <= Count(|parts|, MAX_PARTS_PER_REQUEST)
      ensures ok ==> Answered(asked, answers)
      ensures Answered(asked, answers) ==> ok
      ensures ok && AllInFull(asked, answers) ==> AddressedOrDone(urls, parts, |parts|, completedParts)
    {
      hide Inv, Cuts, HasURL, AllInFull, KeepsURLs;
      var pending := PendingParts(parts, completedParts);
      ok, urls, asked := FetchURLs(pending, initial, answers);
      CountLess(|pending|, |parts|, MAX_PARTS_PER_REQUEST);
      if ok && AllInFull(asked, answers) {
        CoveredAreAddressed(urls, parts, completedParts);
      }
    }

    /** Reloads the saved parts, keeping the numbers of real ones, or creates a session. */
    method Begin(ghost more: nat) returns (fault: Option<Fault>)
      requires Valid() && !sys.running
      modifies this, remote`script, remote`store
      ensures Valid() && Reaches(plan, old(sys), sys)
      ensures fault.None? ==> sys.running && completedParts == saved
      ensures fault.Some? ==> sys == old(sys) && saved == old(saved)
      ensures old(savedSession) ==> fault.None? && saved == old(saved) && remote.script == old(remote.script)
      ensures !old(savedSession) && fault.None? ==> saved == {} && remote.store == map[]
      ensures Granted(old(remote.script), 1 + more) ==> fault.None? && Granted(remote.script, more)
    {
      hide Cuts, Granted;
      ReachesSelf(plan, sys);
      GrantedNext(remote.script, more);
      GrantedLess(remote.script, more, 1 + more);
      fault := None;
      if savedSession {
        OtherIsStep(plan, sys, sys, Step.Resume);
        completedParts := set i | i in saved && 1 <= i <= |parts|;
        assert completedParts == saved;
        sys := sys.(running := true, done := sys.saved);
      } else {
        var r := remote.Call();
        if !r.Ok? { return Some(FaultOf(r)); }
        OtherIsStep(plan, sys, sys, Restart);
        remote.Reset();
        completedParts, saved := {}, {};
        sys := sys.(running := true, store := map[], done := map[], saved := map[]);
        assert sys.done.Keys == {};
        ghost var was := sys;
        Persist();
        ReachesTrans(plan, old(sys), was, sys);
      }
    }
  }

  lemma CountLess(a: nat, b: nat, d: nat)
    requires a <= b && d > 0
    ensures Count(a, d) <= Count(b, d)
  {
    CountCovers(a, d);
    CountCovers(b, d);
    var n := Count(b, d);
    assert Cut(b, d, n) == b && n * d >= b;
    assert Cut(a, d, n) == a;
  }

  lemma CoveredAreAddressed(urls: map<int, string>, parts: seq<Spec>, completed: set<nat>)
    requires Covered(urls, Pending(parts, completed), |Pending(parts, completed)|)
    ensures AddressedOrDone(urls, parts, |parts|, completed)
  {
    hide HasURL;
    var pending := Pending(parts, completed);
    forall j | 0 <= j < |parts|
      ensures HasURL(urls, parts[j].number) || parts[j].number in completed
    {
      if parts[j].number !in completed {
        assert parts[j] in pending;
        var k :| 0 <= k < |pending| && pending[k] == parts[j];
        assert HasURL(urls, pending[k].number);
      }
    }
  }

  /** The uploaded bytes of the driver are those of the shared byte count. */
  lemma {:induction false} UploadedIsBytesOf(parts: seq<Spec>, size: nat, p: nat, completed: set<nat>, k: nat)
    requires Cuts(parts, size, p) && k <= |parts|
    ensures Uploaded(parts[..k], completed) == BytesOf(size, p, completed, k)
  {
    if k > 0 {
      assert parts[..k][..k - 1] == parts[..k - 1];
      UploadedIsBytesOf(parts, size, p, completed, k - 1);
      assert parts[k - 1] == SpecAt(size, p, k - 1);
    }
  }

  /** With every part that has bytes completed, the whole file is uploaded. */
  lemma AllUploaded(plan: Plan, parts: seq<Spec>, completed: set<nat>)
    requires plan.Valid() && Cuts(parts, |plan.file|, plan.p) && plan.n == |parts| && Sufficient(plan, completed)
    ensures Uploaded(parts, completed) == |plan.file|
  {
    UploadedIsBytesOf(parts, |plan.file|, plan.p, completed, |parts|);
    assert parts[..|parts|] == parts;
    BytesOfBounds(|plan.file|, plan.p, completed, plan.n);
    hide Cuts, Uploaded, BytesOf;
    forall i: nat | 1 <= i <= plan.n && Cut(|plan.file|, plan.p, i - 1) < Cut(|plan.file|, plan.p, i)
      ensures i in completed
    {
      assert |plan.Part(i)| > 0;
    }
  }

  lemma SpecIsPart(plan: Plan, parts: seq<Spec>, part: Spec)
    requires plan.Valid() && Cuts(parts, |plan.file|, plan.p) && plan.n == |parts| && part in parts
    ensures 1 <= part.number <= plan.n
    ensures Window(plan.file, part.offset, part.size) == plan.Part(part.number)
  {
    var k :| 0 <= k < |parts| && parts[k] == part;
    assert parts[k] == SpecAt(|plan.file|, plan.p, k);
  }

  lemma PartNumbers(plan: Plan, parts: seq<Spec>)
    requires Cuts(parts, |plan.file|, plan.p)
    ensures forall k :: 0 <= k < |parts| ==> parts[k].number == k + 1
  {
    forall k | 0 <= k < |parts|
      ensures parts[k].number == k + 1
    {
      assert parts[k] == SpecAt(|plan.file|, plan.p, k);
    }
  }

  lemma AllNumbered(plan: Plan, parts: seq<Spec>, completed: set<nat>)
    requires Cuts(parts, |plan.file|, plan.p) && plan.n == |parts|
    requires forall j :: 0 <= j < |parts| ==> parts[j].number in completed || |plan.file| == 0
    ensures Sufficient(plan, completed)
  {
    PartNumbers(plan, parts);
    forall i: nat | 1 <= i <= plan.n && |plan.Part(i)| > 0
      ensures i in completed
    {
      assert parts[i - 1].number == i;
    }
  }

  lemma {:induction false} UploadedUnchanged(parts: seq<Spec>, completed: set<nat>, number: nat)
    requires forall j :: 0 <= j < |parts| ==> parts[j].number != number
    ensures Uploaded(parts, completed + {number}) == Uploaded(parts, completed)
  {
    if parts != [] {
      UploadedUnchanged(parts[..|parts| - 1], completed, number);
    }
  }

  lemma {:induction false} UploadedMore(parts: seq<Spec>, completed: set<nat>, k: nat)
    requires k < |parts| && parts[k].number !in completed
    requires forall j :: 0 <= j < |parts| ==> parts[j].number == j + 1
    ensures Uploaded(parts, completed + {parts[k].number}) == Uploaded(parts, completed) + parts[k].size
    decreases |parts|
  {
    var front := parts[..|parts| - 1];
    if k == |parts| - 1 {
      UploadedUnchanged(front, completed, parts[k].number);
    } else {
      UploadedMore(front, completed, k);
      assert front[k] == parts[k];
    }
  }
}
