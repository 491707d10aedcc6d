/**
 internal/aiorganize/service.go: greedy chunking by count and encoded size, and the sampling of a work's
 files.
 */
module AiChunks {
  import opened AiWorks

  const MAX_CHUNK_WORKS := 10
  const MAX_CHUNK_BYTES := 16 * 1024
  const MAX_SAMPLE_FILES := 6
  const MAX_EPISODE_CHUNK_FILES := 20

  /** The encoded length of an item, left to the caller. */
  function Bytes<T>(items: seq<T>, size: T -> nat): nat {
    if items == [] then 0 else Bytes(items[..|items| - 1], size) + size(items[|items| - 1])
  }

  function Flatten<T>(chunks: seq<seq<T>>): seq<T> {
    if chunks == [] then [] else Flatten(chunks[..|chunks| - 1]) + chunks[|chunks| - 1]
  }

  /** A chunk within the limits; a single item may be over the byte limit. */
  ghost predicate Fits<T(!new)>(chunk: seq<T>, size: T -> nat, maxCount: nat, maxBytes: nat) {
    1 <= |chunk| <= maxCount && (|chunk| == 1 || Bytes(chunk, size) <= maxBytes)
  }

  /** The item could not have joined the chunk. */
  ghost predicate Overflows<T(!new)>(chunk: seq<T>, next: T, size: T -> nat, maxCount: nat, maxBytes: nat) {
    |chunk| >= maxCount || Bytes(chunk, size) + size(next) > maxBytes
  }

  /** Chunks within the limits, each cut only where the next item would not have fitted. */
  ghost predicate Greedy<T(!new)>(chunks: seq<seq<T>>, size: T -> nat, maxCount: nat, maxBytes: nat) {
    && (forall k :: 0 <= k < |chunks| ==> Fits(chunks[k], size, maxCount, maxBytes))
    && (forall k :: 0 < k < |chunks| ==>
          |chunks[k]| >= 1 && Overflows(chunks[k - 1], chunks[k][0], size, maxCount, maxBytes))
  }

  /** The loop of splitWorks and of splitEpisodeFiles. */
  method Split<T(!new)>(items: seq<T>, size: T -> nat, maxCount: nat, maxBytes: nat) returns (chunks: seq<seq<T>>)
    requires maxCount >= 1
    ensures Flatten(chunks) == items
    ensures Greedy(chunks, size, maxCount, maxBytes)
  {
    hide Pending, Flatten, Bytes, Greedy;
    chunks := [];
    var current: seq<T> := [];
    var total := 0;
    NoneSplit(items, size, maxCount, maxBytes);
    for n := 0 to |items|
      invariant Flatten(chunks) + current == items[..n]
      invariant total == Bytes(current, size)
      invariant Pending(chunks, current, size, maxCount, maxBytes)
    {
      var encoded := size(items[n]);
      TakeItem(chunks, current, items, n, size, maxCount, maxBytes);
      if |current| > 0 && (|current| >= maxCount || total + encoded > maxBytes) {
        chunks := chunks + [current];
        current := [];
        total := 0;
      }
      current := current + [items[n]];
      total := total + encoded;
    }
    assert items[..|items|] == items;
    LastChunk(chunks, current, size, maxCount, maxBytes);
    if |current| > 0 {
      chunks := chunks + [current];
    }
  }

  /** The finished chunks and the one being filled. */
  ghost predicate Pending<T(!new)>(chunks: seq<seq<T>>, current: seq<T>, size: T -> nat, maxCount: nat, maxBytes: nat) {
    && Greedy(chunks, size, maxCount, maxBytes)
    && (current == [] ==> chunks == [])
    && (current != [] ==> Fits(current, size, maxCount, maxBytes))
    && (current != [] && chunks != [] ==> Overflows(chunks[|chunks| - 1], current[0], size, maxCount, maxBytes))
  }

  lemma TakeItem<T(!new)>(chunks: seq<seq<T>>, current: seq<T>, items: seq<T>, n: nat, size: T -> nat, maxCount: nat, maxBytes: nat)
    requires n < |items| && maxCount >= 1 && Pending(chunks, current, size, maxCount, maxBytes)
    requires Flatten(chunks) + current == items[..n]
    ensures Bytes(current + [items[n]], size) == Bytes(current, size) + size(items[n])
    ensures Bytes([] + [items[n]], size) == size(items[n])
    ensures var full := |current| > 0 && (|current| >= maxCount || Bytes(current, size) + size(items[n]) > maxBytes);
      var chunks' := if full then chunks + [current] else chunks;
      var current' := (if full then [] else current) + [items[n]];
      Pending(chunks', current', size, maxCount, maxBytes) && Flatten(chunks') + current' == items[..n + 1]
  {
    var item := items[n];
    AppendItem(current, item, size, maxCount, maxBytes);
    assert items[..n + 1] == items[..n] + [item];
    hide Bytes, Fits, Overflows, Flatten, Greedy;
    if Overflows(current, item, size, maxCount, maxBytes) && current != [] {
      GreedyMore(chunks, current, size, maxCount, maxBytes);
      assert Flatten(chunks) + current + ([] + [item]) == items[..n] + [item];
    } else {
      assert Flatten(chunks) + (current + [item]) == Flatten(chunks) + current + [item];
    }
  }

  lemma LastChunk<T(!new)>(chunks: seq<seq<T>>, current: seq<T>, size: T -> nat, maxCount: nat, maxBytes: nat)
    requires Pending(chunks, current, size, maxCount, maxBytes)
    ensures Greedy(chunks, size, maxCount, maxBytes)
    ensures |current| > 0 ==> Greedy(chunks + [current], size, maxCount, maxBytes)
    ensures |current| > 0 ==> Flatten(chunks + [current]) == Flatten(chunks) + current
    ensures Flatten(chunks) + [] == Flatten(chunks)
  {
    hide Flatten, Bytes, Greedy;
    if |current| > 0 {
      GreedyMoreOrFirst(chunks, current, size, maxCount, maxBytes);
    }
  }

  lemma GreedyMoreOrFirst<T(!new)>(chunks: seq<seq<T>>, current: seq<T>, size: T -> nat, maxCount: nat, maxBytes: nat)
    requires Pending(chunks, current, size, maxCount, maxBytes) && |current| > 0
    ensures Greedy(chunks + [current], size, maxCount, maxBytes)
    ensures Flatten(chunks + [current]) == Flatten(chunks) + current
  {
    hide Flatten, Bytes, Greedy, Fits, Overflows;
    GreedyMore(chunks, current, size, maxCount, maxBytes);
  }

  lemma NoneSplit<T(!new)>(items: seq<T>, size: T -> nat, maxCount: nat, maxBytes: nat)
    ensures Flatten<T>([]) + [] == items[..0] && Bytes<T>([], size) == 0
    ensures Pending<T>([], [], size, maxCount, maxBytes)
  {
  }

  lemma GreedyMore<T(!new)>(chunks: seq<seq<T>>, chunk: seq<T>, size: T -> nat, maxCount: nat, maxBytes: nat)
    requires Greedy(chunks, size, maxCount, maxBytes) && Fits(chunk, size, maxCount, maxBytes)
    requires chunks != [] ==> |chunk| >= 1 && Overflows(chunks[|chunks| - 1], chunk[0], size, maxCount, maxBytes)
    ensures Greedy(chunks + [chunk], size, maxCount, maxBytes)
    ensures Flatten(chunks + [chunk]) == Flatten(chunks) + chunk
  {
    hide Overflows, Bytes, Fits, Flatten;
    FlattenMore(chunks, chunk);
    FitsNonempty(chunk, size, maxCount, maxBytes);
    var more := chunks + [chunk];
    forall k | 0 < k < |more|
      ensures |more[k]| >= 1 && Overflows(more[k - 1], more[k][0], size, maxCount, maxBytes)
    {
      assert k < |chunks| ==> more[k] == chunks[k] && more[k - 1] == chunks[k - 1];
    }
  }

  lemma FlattenMore<T(!new)>(chunks: seq<seq<T>>, chunk: seq<T>)
    ensures Flatten(chunks + [chunk]) == Flatten(chunks) + chunk
  {
    assert (chunks + [chunk])[..|chunks|] == chunks;
  }

  lemma FitsNonempty<T(!new)>(chunk: seq<T>, size: T -> nat, maxCount: nat, maxBytes: nat)
    requires Fits(chunk, size, maxCount, maxBytes)
    ensures |chunk| >= 1
  {
  }

  lemma AppendItem<T(!new)>(current: seq<T>, item: T, size: T -> nat, maxCount: nat, maxBytes: nat)
    requires maxCount >= 1 && (current != [] ==> Fits(current, size, maxCount, maxBytes))
    ensures Bytes(current + [item], size) == Bytes(current, size) + size(item)
    ensures [] + [item] == [item] && Bytes([item], size) == size(item)
    ensures Fits([item], size, maxCount, maxBytes)
    ensures current != [] && !Overflows(current, item, size, maxCount, maxBytes)
      ==> Fits(current + [item], size, maxCount, maxBytes) && (current + [item])[0] == current[0]
    ensures Overflows(current, item, size, maxCount, maxBytes)
      <==> |current| >= maxCount || Bytes(current, size) + size(item) > maxBytes
  {
    hide Bytes;
    AppendBytes(current, item, size);
    AppendBytes<T>([], item, size);
    assert [] + [item] == [item];
    NoBytes<T>(size);
  }

  lemma NoBytes<T>(size: T -> nat)
    ensures Bytes([], size) == 0
  {
  }

  /** The bytes of joined items are the sum. */
  lemma {:induction false} BytesOfBoth<T>(a: seq<T>, b: seq<T>, size: T -> nat)
    ensures Bytes(a + b, size) == Bytes(a, size) + Bytes(b, size)
    ensures |b| == 1 ==> Bytes(b, size) == size(b[0])
  {
    if b == [] {
      assert a + b == a;
    } else {
      BytesOfBoth(a, b[..|b| - 1], size);
      assert (a + b)[..|a + b| - 1] == a + b[..|b| - 1];
    }
  }

  lemma AppendBytes<T>(current: seq<T>, item: T, size: T -> nat)
    ensures Bytes(current + [item], size) == Bytes(current, size) + size(item)
  {
    assert (current + [item])[..|current|] == current;
  }

  lemma {:induction false} BytesPrefix<T(!new)>(items: seq<T>, k: nat, size: T -> nat)
    requires k < |items|
    ensures Bytes(items[..k], size) + size(items[k]) <= Bytes(items, size)
    decreases |items|
  {
    var front := items[..|items| - 1];
    if k < |items| - 1 {
      BytesPrefix(front, k, size);
      assert front[..k] == items[..k];
    }
  }

  lemma FlattenFirst<T(!new)>(chunks: seq<seq<T>>)
    requires chunks != []
    ensures Flatten(chunks) == chunks[0] + Flatten(chunks[1..])
    decreases |chunks|
  {
    hide Flatten;
    var front, last := chunks[..|chunks| - 1], chunks[|chunks| - 1];
    assert chunks == front + [last];
    FlattenMore(front, last);
    if front == [] {
      assert chunks[1..] == [];
      NoneFlat<T>();
    } else {
      FlattenFirst(front);
      assert chunks[1..] == front[1..] + [last];
      FlattenMore(front[1..], last);
      assert front[0] == chunks[0];
    }
  }

  /** A chunk that fits could have taken each of its own items. */
  lemma FitsTakesItsItems<T(!new)>(y: seq<T>, k: nat, size: T -> nat, maxCount: nat, maxBytes: nat)
    requires Fits(y, size, maxCount, maxBytes) && 1 <= k < |y|
    ensures !Overflows(y[..k], y[k], size, maxCount, maxBytes)
  {
    BytesPrefix(y, k, size);
  }

  lemma NextOverflows<T(!new)>(a: seq<seq<T>>, size: T -> nat, maxCount: nat, maxBytes: nat)
    requires Greedy(a, size, maxCount, maxBytes) && a != [] && Flatten(a[1..]) != []
    ensures Overflows(a[0], Flatten(a[1..])[0], size, maxCount, maxBytes)
  {
    hide Fits, Overflows, Bytes, Flatten;
    NoneFlat<T>();
    assert a[1..] != [];
    FlattenFirst(a[1..]);
    assert a[1..][0] == a[1];
    assert |a[1]| >= 1;
  }

  lemma NoneFlat<T>()
    ensures Flatten<T>([]) == []
  {
  }

  /** Of two greedy chunkings of the same items, the first does not start with the shorter chunk. */
  lemma FirstChunkUnique<T(!new)>(a: seq<seq<T>>, b: seq<seq<T>>, size: T -> nat, maxCount: nat, maxBytes: nat)
    requires Greedy(a, size, maxCount, maxBytes) && Greedy(b, size, maxCount, maxBytes)
    requires a != [] && b != [] && Flatten(a) == Flatten(b)
    ensures |a[0]| >= |b[0]|
  {
    hide Fits, Overflows, Bytes, Flatten;
    FlattenFirst(a);
    FlattenFirst(b);
    var x, y := a[0], b[0];
    FitsNonempty(x, size, maxCount, maxBytes);
    if |x| < |y| {
      SharedStart(x, Flatten(a[1..]), y, Flatten(b[1..]));
      FitsTakesItsItems(y, |x|, size, maxCount, maxBytes);
      NextOverflows(a, size, maxCount, maxBytes);
    }
  }

  lemma SharedStart<T>(x: seq<T>, p: seq<T>, y: seq<T>, q: seq<T>)
    requires x + p == y + q && |x| < |y|
    ensures p != [] && y[..|x|] == x && y[|x|] == p[0]
  {
    var all := x + p;
    assert all[|x|] == p[0] && all[|x|] == y[|x|];
    assert forall k :: 0 <= k < |x| ==> all[k] == x[k] && all[k] == y[k];
  }

  lemma SameStart<T>(x: seq<T>, p: seq<T>, y: seq<T>, q: seq<T>)
    requires x + p == y + q && |x| == |y|
    ensures x == y && p == q
  {
    var all := x + p;
    assert all[..|x|] == x && all[..|y|] == y && all[|x|..] == p && all[|y|..] == q;
  }

  lemma FlattenNonempty<T(!new)>(a: seq<seq<T>>, size: T -> nat, maxCount: nat, maxBytes: nat)
    requires Greedy(a, size, maxCount, maxBytes)
    ensures Flatten(a) == [] <==> a == []
  {
    hide Overflows;
    if a != [] {
      FitsNonempty(a[|a| - 1], size, maxCount, maxBytes);
    }
  }

  /** The limits and the greedy cuts leave no choice: there is only one such chunking. */
  lemma {:induction false} GreedyUnique<T(!new)>(a: seq<seq<T>>, b: seq<seq<T>>, size: T -> nat, maxCount: nat, maxBytes: nat)
    requires Greedy(a, size, maxCount, maxBytes) && Greedy(b, size, maxCount, maxBytes)
    requires Flatten(a) == Flatten(b)
    ensures a == b
    decreases |a|
  {
    hide Greedy, Flatten;
    FlattenNonempty(a, size, maxCount, maxBytes);
    FlattenNonempty(b, size, maxCount, maxBytes);
    if a != [] {
      FirstChunkUnique(a, b, size, maxCount, maxBytes);
      FirstChunkUnique(b, a, size, maxCount, maxBytes);
      FlattenFirst(a);
      FlattenFirst(b);
      SameStart(a[0], Flatten(a[1..]), b[0], Flatten(b[1..]));
      TailGreedy(a, size, maxCount, maxBytes);
      TailGreedy(b, size, maxCount, maxBytes);
      GreedyUnique(a[1..], b[1..], size, maxCount, maxBytes);
      assert a == [a[0]] + a[1..] && b == [b[0]] + b[1..];
    }
  }

  lemma TailGreedy<T(!new)>(a: seq<seq<T>>, size: T -> nat, maxCount: nat, maxBytes: nat)
    requires Greedy(a, size, maxCount, maxBytes) && a != []
    ensures Greedy(a[1..], size, maxCount, maxBytes)
  {
    var t := a[1..];
    assert forall k :: 0 <= k < |t| ==> t[k] == a[k + 1];
  }

  /** Which of the files stand for a work: the i-th of six, spread from the first to the last. */
  function SampleIndex(last: nat, i: nat): (k: nat)
    ensures i < MAX_SAMPLE_FILES ==> k <= last
  {
    assert i < MAX_SAMPLE_FILES ==> i * last <= 5 * last;
    i * last / (MAX_SAMPLE_FILES - 1)
  }

  function Sampled<F>(files: seq<F>): (sample: seq<F>) {
    if |files| <= MAX_SAMPLE_FILES then files else
      seq(MAX_SAMPLE_FILES, i requires 0 <= i < MAX_SAMPLE_FILES => files[SampleIndex(|files| - 1, i)])
  }

  /** sampleWork. */
  method SampleWork(work: Work) returns (sampled: Work)
    ensures sampled == work.(files := Sampled(work.files))
    ensures |work.files| <= 6 ==> sampled == work
  {
    if |work.files| <= MAX_SAMPLE_FILES {
      return work;
    }
    var files: seq<File> := [];
    var last := |work.files| - 1;
    for i := 0 to MAX_SAMPLE_FILES
      invariant |files| == i
      invariant forall j :: 0 <= j < i ==> files[j] == work.files[SampleIndex(last, j)]
    {
      files := files + [work.files[SampleIndex(last, i)]];
    }
    sampled := work.(files := files);
  }

  /** The sample starts with the first file, ends with the last, keeps their order and takes none twice. */
  lemma SampleSpreads<F>(files: seq<F>, i: nat, j: nat)
    requires |files| > MAX_SAMPLE_FILES && i < j < MAX_SAMPLE_FILES
    ensures var s, last := Sampled(files), |files| - 1;
      && |s| == MAX_SAMPLE_FILES && s[0] == files[0] && s[MAX_SAMPLE_FILES - 1] == files[last]
      && s[i] == files[SampleIndex(last, i)] && s[j] == files[SampleIndex(last, j)]
      && SampleIndex(last, i) < SampleIndex(last, j)
  {
    hide SampleIndex;
    SampleIndexGrows(|files| - 1, i, j);
  }

  lemma SampleIndexGrows(last: nat, i: nat, j: nat)
    requires last >= MAX_SAMPLE_FILES && i < j < MAX_SAMPLE_FILES
    ensures SampleIndex(last, 0) == 0 && SampleIndex(last, MAX_SAMPLE_FILES - 1) == last
    ensures SampleIndex(last, i) < SampleIndex(last, j)
  {
    assert j * last >= i * last + last by {
      assert (j - i) * last >= last;
      assert j * last == i * last + (j - i) * last;
    }
  }

  /** Neighbours in the sample lie a fifth of the way apart, rounded down or up. */
  lemma SampleGaps<F>(files: seq<F>, i: nat)
    requires |files| > 6 && i < 5
    ensures var s, last := Sampled(files), |files| - 1;
      var a, b := SampleIndex(last, i), SampleIndex(last, i + 1);
      && |s| == 6 && s[i] == files[a] && s[i + 1] == files[b]
      && last / 5 <= b - a <= last / 5 + 1
  {
    var last := |files| - 1;
    assert (i + 1) * last == i * last + last;
  }

  /** splitWorks: a work counts with the encoded length of its sample. */
  method SplitWorks(works: seq<Work>, encoded: Work -> nat) returns (chunks: seq<seq<Work>>)
    ensures Flatten(chunks) == works
    ensures Greedy(chunks, SampledLength(encoded), 10, 16384)
    ensures forall w :: SampledLength(encoded)(w) == encoded(w.(files := Sampled(w.files)))
  {
    chunks := Split(works, SampledLength(encoded), MAX_CHUNK_WORKS, MAX_CHUNK_BYTES);
  }

  function SampledLength(encoded: Work -> nat): Work -> nat {
    (w: Work) => encoded(w.(files := Sampled(w.files)))
  }

  /** splitEpisodeFiles. */
  method SplitEpisodeFiles(files: seq<File>, encoded: File -> nat) returns (chunks: seq<seq<File>>)
    ensures Flatten(chunks) == files
    ensures Greedy(chunks, encoded, 20, 16384)
  {
    chunks := Split(files, encoded, MAX_EPISODE_CHUNK_FILES, MAX_CHUNK_BYTES);
  }
}
