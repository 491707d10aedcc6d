/** internal/aiorganize/service.go: recognising a chunk, halving it when the model times out. */
module AiRecognition {
  import opened AiWorks

  const MAX_SPLIT_DEPTH := 2

  /** How one call to the model ends (recognizeChunk, its repair call included). */
  datatype Answer = Answered(items: seq<Item>) | Timeout | Refused

  /** One call, and whether the request had been cancelled by the time it ended. */
  datatype Attempt = Attempt(answer: Answer, cancelled: bool)

  datatype Failure = NoError | ModelTimeout | ModelError | Cancelled

  /** The works from `start` to `end` were answered by call number `attempt`. */
  datatype Batch = Batch(start: nat, end: nat, attempt: nat)

  /** Call number `attempt` was made, and reported, for the works from `start` to `end` at a depth. */
  datatype Asked = Asked(start: nat, end: nat, depth: nat, attempt: nat)

  /** What a chunk's recognition leaves: the items, how many works failed, the error, the number of the next
      call, whether the request is cancelled, the batches that were answered and every call made. */
  datatype Outcome = Outcome(items: seq<Item>, failed: nat, err: Failure, next: nat, cancelled: bool,
                             answered: seq<Batch>, asked: seq<Asked>)

  function FailureOf(a: Answer): Failure {
    match a
    case Answered(_) => NoError
    case Timeout => ModelTimeout
    case Refused => ModelError
  }

  /** Only a timeout on more than one work, not yet at the greatest depth, is tried again in halves. */
  predicate Splits(a: Answer, n: nat, depth: nat) {
    a.Timeout? && n > 1 && depth < MAX_SPLIT_DEPTH
  }

  /** recognizeChunkAdaptive on the `n` works that start at `base`, from call number `next` of `calls`. */
  function Recognize(base: nat, n: nat, depth: nat, calls: nat -> Attempt, next: nat, cancelled: bool): (o: Outcome)
    decreases MAX_SPLIT_DEPTH - depth
  {
    var cancelled1 := cancelled || calls(next).cancelled;
    if !Splits(calls(next).answer, n, depth) then
      Whole(base, n, depth, calls(next).answer, next, cancelled1)
    else
      var left := Recognize(base, n / 2, depth + 1, calls, next + 1, cancelled1);
      if left.cancelled then
        LeftOnly(left, n - n / 2, Asked(base, base + n, depth, next))
      else
        Both(left, Recognize(base + n / 2, n - n / 2, depth + 1, calls, left.next, false), Asked(base, base + n, depth, next))
  }

  function Whole(base: nat, n: nat, depth: nat, a: Answer, next: nat, cancelled: bool): Outcome {
    if a.Answered? then
      Outcome(a.items, 0, NoError, next + 1, cancelled, [Batch(base, base + n, next)], [Asked(base, base + n, depth, next)])
    else
      Outcome([], n, FailureOf(a), next + 1, cancelled, [], [Asked(base, base + n, depth, next)])
  }

  function LeftOnly(left: Outcome, rest: nat, call: Asked): Outcome {
    left.(failed := left.failed + rest, err := Cancelled, asked := [call] + left.asked)
  }

  function Both(left: Outcome, right: Outcome, call: Asked): Outcome {
    Outcome(left.items + right.items, left.failed + right.failed,
            if left.err != NoError then left.err else right.err, right.next, right.cancelled,
            left.answered + right.answered, [call] + left.asked + right.asked)
  }

  /** One step of the recursion. */
  lemma RecognizeStep(base: nat, n: nat, depth: nat, calls: nat -> Attempt, next: nat, cancelled: bool)
    returns (left: Outcome, right: Outcome, cancelled1: bool)
    ensures cancelled1 == (cancelled || calls(next).cancelled)
    ensures left == Recognize(base, n / 2, depth + 1, calls, next + 1, cancelled1)
    ensures right == Recognize(base + n / 2, n - n / 2, depth + 1, calls, left.next, false)
    ensures Recognize(base, n, depth, calls, next, cancelled)
      == if !Splits(calls(next).answer, n, depth) then Whole(base, n, depth, calls(next).answer, next, cancelled1)
         else if left.cancelled then LeftOnly(left, n - n / 2, Asked(base, base + n, depth, next))
         else Both(left, right, Asked(base, base + n, depth, next))
  {
    cancelled1 := cancelled || calls(next).cancelled;
    left := Recognize(base, n / 2, depth + 1, calls, next + 1, cancelled1);
    right := Recognize(base + n / 2, n - n / 2, depth + 1, calls, left.next, false);
  }

  function Works(batches: seq<Batch>): int {
    if batches == [] then 0 else batches[0].end - batches[0].start + Works(batches[1..])
  }

  lemma {:induction false} WorksOfBoth(a: seq<Batch>, b: seq<Batch>)
    ensures Works(a + b) == Works(a) + Works(b)
  {
    if a == [] {
      assert a + b == b;
    } else {
      WorksOfBoth(a[1..], b);
      assert (a + b)[1..] == a[1..] + b;
    }
  }

  /** Nothing is lost or counted twice: the failed works and the works of the answered batches are the whole
      chunk, and there is an error exactly when a work failed. */
  lemma {:induction false} FailedAndAnsweredAreAll(base: nat, n: nat, depth: nat, calls: nat -> Attempt, next: nat, cancelled: bool)
    requires n >= 1
    ensures var o := Recognize(base, n, depth, calls, next, cancelled);
      o.failed + Works(o.answered) == n && (o.err == NoError <==> o.failed == 0)
    decreases MAX_SPLIT_DEPTH - depth
  {
    hide Recognize;
    var left, right, cancelled1 := RecognizeStep(base, n, depth, calls, next, cancelled);
    if Splits(calls(next).answer, n, depth) {
      FailedAndAnsweredAreAll(base, n / 2, depth + 1, calls, next + 1, cancelled1);
      FailedAndAnsweredAreAll(base + n / 2, n - n / 2, depth + 1, calls, left.next, false);
      WorksOfBoth(left.answered, right.answered);
    }
  }

  /** Batches within `lo..hi`, one after the other without overlap, each answered by a later call than the
      one before, all by calls from `first` to before `last`. */
  ghost predicate InOrder(batches: seq<Batch>, lo: nat, hi: nat, first: nat, last: nat)
    decreases |batches|
  {
    if batches == [] then lo <= hi && first <= last else
      var b := batches[0];
      && lo <= b.start <= b.end <= hi && first <= b.attempt < last
      && InOrder(batches[1..], b.end, hi, b.attempt + 1, last)
  }

  lemma {:induction false} InOrderJoins(a: seq<Batch>, b: seq<Batch>, lo: nat, mid: nat, hi: nat, first: nat, next: nat, last: nat)
    requires InOrder(a, lo, mid, first, next) && InOrder(b, mid, hi, next, last)
    ensures InOrder(a + b, lo, hi, first, last)
    decreases |a|
  {
    InOrderBounds(b, mid, hi, next, last);
    if a == [] {
      assert a + b == b;
      InOrderWidens(b, lo, mid, hi, hi, first, next, last, last);
    } else {
      InOrderBounds(a, lo, mid, first, next);
      assert (a + b)[1..] == a[1..] + b;
      InOrderJoins(a[1..], b, a[0].end, mid, hi, a[0].attempt + 1, next, last);
    }
  }

  lemma {:induction false} InOrderBounds(a: seq<Batch>, lo: nat, hi: nat, first: nat, last: nat)
    requires InOrder(a, lo, hi, first, last)
    ensures lo <= hi && first <= last
    decreases |a|
  {
    if a != [] {
      InOrderBounds(a[1..], a[0].end, hi, a[0].attempt + 1, last);
    }
  }

  lemma {:induction false} InOrderWidens(a: seq<Batch>, lo: nat, lo1: nat, hi1: nat, hi: nat, first: nat, first1: nat, last1: nat, last: nat)
    requires InOrder(a, lo1, hi1, first1, last1) && lo <= lo1 && hi1 <= hi && first <= first1 && last1 <= last
    ensures InOrder(a, lo, hi, first, last)
    decreases |a|
  {
    if a != [] {
      InOrderWidens(a[1..], a[0].end, a[0].end, hi1, hi, a[0].attempt + 1, a[0].attempt + 1, last1, last);
    }
  }

  /** The items of the calls that answered the batches, joined in order. */
  function AnswersOf(batches: seq<Batch>, calls: nat -> Attempt): seq<Item> {
    if batches == [] then [] else ItemsOf(calls(batches[0].attempt).answer) + AnswersOf(batches[1..], calls)
  }

  function ItemsOf(answer: Answer): seq<Item> {
    if answer.Answered? then answer.items else []
  }

  lemma {:induction false} AnswersOfBoth(a: seq<Batch>, b: seq<Batch>, calls: nat -> Attempt)
    ensures AnswersOf(a + b, calls) == AnswersOf(a, calls) + AnswersOf(b, calls)
  {
    hide ItemsOf;
    if a == [] {
      assert a + b == b;
    } else {
      AnswersOfBoth(a[1..], b, calls);
      assert (a + b)[1..] == a[1..] + b;
      var first := ItemsOf(calls(a[0].attempt).answer);
      assert first + (AnswersOf(a[1..], calls) + AnswersOf(b, calls)) == first + AnswersOf(a[1..], calls) + AnswersOf(b, calls);
    }
  }

  /** The answered batches are disjoint stretches of the chunk from left to right, and the items are their
      answers joined in that order. */
  lemma {:induction false} BatchesInOrder(base: nat, n: nat, depth: nat, calls: nat -> Attempt, next: nat, cancelled: bool)
    ensures var o := Recognize(base, n, depth, calls, next, cancelled);
      && InOrder(o.answered, base, base + n, next, o.next)
      && o.items == AnswersOf(o.answered, calls)
    decreases MAX_SPLIT_DEPTH - depth
  {
    hide Recognize, InOrder, AnswersOf;
    var left, right, cancelled1 := RecognizeStep(base, n, depth, calls, next, cancelled);
    if Splits(calls(next).answer, n, depth) {
      var m := n / 2;
      BatchesInOrder(base, m, depth + 1, calls, next + 1, cancelled1);
      InOrderWidens(left.answered, base, base, base + m, base + n, next, next + 1, left.next, left.next);
      InOrderWidens(left.answered, base, base, base + m, base + m, next, next + 1, left.next, left.next);
      BatchesInOrder(base + m, n - m, depth + 1, calls, left.next, false);
      InOrderJoins(left.answered, right.answered, base, base + m, base + n, next, left.next, right.next);
      AnswersOfBoth(left.answered, right.answered, calls);
    } else {
      WholeInOrder(base, n, depth, calls, next, cancelled1);
    }
  }

  lemma WholeInOrder(base: nat, n: nat, depth: nat, calls: nat -> Attempt, next: nat, cancelled: bool)
    ensures var o := Whole(base, n, depth, calls(next).answer, next, cancelled);
      InOrder(o.answered, base, base + n, next, o.next) && o.items == AnswersOf(o.answered, calls)
  {
    var a, batch := calls(next).answer, Batch(base, base + n, next);
    assert [batch][1..] == [] && AnswersOf([], calls) == [];
    assert a.Answered? ==> AnswersOf([batch], calls) == a.items + [] == a.items;
  }

  /** The most calls a chunk can take from a depth on. */
  function MostCalls(depth: nat): nat
    decreases MAX_SPLIT_DEPTH - depth
  {
    if depth >= MAX_SPLIT_DEPTH then 1 else 1 + 2 * MostCalls(depth + 1)
  }

  /** The calls made, one after the other from number `next`, each for a nonempty stretch within the chunk and
      not below the greatest depth. */
  ghost predicate AskedRight(asked: seq<Asked>, base: nat, n: nat, depth: nat, next: nat) {
    forall k :: 0 <= k < |asked| ==>
      && asked[k].attempt == next + k && depth <= asked[k].depth <= MAX_SPLIT_DEPTH
      && base <= asked[k].start < asked[k].end <= base + n
  }

  lemma AskedJoins(call: Asked, a: seq<Asked>, b: seq<Asked>, base: nat, m: nat, n: nat, depth: nat, next: nat)
    requires m <= n && call == Asked(base, base + n, depth, next) && n >= 1 && depth < MAX_SPLIT_DEPTH
    requires AskedRight(a, base, m, depth + 1, next + 1)
    requires AskedRight(b, base + m, n - m, depth + 1, next + 1 + |a|)
    ensures AskedRight([call] + a, base, n, depth, next) && AskedRight([call] + a + b, base, n, depth, next)
  {
    var all := [call] + a + b;
    forall k | 0 <= k < |all|
      ensures all[k].attempt == next + k && depth <= all[k].depth <= MAX_SPLIT_DEPTH
      ensures base <= all[k].start < all[k].end <= base + n
    {
      if 0 < k <= |a| {
        assert all[k] == a[k - 1];
      } else if k > |a| {
        assert all[k] == b[k - 1 - |a|];
      }
    }
    assert forall k :: 0 <= k < |[call] + a| ==> ([call] + a)[k] == all[k];
  }

  /** At most seven calls a chunk, each reported first, none for an empty batch or below the greatest depth;
      a chunk begun after a cancellation takes at most one call for each depth. */
  lemma {:induction false} CallsAreBounded(base: nat, n: nat, depth: nat, calls: nat -> Attempt, next: nat, cancelled: bool)
    requires n >= 1 && depth <= MAX_SPLIT_DEPTH
    ensures var o := Recognize(base, n, depth, calls, next, cancelled);
      && next < o.next <= next + MostCalls(depth)
      && |o.asked| == o.next - next && AskedRight(o.asked, base, n, depth, next)
      && (cancelled ==> o.cancelled && o.next <= next + 1 + MAX_SPLIT_DEPTH - depth)
    decreases MAX_SPLIT_DEPTH - depth
  {
    hide Recognize, AskedRight;
    var left, right, cancelled1 := RecognizeStep(base, n, depth, calls, next, cancelled);
    if Splits(calls(next).answer, n, depth) {
      CallsAreBounded(base, n / 2, depth + 1, calls, next + 1, cancelled1);
      CallsAreBounded(base + n / 2, n - n / 2, depth + 1, calls, left.next, false);
      AskedJoins(Asked(base, base + n, depth, next), left.asked, right.asked, base, n / 2, n, depth, next);
    } else {
      OneAsked(base, n, depth, next);
    }
  }

  lemma OneAsked(base: nat, n: nat, depth: nat, next: nat)
    requires n >= 1 && depth <= MAX_SPLIT_DEPTH
    ensures AskedRight([Asked(base, base + n, depth, next)], base, n, depth, next)
  {
  }

  lemma SevenCalls()
    ensures MostCalls(0) == 7
  {
    assert MostCalls(2) == 1 && MostCalls(1) == 3;
  }

  // ---- which works failed ----

  /** The stretches of the calls that were answered. */
  function AnsweredOf(asked: seq<Asked>, calls: nat -> Attempt): seq<Batch> {
    if asked == [] then [] else
      (if calls(asked[0].attempt).answer.Answered? then [Batch(asked[0].start, asked[0].end, asked[0].attempt)] else [])
      + AnsweredOf(asked[1..], calls)
  }

  lemma {:induction false} AnsweredOfBoth(a: seq<Asked>, b: seq<Asked>, calls: nat -> Attempt)
    ensures AnsweredOf(a + b, calls) == AnsweredOf(a, calls) + AnsweredOf(b, calls)
  {
    if a == [] {
      assert a + b == b;
    } else {
      AnsweredOfBoth(a[1..], b, calls);
      assert (a + b)[1..] == a[1..] + b;
      var first := if calls(a[0].attempt).answer.Answered? then [Batch(a[0].start, a[0].end, a[0].attempt)] else [];
      assert first + (AnsweredOf(a[1..], calls) + AnsweredOf(b, calls)) == first + AnsweredOf(a[1..], calls) + AnsweredOf(b, calls);
    }
  }

  lemma AnsweredOfOne(call: Asked, calls: nat -> Attempt)
    ensures AnsweredOf([call], calls)
      == if calls(call.attempt).answer.Answered? then [Batch(call.start, call.end, call.attempt)] else []
  {
    assert [call][1..] == [];
  }

  /** The answered batches are the stretches of the calls that were answered, in the order of the calls. */
  lemma {:induction false} AnsweredAreAsked(base: nat, n: nat, depth: nat, calls: nat -> Attempt, next: nat, cancelled: bool)
    ensures var o := Recognize(base, n, depth, calls, next, cancelled);
      o.answered == AnsweredOf(o.asked, calls)
    decreases MAX_SPLIT_DEPTH - depth
  {
    hide Recognize, AnsweredOf;
    var left, right, cancelled1 := RecognizeStep(base, n, depth, calls, next, cancelled);
    var call := Asked(base, base + n, depth, next);
    AnsweredOfOne(call, calls);
    if Splits(calls(next).answer, n, depth) {
      AnsweredAreAsked(base, n / 2, depth + 1, calls, next + 1, cancelled1);
      AnsweredAreAsked(base + n / 2, n - n / 2, depth + 1, calls, left.next, false);
      AnsweredOfBoth([call], left.asked, calls);
      AnsweredOfBoth([call] + left.asked, right.asked, calls);
      assert [] + left.answered == left.answered;
    }
  }

  lemma {:induction false} AnsweredMember(asked: seq<Asked>, calls: nat -> Attempt, b: Batch)
    ensures b in AnsweredOf(asked, calls)
      <==> exists a :: a in asked && calls(a.attempt).answer.Answered? && b == Batch(a.start, a.end, a.attempt)
  {
    if asked != [] {
      AnsweredMember(asked[1..], calls, b);
      assert asked == [asked[0]] + asked[1..];
    }
  }

  /** No call that asked about work `k` was answered. */
  ghost predicate FailedWork(asked: seq<Asked>, calls: nat -> Attempt, k: nat) {
    forall a :: a in asked && calls(a.attempt).answer.Answered? ==> !(a.start <= k < a.end)
  }

  function Span(start: nat, end: nat): (s: set<nat>)
    ensures forall k: nat :: k in s <==> start <= k < end
    ensures |s| == if start <= end then end - start else 0
    decreases end
  {
    if end <= start then {} else Span(start, end - 1) + {end - 1}
  }

  /** The works of the batches. */
  function Covered(batches: seq<Batch>): set<nat> {
    if batches == [] then {} else Span(batches[0].start, batches[0].end) + Covered(batches[1..])
  }

  lemma {:induction false} CoveredCount(batches: seq<Batch>, lo: nat, hi: nat, first: nat, last: nat)
    requires InOrder(batches, lo, hi, first, last)
    ensures |Covered(batches)| == Works(batches) && Covered(batches) <= Span(lo, hi)
    decreases |batches|
  {
    if batches != [] {
      var b := batches[0];
      CoveredCount(batches[1..], b.end, hi, b.attempt + 1, last);
      InOrderBounds(batches[1..], b.end, hi, b.attempt + 1, last);
      assert Span(b.start, b.end) !! Covered(batches[1..]);
    }
  }

  lemma {:induction false} CoveredIff(batches: seq<Batch>, k: nat)
    ensures k in Covered(batches) <==> exists b :: b in batches && b.start <= k < b.end
  {
    if batches != [] {
      CoveredIff(batches[1..], k);
      assert batches == [batches[0]] + batches[1..];
    }
  }

  /** The works counted as failed are exactly those that no answered call asked about. */
  lemma FailedAreCounted(n: nat, calls: nat -> Attempt, next: nat, cancelled: bool)
    requires n >= 1
    ensures var o := Recognize(0, n, 0, calls, next, cancelled);
      o.failed == |Span(0, n) - Covered(o.answered)|
      && forall k: nat :: k in Span(0, n) - Covered(o.answered) <==> k < n && FailedWork(o.asked, calls, k)
  {
    hide Recognize, FailedWork, Covered;
    var o := Recognize(0, n, 0, calls, next, cancelled);
    FailedAndAnsweredAreAll(0, n, 0, calls, next, cancelled);
    BatchesInOrder(0, n, 0, calls, next, cancelled);
    AnsweredAreAsked(0, n, 0, calls, next, cancelled);
    CoveredCount(o.answered, 0, n, next, o.next);
    assert Span(0, n) - Covered(o.answered) + Covered(o.answered) == Span(0, n);
    forall k: nat
      ensures k in Covered(o.answered) <==> !FailedWork(o.asked, calls, k)
    {
      CoveredAsked(o.asked, calls, k);
    }
  }

  lemma CoveredAsked(asked: seq<Asked>, calls: nat -> Attempt, k: nat)
    ensures k in Covered(AnsweredOf(asked, calls)) <==> !FailedWork(asked, calls, k)
  {
    var answered := AnsweredOf(asked, calls);
    hide Covered, AnsweredOf;
    CoveredIff(answered, k);
    if b :| b in answered && b.start <= k < b.end {
      AnsweredMember(asked, calls, b);
    }
    if a :| a in asked && calls(a.attempt).answer.Answered? && a.start <= k < a.end {
      AnsweredMember(asked, calls, Batch(a.start, a.end, a.attempt));
    }
  }

  // ---- which error is reported ----

  /** A call that failed and was not tried again in halves. */
  predicate GivesUp(a: Asked, calls: nat -> Attempt) {
    !calls(a.attempt).answer.Answered? && !MustHalve(a, calls)
  }

  ghost predicate FirstToGiveUp(asked: seq<Asked>, calls: nat -> Attempt, k: nat) {
    k < |asked| && GivesUp(asked[k], calls) && forall j :: 0 <= j < k ==> !GivesUp(asked[j], calls)
  }

  ghost predicate NoneGivesUp(asked: seq<Asked>, calls: nat -> Attempt) {
    forall k :: 0 <= k < |asked| ==> !GivesUp(asked[k], calls)
  }

  /** The error is that of the first call that gave up, a time-out or another one. */
  ghost predicate ErrorOfFirst(asked: seq<Asked>, calls: nat -> Attempt, err: Failure) {
    && (err == NoError <==> NoneGivesUp(asked, calls))
    && forall k: nat :: k < |asked| && FirstToGiveUp(asked, calls, k) ==>
         err == if calls(asked[k].attempt).answer.Timeout? then ModelTimeout else ModelError
  }

  lemma FirstInLeft(a: seq<Asked>, b: seq<Asked>, calls: nat -> Attempt, i: nat)
    requires !NoneGivesUp(a, calls) && FirstToGiveUp(a + b, calls, i)
    ensures i < |a| && FirstToGiveUp(a, calls, i) && (a + b)[i] == a[i]
  {
    hide GivesUp;
    var all := a + b;
    var k :| 0 <= k < |a| && GivesUp(a[k], calls);
    assert all[k] == a[k];
    assert i <= k;
    forall j | 0 <= j < i
      ensures !GivesUp(a[j], calls)
    {
      assert all[j] == a[j];
    }
  }

  lemma FirstInRight(a: seq<Asked>, b: seq<Asked>, calls: nat -> Attempt, i: nat)
    requires NoneGivesUp(a, calls) && FirstToGiveUp(a + b, calls, i)
    ensures |a| <= i < |a + b| && FirstToGiveUp(b, calls, i - |a|) && (a + b)[i] == b[i - |a|]
  {
    hide GivesUp;
    var all := a + b;
    assert forall j :: 0 <= j < |a| ==> all[j] == a[j];
    forall j | 0 <= j < i - |a|
      ensures !GivesUp(b[j], calls)
    {
      assert all[j + |a|] == b[j];
    }
  }

  lemma NoneInBoth(a: seq<Asked>, b: seq<Asked>, calls: nat -> Attempt)
    ensures NoneGivesUp(a + b, calls) <==> NoneGivesUp(a, calls) && NoneGivesUp(b, calls)
  {
    hide GivesUp;
    var all := a + b;
    if NoneGivesUp(all, calls) {
      forall k | 0 <= k < |b|
        ensures !GivesUp(b[k], calls)
      {
        assert all[|a| + k] == b[k];
      }
      forall k | 0 <= k < |a|
        ensures !GivesUp(a[k], calls)
      {
        assert all[k] == a[k];
      }
    }
  }

  lemma ErrorOfBoth(a: seq<Asked>, b: seq<Asked>, calls: nat -> Attempt, x: Failure, y: Failure)
    requires ErrorOfFirst(a, calls, x) && ErrorOfFirst(b, calls, y)
    ensures ErrorOfFirst(a + b, calls, if x != NoError then x else y)
  {
    hide GivesUp, FirstToGiveUp, NoneGivesUp;
    NoneInBoth(a, b, calls);
    forall i: nat | i < |a + b| && FirstToGiveUp(a + b, calls, i)
      ensures (if x != NoError then x else y) == if calls((a + b)[i].attempt).answer.Timeout? then ModelTimeout else ModelError
    {
      if NoneGivesUp(a, calls) {
        FirstInRight(a, b, calls, i);
      } else {
        FirstInLeft(a, b, calls, i);
      }
    }
  }

  lemma ErrorOfOne(call: Asked, calls: nat -> Attempt)
    ensures MustHalve(call, calls) ==> ErrorOfFirst([call], calls, NoError)
    ensures !MustHalve(call, calls) ==> ErrorOfFirst([call], calls, FailureOf(calls(call.attempt).answer))
  {
    assert [call][0] == call;
  }

  /** Unless the request was cancelled, the error reported is that of the first call that gave up; and
      cancellation is reported only when it was. */
  lemma {:induction false} ErrorIsFirst(base: nat, n: nat, depth: nat, calls: nat -> Attempt, next: nat, cancelled: bool)
    requires n >= 1 && depth <= MAX_SPLIT_DEPTH
    ensures var o := Recognize(base, n, depth, calls, next, cancelled);
      && (!o.cancelled ==> ErrorOfFirst(o.asked, calls, o.err))
      && (o.err == Cancelled ==> o.cancelled)
    decreases MAX_SPLIT_DEPTH - depth
  {
    hide Recognize, ErrorOfFirst;
    var left, right, cancelled1 := RecognizeStep(base, n, depth, calls, next, cancelled);
    var call := Asked(base, base + n, depth, next);
    ErrorOfOne(call, calls);
    if Splits(calls(next).answer, n, depth) {
      ErrorIsFirst(base, n / 2, depth + 1, calls, next + 1, cancelled1);
      ErrorIsFirst(base + n / 2, n - n / 2, depth + 1, calls, left.next, false);
      if !left.cancelled && !right.cancelled {
        ErrorOfBoth(left.asked, right.asked, calls, left.err, right.err);
        ErrorOfBoth([call], left.asked + right.asked, calls, NoError, if left.err != NoError then left.err else right.err);
        assert [call] + (left.asked + right.asked) == [call] + left.asked + right.asked;
      }
    }
  }

  // ---- which calls are made ----

  /** A call that timed out on more than one work with depth to spare. */
  predicate MustHalve(a: Asked, calls: nat -> Attempt) {
    calls(a.attempt).answer.Timeout? && a.end - a.start >= 2 && a.depth < 2
  }

  function Middle(a: Asked): int {
    a.start + (a.end - a.start) / 2
  }

  /** Neither the request at its start nor any call before this one was cancelled. */
  ghost predicate NotCancelledBefore(asked: seq<Asked>, calls: nat -> Attempt, cancelled: bool, attempt: nat) {
    !cancelled && forall c :: c in asked && c.attempt < attempt ==> !calls(c.attempt).cancelled
  }

  /** The next call is for the left half, one deeper. */
  ghost predicate LeftFollows(asked: seq<Asked>, a: Asked) {
    exists b :: b in asked && b.start == a.start && b.end == Middle(a) && b.depth == a.depth + 1 && b.attempt == a.attempt + 1
  }

  /** A later call is for the right half, one deeper, with nothing cancelled until then. */
  ghost predicate RightFollows(asked: seq<Asked>, a: Asked, calls: nat -> Attempt, cancelled: bool) {
    exists b :: b in asked && b.start == Middle(a) && b.end == a.end && b.depth == a.depth + 1 && b.attempt > a.attempt
      && NotCancelledBefore(asked, calls, cancelled, b.attempt)
  }

  /** No later call is for a work of the right half. */
  ghost predicate StopsAtMiddle(asked: seq<Asked>, a: Asked) {
    forall b :: b in asked && b.attempt > a.attempt ==> b.end <= Middle(a)
  }

  /** No later call is for a work of this call. */
  ghost predicate NoneWithin(asked: seq<Asked>, a: Asked) {
    forall b :: b in asked && b.attempt > a.attempt ==> b.start >= a.end
  }

  ghost predicate FollowedRight(asked: seq<Asked>, a: Asked, calls: nat -> Attempt, cancelled: bool, cancelledAfter: bool) {
    if MustHalve(a, calls) then
      LeftFollows(asked, a) && (RightFollows(asked, a, calls, cancelled) || (cancelledAfter && StopsAtMiddle(asked, a)))
    else
      NoneWithin(asked, a)
  }

  /** The request is cancelled in the end exactly when it was at the start or by the time some call ended. */
  ghost predicate CancelKnown(asked: seq<Asked>, calls: nat -> Attempt, cancelled: bool, cancelledAfter: bool) {
    cancelledAfter <==> cancelled || exists c :: c in asked && calls(c.attempt).cancelled
  }

  /** Exactly the calls that timed out on more than one work above the greatest depth are tried again in halves:
      the left half next, and the right half unless the request is cancelled by then. After any other call its
      works are not asked about again. */
  lemma {:induction false} HalvedExactly(base: nat, n: nat, depth: nat, calls: nat -> Attempt, next: nat, cancelled: bool)
    requires n >= 1 && depth <= MAX_SPLIT_DEPTH
    ensures var o := Recognize(base, n, depth, calls, next, cancelled);
      && |o.asked| >= 1 && o.asked[0] == Asked(base, base + n, depth, next)
      && CancelKnown(o.asked, calls, cancelled, o.cancelled)
      && forall a :: a in o.asked ==> FollowedRight(o.asked, a, calls, cancelled, o.cancelled)
    decreases MAX_SPLIT_DEPTH - depth
  {
    hide Recognize, AskedRight, FollowedRight, CancelKnown;
    var left, right, cancelled1 := RecognizeStep(base, n, depth, calls, next, cancelled);
    var call := Asked(base, base + n, depth, next);
    if Splits(calls(next).answer, n, depth) {
      HalvedExactly(base, n / 2, depth + 1, calls, next + 1, cancelled1);
      HalvedExactly(base + n / 2, n - n / 2, depth + 1, calls, left.next, false);
      CallsAreBounded(base, n / 2, depth + 1, calls, next + 1, cancelled1);
      CallsAreBounded(base + n / 2, n - n / 2, depth + 1, calls, left.next, false);
      if left.cancelled {
        LeftOnlyFollowed(call, left.asked, calls, cancelled);
      } else {
        NoneCancelled(left.asked, calls, cancelled1);
        HalvesAre(call, left.asked, right.asked, calls, cancelled);
        BothFollowed(call, left.asked, right.asked, calls, cancelled, right.cancelled);
      }
    } else {
      OneFollowed(call, calls, cancelled);
    }
  }

  lemma NoneCancelled(asked: seq<Asked>, calls: nat -> Attempt, cancelled: bool)
    requires CancelKnown(asked, calls, cancelled, false)
    ensures !cancelled && forall c :: c in asked ==> !calls(c.attempt).cancelled
  {
  }

  lemma HalvesAre(call: Asked, l: seq<Asked>, r: seq<Asked>, calls: nat -> Attempt, cancelled: bool)
    requires call.start < call.end && MustHalve(call, calls) && |l| >= 1 && |r| >= 1
    requires l[0] == Asked(call.start, Middle(call), call.depth + 1, call.attempt + 1)
    requires r[0] == Asked(Middle(call), call.end, call.depth + 1, call.attempt + 1 + |l|)
    requires AskedRight(l, call.start, Middle(call) - call.start, call.depth + 1, call.attempt + 1)
    requires AskedRight(r, Middle(call), call.end - Middle(call), call.depth + 1, call.attempt + 1 + |l|)
    requires !cancelled && !calls(call.attempt).cancelled && forall c :: c in l ==> !calls(c.attempt).cancelled
    ensures Halves(call, l, r, calls, cancelled)
  {
  }

  lemma OneFollowed(call: Asked, calls: nat -> Attempt, cancelled: bool)
    requires !MustHalve(call, calls)
    ensures FollowedRight([call], call, calls, cancelled, cancelled || calls(call.attempt).cancelled)
    ensures forall a :: a in [call] ==> a == call
    ensures CancelKnown([call], calls, cancelled, cancelled || calls(call.attempt).cancelled)
  {
    assert call in [call];
  }

  lemma LeftOnlyFollowed(call: Asked, l: seq<Asked>, calls: nat -> Attempt, cancelled: bool)
    requires call.start < call.end && MustHalve(call, calls)
    requires |l| >= 1 && l[0] == Asked(call.start, Middle(call), call.depth + 1, call.attempt + 1)
    requires AskedRight(l, call.start, Middle(call) - call.start, call.depth + 1, call.attempt + 1)
    requires CancelKnown(l, calls, cancelled || calls(call.attempt).cancelled, true)
    requires forall a :: a in l ==> FollowedRight(l, a, calls, cancelled || calls(call.attempt).cancelled, true)
    ensures CancelKnown([call] + l, calls, cancelled, true)
    ensures forall a :: a in [call] + l ==> FollowedRight([call] + l, a, calls, cancelled, true)
  {
    var all := [call] + l;
    LaterThan(l, call.start, Middle(call) - call.start, call.depth + 1, call.attempt + 1);
    assert call in all && forall a :: a in l ==> a in all;
    assert l[0] in all;
    assert LeftFollows(all, call) && StopsAtMiddle(all, call);
    forall a | a in l
      ensures FollowedRight(all, a, calls, cancelled, true)
    {
      FollowedInMore(l, [call], [], a, calls, cancelled || calls(call.attempt).cancelled, cancelled, true, true);
      assert [call] + l + [] == all;
    }
  }

  /** Two runs of calls, one for each half, the second begun with nothing cancelled. */
  ghost predicate Halves(call: Asked, l: seq<Asked>, r: seq<Asked>, calls: nat -> Attempt, cancelled: bool) {
    && call.start < call.end && MustHalve(call, calls) && |l| >= 1 && |r| >= 1
    && l[0] == Asked(call.start, Middle(call), call.depth + 1, call.attempt + 1)
    && r[0] == Asked(Middle(call), call.end, call.depth + 1, call.attempt + 1 + |l|)
    && AskedRight(l, call.start, Middle(call) - call.start, call.depth + 1, call.attempt + 1)
    && AskedRight(r, Middle(call), call.end - Middle(call), call.depth + 1, call.attempt + 1 + |l|)
    && !cancelled && !calls(call.attempt).cancelled && (forall c :: c in l ==> !calls(c.attempt).cancelled)
  }

  lemma BothFollowed(call: Asked, l: seq<Asked>, r: seq<Asked>, calls: nat -> Attempt, cancelled: bool, after: bool)
    requires Halves(call, l, r, calls, cancelled) && CancelKnown(r, calls, false, after)
    requires forall a :: a in l ==> FollowedRight(l, a, calls, false, false)
    requires forall a :: a in r ==> FollowedRight(r, a, calls, false, after)
    ensures CancelKnown([call] + l + r, calls, cancelled, after)
    ensures forall a :: a in [call] + l + r ==> FollowedRight([call] + l + r, a, calls, cancelled, after)
  {
    hide FollowedRight, AskedRight, Halves;
    var all := [call] + l + r;
    CallFollowed(call, l, r, calls, cancelled, after);
    HalvesApart(call, l, r, calls, cancelled);
    assert forall a :: a in all ==> a == call || a in l || a in r;
    forall a | a in l
      ensures FollowedRight(all, a, calls, cancelled, after)
    {
      FollowedInMore(l, [call], r, a, calls, false, cancelled, false, after);
    }
    forall a | a in r
      ensures FollowedRight(all, a, calls, cancelled, after)
    {
      FollowedInMore(r, [call] + l, [], a, calls, false, cancelled, after, after);
      assert [call] + l + r + [] == all;
    }
  }

  lemma HalvesApart(call: Asked, l: seq<Asked>, r: seq<Asked>, calls: nat -> Attempt, cancelled: bool)
    requires Halves(call, l, r, calls, cancelled)
    ensures !cancelled && forall b :: b in [call] + l ==> !calls(b.attempt).cancelled
    ensures forall c :: c in l ==> call.attempt < c.attempt && c.start <= c.end
    ensures forall c :: c in r ==> c.start <= c.end
    ensures forall b, c :: b in [call] + l && c in r ==> b.attempt < c.attempt
    ensures forall b, c :: b in r && c in l ==> b.attempt > c.attempt && b.start >= c.end
  {
    LaterThan(l, call.start, Middle(call) - call.start, call.depth + 1, call.attempt + 1);
    LaterThan(r, Middle(call), call.end - Middle(call), call.depth + 1, call.attempt + 1 + |l|);
  }

  lemma CallFollowed(call: Asked, l: seq<Asked>, r: seq<Asked>, calls: nat -> Attempt, cancelled: bool, after: bool)
    requires Halves(call, l, r, calls, cancelled) && CancelKnown(r, calls, false, after)
    ensures FollowedRight([call] + l + r, call, calls, cancelled, after)
    ensures CancelKnown([call] + l + r, calls, cancelled, after)
  {
    var all := [call] + l + r;
    HalvesApart(call, l, r, calls, cancelled);
    hide AskedRight;
    assert l[0] in l && r[0] in r && l[0] in all && r[0] in all;
    assert forall a :: a in all <==> a == call || a in l || a in r;
    assert forall c :: c in all && c.attempt < r[0].attempt ==> c in [call] + l || c in r;
    FirstOfAll(r, Middle(call), call.end - Middle(call), call.depth + 1, call.attempt + 1 + |l|);
    assert NotCancelledBefore(all, calls, cancelled, r[0].attempt);
  }

  lemma FirstOfAll(r: seq<Asked>, base: nat, n: nat, depth: nat, next: nat)
    requires |r| >= 1 && AskedRight(r, base, n, depth, next)
    ensures forall c :: c in r ==> c.attempt >= r[0].attempt
  {
  }

  lemma LaterThan(l: seq<Asked>, base: nat, n: nat, depth: nat, next: nat)
    requires AskedRight(l, base, n, depth, next)
    ensures forall a :: a in l ==> next <= a.attempt < next + |l| && base <= a.start < a.end <= base + n
  {
  }

  /** A call stays rightly followed when earlier calls, none of them cancelling, are put before and later calls
      for later works after. */
  lemma FollowedInMore(l: seq<Asked>, before: seq<Asked>, after: seq<Asked>, a: Asked, calls: nat -> Attempt,
                       had: bool, cancelled: bool, in1: bool, out1: bool)
    requires a in l && a.start <= a.end && FollowedRight(l, a, calls, had, in1) && (in1 ==> out1)
    requires forall b, c :: b in before && c in l ==> b.attempt < c.attempt
    requires forall b, c :: b in after && c in l ==> b.attempt > c.attempt && b.start >= c.end
    requires in1 ==> after == []
    requires !had ==> !cancelled && forall b :: b in before ==> !calls(b.attempt).cancelled
    ensures FollowedRight(before + l + after, a, calls, cancelled, out1)
  {
    var all := before + l + after;
    assert forall b :: b in all <==> b in before || b in l || b in after;
    hide MustHalve, Middle;
    if MustHalve(a, calls) {
      assert LeftFollows(all, a);
      if RightFollows(l, a, calls, had) {
        var b :| b in l && b.start == Middle(a) && b.end == a.end && b.depth == a.depth + 1 && b.attempt > a.attempt
          && NotCancelledBefore(l, calls, had, b.attempt);
        assert NotCancelledBefore(all, calls, cancelled, b.attempt);
        assert RightFollows(all, a, calls, cancelled);
      } else {
        assert StopsAtMiddle(all, a);
      }
    } else {
      assert NoneWithin(all, a);
    }
  }

  /** The last call about a work. */
  ghost predicate LastAbout(asked: seq<Asked>, a: Asked, k: nat) {
    a in asked && a.start <= k < a.end && forall b :: b in asked && b.attempt > a.attempt ==> !(b.start <= k < b.end)
  }

  /** A reason for a work to fail: its last call was refused, was for it alone, was at the greatest depth, or the
      request was cancelled. */
  ghost predicate FailsFor(asked: seq<Asked>, calls: nat -> Attempt, cancelled: bool, k: nat) {
    exists a :: LastAbout(asked, a, k)
      && (calls(a.attempt).answer.Refused? || a.end - a.start == 1 || a.depth == 2 || cancelled)
  }

  /** No work fails without such a reason. */
  lemma FailedForAReason(n: nat, calls: nat -> Attempt, next: nat, cancelled: bool, k: nat)
    requires k < n && FailedWork(Recognize(0, n, 0, calls, next, cancelled).asked, calls, k)
    ensures var o := Recognize(0, n, 0, calls, next, cancelled);
      FailsFor(o.asked, calls, o.cancelled, k)
  {
    hide Recognize, FollowedRight, AskedRight, FailedWork, FailsFor;
    var o := Recognize(0, n, 0, calls, next, cancelled);
    HalvedExactly(0, n, 0, calls, next, cancelled);
    CallsAreBounded(0, n, 0, calls, next, cancelled);
    LaterThan(o.asked, 0, n, 0, next);
    DepthsKnown(o.asked, 0, n, 0, next);
    assert o.asked[0] in o.asked;
    ReasonWithin(o.asked, calls, cancelled, o.cancelled, o.asked[0], k);
  }

  lemma DepthsKnown(asked: seq<Asked>, base: nat, n: nat, depth: nat, next: nat)
    requires AskedRight(asked, base, n, depth, next)
    ensures forall a :: a in asked ==> a.depth <= 2
  {
  }

  lemma {:induction false} ReasonWithin(asked: seq<Asked>, calls: nat -> Attempt, cancelled: bool, after: bool, a: Asked, k: nat)
    requires forall b :: b in asked ==> FollowedRight(asked, b, calls, cancelled, after) && b.start < b.end && b.depth <= 2
    requires a in asked && a.start <= k < a.end && FailedWork(asked, calls, k)
    ensures FailsFor(asked, calls, after, k)
    decreases 2 - a.depth
  {
    assert FollowedRight(asked, a, calls, cancelled, after);
    if !MustHalve(a, calls) {
      assert LastAbout(asked, a, k);
    } else if k < Middle(a) {
      var b :| b in asked && b.start == a.start && b.end == Middle(a) && b.depth == a.depth + 1;
      ReasonWithin(asked, calls, cancelled, after, b, k);
    } else if RightFollows(asked, a, calls, cancelled) {
      var b :| b in asked && b.start == Middle(a) && b.end == a.end && b.depth == a.depth + 1;
      ReasonWithin(asked, calls, cancelled, after, b, k);
    } else {
      assert LastAbout(asked, a, k);
    }
  }
}
