/**
 Cutting a file into parts of one size: the arithmetic every multipart driver shares, and the law that
 the parts put back together in order are the file.
 */
module Parts {

  type byte = b: int | 0 <= b < 256

  datatype Option<+T> = None | Some(value: T)

  /** Where part `k` ends (and part `k + 1` starts). */
  function Cut(size: nat, p: nat, k: nat): (c: nat)
    ensures c <= size
  {
    if k * p <= size then k * p else size
  }

  /** The number of parts, rounded up as the drivers do. */
  function Count(size: nat, p: nat): (n: nat)
    requires p > 0
  {
    (size + p - 1) / p
  }

  lemma CutStep(size: nat, p: nat, k: nat)
    ensures k * p <= (k + 1) * p
    ensures Cut(size, p, k) <= Cut(size, p, k + 1) <= Cut(size, p, k) + p
  {
    assert (k + 1) * p == k * p + p;
  }

  lemma MulMono(j: nat, k: nat, p: nat)
    requires j <= k
    ensures j * p <= k * p
  {
    if j < k {
      MulMono(j, k - 1, p);
      assert k * p == (k - 1) * p + p;
    }
  }

  /** `Count` parts reach the end of the file exactly, and one fewer does not. */
  lemma CountCovers(size: nat, p: nat)
    requires p > 0
    ensures Cut(size, p, Count(size, p)) == size
    ensures forall k: nat :: Cut(size, p, k) == size <==> Count(size, p) <= k
  {
    var n := Count(size, p);
    assert n * p >= size && (n > 0 ==> (n - 1) * p < size) by {
      assert (size + p - 1) == n * p + (size + p - 1) % p;
      if n > 0 { assert (n - 1) * p == n * p - p; }
    }
    forall k: nat
      ensures Cut(size, p, k) == size <==> n <= k
    {
      if n <= k {
        MulMono(n, k, p);
      } else {
        MulMono(k, n - 1, p);
      }
    }
  }

  /** The length a driver computes for part `i`: the part size, or what remains. */
  function PartLen(size: nat, p: nat, i: nat): (len: int)
    requires i >= 1
  {
    var remain := size - (i - 1) * p;
    if remain < p then remain else p
  }

  lemma PartLenIsCut(size: nat, p: nat, i: nat)
    requires p > 0 && 1 <= i <= Count(size, p)
    ensures Cut(size, p, i - 1) == (i - 1) * p < size
    ensures 0 < PartLen(size, p, i) == Cut(size, p, i) - Cut(size, p, i - 1) <= p
  {
    CountCovers(size, p);
    assert Cut(size, p, i - 1) != size;
    CutStep(size, p, i - 1);
    assert i * p == (i - 1) * p + p;
  }

  /** The bytes of part `i`, counting from 1. */
  function Slice(file: seq<byte>, p: nat, i: nat): (s: seq<byte>)
    requires i >= 1
    ensures |s| == Cut(|file|, p, i) - Cut(|file|, p, i - 1)
  {
    CutStep(|file|, p, i - 1);
    file[Cut(|file|, p, i - 1)..Cut(|file|, p, i)]
  }

  /** Bytes of the parts in `done` numbered up to `k`. */
  function BytesOf(size: nat, p: nat, done: set<nat>, k: nat): (b: int) {
    if k == 0 then 0
    else BytesOf(size, p, done, k - 1) + if k in done then Cut(size, p, k) - Cut(size, p, k - 1) else 0
  }

  lemma {:induction false} BytesOfInsert(size: nat, p: nat, done: set<nat>, k: nat, i: nat)
    requires i !in done && i >= 1
    ensures BytesOf(size, p, done + {i}, k)
         == BytesOf(size, p, done, k) + if i <= k then Cut(size, p, i) - Cut(size, p, i - 1) else 0
  {
    if k > 0 {
      BytesOfInsert(size, p, done, k - 1, i);
    }
  }

  lemma {:induction false} BytesOfNone(size: nat, p: nat, k: nat)
    ensures BytesOf(size, p, {}, k) == 0
  {
    if k > 0 { BytesOfNone(size, p, k - 1); }
  }

  /** The byte count of a subset of the parts is between nothing and the file, and reaches the file
      exactly when every part that has bytes is in the subset. */
  lemma {:induction false} BytesOfBounds(size: nat, p: nat, done: set<nat>, k: nat)
    ensures 0 <= BytesOf(size, p, done, k) <= Cut(size, p, k)
    ensures BytesOf(size, p, done, k) == Cut(size, p, k)
       <==> forall i: nat :: 1 <= i <= k && Cut(size, p, i - 1) < Cut(size, p, i) ==> i in done
  {
    if k > 0 {
      BytesOfBounds(size, p, done, k - 1);
      CutStep(size, p, k - 1);
    }
  }

  /** The part numbers `1..n`. */
  function Numbers(n: nat): (s: set<nat>)
    ensures forall i: nat :: i in s <==> 1 <= i <= n
  {
    if n == 0 then {} else Numbers(n - 1) + {n}
  }

  /** How many of the numbers 1 to k are not in `had`. */
  ghost function Lacking(had: set<nat>, k: nat): nat {
    |Numbers(k) - had|
  }

  lemma NoneLacking(had: set<nat>)
    ensures Lacking(had, 0) == 0
  {
    assert Numbers(0) - had == {};
  }

  lemma LackingNext(had: set<nat>, k: nat)
    requires k >= 1
    ensures Lacking(had, k) == Lacking(had, k - 1) + if k in had then 0 else 1
  {
    if k in had {
      assert Numbers(k) - had == Numbers(k - 1) - had;
    } else {
      assert Numbers(k) - had == (Numbers(k - 1) - had) + {k};
    }
  }

  lemma {:induction false} LackingLess(had: set<nat>, j: nat, k: nat)
    requires j <= k
    ensures Lacking(had, j) <= Lacking(had, k)
    decreases k
  {
    hide Lacking;
    if j < k {
      LackingLess(had, j, k - 1);
      LackingNext(had, k);
    }
  }

  /** The numbers are `1..k` for some k. */
  ghost predicate IsPrefix(s: set<nat>) {
    forall i, j: nat :: i in s && 1 <= j < i ==> j in s
  }

  /** Adding the next number to `1..i - 1` and nothing above it keeps a prefix. */
  lemma PrefixGrows(s: set<nat>, i: nat)
    requires IsPrefix(s) && i >= 1 && Numbers(i - 1) <= s
    ensures IsPrefix(s + {i})
  {
  }
}
