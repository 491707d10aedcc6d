/** internal/driver/uploadutil/resume.go: the byte count and percentage a saved state reports. */
module UploadUtil {
  import opened Parts

  /** The numbers of real parts among these, and the numbers below 1. */
  function Real(parts: set<int>, n: nat): (s: set<nat>)
    ensures forall i: nat :: i in s <==> i in parts && 1 <= i <= n
  {
    set i | i in parts && 1 <= i <= n
  }

  function Below(parts: set<int>): (s: set<int>) {
    set i | i in parts && i < 1
  }

  /** What the loop adds up: the bytes of the real parts; a number below 1 counts as a whole part, one above
      the last part as nothing. */
  ghost function Summed(fileSize: nat, p: nat, parts: set<int>): int
    requires p > 0
  {
    var n := Count(fileSize, p);
    BytesOf(fileSize, p, Real(parts, n), n) + |Below(parts)| * p
  }

  /** What one number adds. */
  function Chunk(fileSize: nat, p: nat, i: int): int {
    var remain := fileSize - (i - 1) * p;
    if remain < p then (if remain > 0 then remain else 0) else p
  }

  lemma SummedMore(fileSize: nat, p: nat, parts: set<int>, i: int)
    requires p > 0 && i !in parts
    ensures Summed(fileSize, p, parts + {i}) == Summed(fileSize, p, parts) + Chunk(fileSize, p, i)
  {
    var n := Count(fileSize, p);
    CountCovers(fileSize, p);
    if i < 1 {
      assert Below(parts + {i}) == Below(parts) + {i};
      assert Real(parts + {i}, n) == Real(parts, n);
      assert (i - 1) * p + p == i * p <= 0;
      assert (|Below(parts)| + 1) * p == |Below(parts)| * p + p;
    } else {
      assert Below(parts + {i}) == Below(parts);
      if i <= n {
        PartLenIsCut(fileSize, p, i);
        assert Real(parts + {i}, n) == Real(parts, n) + {i};
        BytesOfInsert(fileSize, p, Real(parts, n), n, i);
      } else {
        assert Real(parts + {i}, n) == Real(parts, n);
        PastTheEnd(fileSize, p, i);
      }
    }
  }

  lemma PastTheEnd(fileSize: nat, p: nat, i: nat)
    requires p > 0 && i > Count(fileSize, p)
    ensures (i - 1) * p >= fileSize
  {
    CountCovers(fileSize, p);
    assert Cut(fileSize, p, i - 1) == fileSize;
  }

  /** UploadedBytesByParts, for any numbers in any order: the sum, clamped to the file size. */
  method UploadedBytesByParts(fileSize: nat, partSize: int, completed: set<int>) returns (uploaded: int)
    ensures partSize <= 0 ==> uploaded == 0
    ensures partSize > 0 ==>
      uploaded == if Summed(fileSize, partSize, completed) > fileSize then fileSize else Summed(fileSize, partSize, completed)
  {
    if partSize <= 0 {
      return 0;
    }
    uploaded := 0;
    var rest := completed;
    NothingSummed(fileSize, partSize);
    assert completed - rest == {};
    while rest != {}
      invariant rest <= completed
      invariant uploaded == Summed(fileSize, partSize, completed - rest)
      decreases rest
    {
      var partNo :| partNo in rest;
      SummedMore(fileSize, partSize, completed - rest, partNo);
      assert completed - (rest - {partNo}) == completed - rest + {partNo};
      var offset := (partNo - 1) * partSize;
      var chunk := partSize;
      if fileSize - offset < chunk {
        chunk := fileSize - offset;
      }
      if chunk > 0 {
        uploaded := uploaded + chunk;
      }
      rest := rest - {partNo};
    }
    assert completed - rest == completed;
    if uploaded > fileSize {
      uploaded := fileSize;
    }
  }

  lemma NothingSummed(fileSize: nat, p: nat)
    requires p > 0
    ensures Summed(fileSize, p, {}) == 0
  {
    var n := Count(fileSize, p);
    BytesOfNone(fileSize, p, n);
    assert Real({}, n) == {} && Below({}) == {};
  }

  /** The clamp acts exactly when a number below 1 is in the set and the sum with it is over the file size;
      real parts alone never reach it. */
  lemma ClampIsForNumbersBelowOne(fileSize: nat, p: nat, parts: set<int>)
    requires p > 0
    ensures var n := Count(fileSize, p);
      && 0 <= BytesOf(fileSize, p, Real(parts, n), n) <= fileSize
      && (Summed(fileSize, p, parts) > fileSize <==> |Below(parts)| * p > fileSize - BytesOf(fileSize, p, Real(parts, n), n))
      && (Below(parts) == {} ==> Summed(fileSize, p, parts) == BytesOf(fileSize, p, Real(parts, n), n))
  {
    var n := Count(fileSize, p);
    CountCovers(fileSize, p);
    BytesOfBounds(fileSize, p, Real(parts, n), n);
  }

  /** The percentage the drivers save. */
  function Percent(uploaded: nat, fileSize: nat): int {
    var progress := uploaded * 100 / (if fileSize > 1 then fileSize else 1);
    if uploaded < fileSize && progress > 99 then 99 else progress
  }

  /** A saved state of a file that is not empty says 100 exactly when every part is in it. */
  lemma HundredMeansEverything(fileSize: nat, p: nat, completed: set<nat>)
    requires p > 0 && fileSize > 0 && completed <= Numbers(Count(fileSize, p))
    ensures var n := Count(fileSize, p);
      0 <= BytesOf(fileSize, p, completed, n) <= fileSize
      && (Percent(BytesOf(fileSize, p, completed, n), fileSize) == 100 <==> completed == Numbers(n))
  {
    var n := Count(fileSize, p);
    var bytes := BytesOf(fileSize, p, completed, n);
    CountCovers(fileSize, p);
    BytesOfBounds(fileSize, p, completed, n);
    PercentIsHundred(bytes, fileSize);
    if bytes == fileSize {
      forall i | i in Numbers(n)
        ensures i in completed
      {
        PartLenIsCut(fileSize, p, i);
      }
      assert completed == Numbers(n);
    }
  }

  lemma PercentIsHundred(uploaded: nat, fileSize: nat)
    requires uploaded <= fileSize && fileSize > 0
    ensures Percent(uploaded, fileSize) == 100 <==> uploaded == fileSize
  {
    HundredTimes(fileSize);
  }

  lemma HundredTimes(n: nat)
    requires n > 0
    ensures n * 100 / n == 100
  {
    var q := n * 100 / n;
    assert n * q <= n * 100 < n * q + n;
    TimesLess(n, q, 100);
    TimesLess(n, 100, q);
  }

  lemma TimesLess(n: nat, a: nat, b: nat)
    ensures a < b ==> n * a + n <= n * b
  {
    if a < b {
      MulMono(a + 1, b, n);
      assert n * a + n == (a + 1) * n;
    }
  }
}
