/** How the drivers choose a part size, and how many parts that makes. */
module PartSize {
  import opened Parts

  const MB := 1024 * 1024
  const GB := 1024 * MB
  const TB := 1024 * GB

  /** calculateOSSPartSize (115). */
  function Size115(fileSize: nat): (p: nat)
    ensures p > 1
  {
    if fileSize <= 20 * MB then 20 * MB
    else if fileSize > TB then 5 * GB
    else if fileSize > 768 * GB then 109951163
    else if fileSize > 512 * GB then 82463373
    else if fileSize > 384 * GB then 54975582
    else if fileSize > 256 * GB then 41231687
    else if fileSize > 128 * GB then 27487791
    else 20 * MB
  }

  const DEFAULT_189 := 10 * MB

  /** uploadPartSize (189). */
  function Size189(fileSize: nat): (p: nat)
    ensures p > 0
  {
    if fileSize > DEFAULT_189 * 2 * 999 then
      var multiple := (fileSize + 1999 * DEFAULT_189 - 1) / (1999 * DEFAULT_189);
      if multiple < 5 then 5 * DEFAULT_189 else multiple * DEFAULT_189
    else if fileSize > DEFAULT_189 * 999 then DEFAULT_189 * 2
    else DEFAULT_189
  }

  /** calcUploadPartSize (Guangya). */
  function SizeGuangya(size: nat): (p: nat)
    ensures p > 0
  {
    if size <= 16 * MB then 16 * MB
    else if size <= 4 * GB then 16 * MB
    else if size <= 32 * GB then 32 * MB
    else if size <= 128 * GB then 64 * MB
    else 128 * MB
  }

  /** The part size inside buildUploadParts (139). */
  function Size139(size: nat): (p: nat)
    ensures p > 0
  {
    if size > 30 * GB then 512 * MB else 100 * MB
  }

  lemma CountAtMost(size: nat, p: nat, n: nat)
    requires p > 0
    ensures Count(size, p) <= n <==> size <= n * p
  {
    CountCovers(size, p);
    assert Cut(size, p, n) == size <==> Count(size, p) <= n;
  }

  /** 115 stays within the ten thousand parts an object may have for files up to 50000 GiB, and no further. */
  lemma Parts115(fileSize: nat)
    ensures Count(fileSize, Size115(fileSize)) <= 10000 <==> fileSize <= 50000 * 1024 * 1024 * 1024
  {
    CountAtMost(fileSize, Size115(fileSize), 10000);
  }

  /** At the top of each tier between 128 GiB and 1 TiB the 115 part size is the least that gives at most ten
      thousand parts. */
  lemma TiersAreTight(gib: nat)
    requires gib in {256, 384, 512, 768, 1024}
    ensures var top := gib * 1024 * 1024 * 1024;
      Count(top, Size115(top)) <= 10000 < Count(top, Size115(top) - 1)
  {
    var top := gib * 1024 * 1024 * 1024;
    CountAtMost(top, Size115(top), 10000);
    CountAtMost(top, Size115(top) - 1, 10000);
  }

  /** 189 stays within 1999 parts for every file. */
  lemma Parts189(fileSize: nat)
    ensures Count(fileSize, Size189(fileSize)) <= 1999
  {
    var p := Size189(fileSize);
    if fileSize > DEFAULT_189 * 2 * 999 {
      var unit := 1999 * DEFAULT_189;
      var multiple := (fileSize + unit - 1) / unit;
      assert multiple * unit >= fileSize;
      assert 1999 * p >= multiple * unit;
    }
    CountAtMost(fileSize, p, 1999);
  }

  /** Guangya stays within ten thousand parts for files up to 1250 GiB, and no further. */
  lemma PartsGuangya(size: nat)
    ensures Count(size, SizeGuangya(size)) <= 10000 <==> size <= 1250 * 1024 * 1024 * 1024
  {
    CountAtMost(size, SizeGuangya(size), 10000);
  }

  /** A larger file never gets smaller parts. */
  lemma SizesNeverShrink(a: nat, b: nat)
    requires a <= b
    ensures Size115(a) <= Size115(b)
    ensures Size189(a) <= Size189(b)
    ensures SizeGuangya(a) <= SizeGuangya(b)
    ensures Size139(a) <= Size139(b)
  {
    var unit := 1999 * DEFAULT_189;
    assert (a + unit - 1) / unit <= (b + unit - 1) / unit;
  }
}
