/**
 drivers/Baidu_Open/upload.go: parts counted from 0, read in order through one file cursor that skips what
 the resume state says is done.
 */
module UploadBaidu {
  import opened Parts
  import opened Resumable
  import opened Transfer

  const SLICE_BYTES := 256 * 1024
  const PERSIST_EVERY := 5

  /** A hash of bytes, left uninterpreted. */
  type Hash = seq<byte> -> string

  datatype Meta = Meta(size: nat, chunkSize: nat, blockList: seq<string>, contentMD5: string, sliceMD5: string)

  /** The number of blocks: an empty file still has one. */
  function Blocks(size: nat, chunkSize: nat): nat
    requires chunkSize > 0
  {
    if size == 0 then 1 else Count(size, chunkSize)
  }

  /** The metadata describes the file: one hash for each part, one for the whole, one for its first 256 KiB. */
  ghost predicate Describes(meta: Meta, file: seq<byte>, md5: Hash) {
    && meta.size == |file| && meta.chunkSize > 0
    && |meta.blockList| == Blocks(|file|, meta.chunkSize)
    && (forall k :: 0 <= k < |meta.blockList| ==> meta.blockList[k] == md5(Slice(file, meta.chunkSize, k + 1)))
    && meta.contentMD5 == md5(file)
    && meta.sliceMD5 == md5(file[..AtMost(262144, |file|)])
  }

  /** Hashes the file chunk by chunk. What was written to a hash so far stands for its state. */
  method PrepareMeta(file: LocalFile, chunkSize: nat, md5: Hash) returns (meta: Meta)
    requires file.pos == 0 && chunkSize > 0
    modifies file
    ensures Describes(meta, file.content, md5)
  {
    var size := |file.content|;
    if size == 0 {
      assert Slice([], chunkSize, 1) == [] && file.content == [] && file.content[..0] == [];
      return Meta(0, chunkSize, [md5([])], md5([]), md5([]));
    }
    var contentHash, sliceHash, blockList := [], [], [];
    var sliceRemain: int := SLICE_BYTES;
    CountCovers(size, chunkSize);
    while file.pos < size
      invariant file.pos == Cut(size, chunkSize, |blockList|) && |blockList| <= Count(size, chunkSize)
      invariant forall k :: 0 <= k < |blockList| ==> blockList[k] == md5(Slice(file.content, chunkSize, k + 1))
      invariant contentHash == file.content[..file.pos]
      invariant sliceHash == file.content[..AtMost(SLICE_BYTES, file.pos)]
      invariant sliceRemain == SLICE_BYTES - |sliceHash|
      decreases size - file.pos
    {
      PartLenIsCut(size, chunkSize, |blockList| + 1);
      var n := AtMost(chunkSize, size - file.pos);
      var r := file.ReadFull(n);
      var chunk := r.value;
      assert chunk == Slice(file.content, chunkSize, |blockList| + 1);
      contentHash := contentHash + chunk;
      blockList := blockList + [md5(chunk)];
      if sliceRemain > 0 {
        var take := if |chunk| > sliceRemain then sliceRemain else |chunk|;
        sliceHash := sliceHash + chunk[..take];
        sliceRemain := sliceRemain - take;
      }
    }
    assert file.content[..size] == file.content;
    meta := Meta(size, chunkSize, blockList, md5(contentHash), md5(sliceHash));
  }

  /** partSize: the bytes of part `partSeq`, counting from 0. */
  function PartSize(meta: Meta, partSeq: nat): nat {
    var remain := meta.size - partSeq * meta.chunkSize;
    var size := if remain < meta.chunkSize then remain else meta.chunkSize;
    if size < 0 then 0 else size
  }

  lemma PartSizeIsCut(meta: Meta, partSeq: nat)
    ensures PartSize(meta, partSeq)
         == Cut(meta.size, meta.chunkSize, partSeq + 1) - Cut(meta.size, meta.chunkSize, partSeq)
  {
    assert (partSeq + 1) * meta.chunkSize == partSeq * meta.chunkSize + meta.chunkSize;
  }

  /** The part numbers of the shared system count from 1. */
  function Shift(parts: set<nat>): (s: set<nat>)
    ensures forall i :: i in s <==> i >= 1 && i - 1 in parts
  {
    var s := set i | i in parts :: i + 1;
    assert forall i :: i in parts ==> i + 1 in s;
    s
  }

  function Before(k: nat): (s: set<nat>)
    ensures forall i: nat :: i in s <==> i < k
  {
    if k == 0 then {} else Before(k - 1) + {k - 1}
  }

  lemma BeforeGrows(had: set<nat>, k: nat)
    ensures had + Before(k) + {k} == had + Before(k + 1)
    ensures k in had + Before(k) <==> k in had
    ensures had + Before(0) == had
  {
  }

  lemma BytesOfMore(meta: Meta, completed: set<nat>, n: nat, partSeq: nat)
    requires partSeq !in completed && partSeq < n
    ensures BytesOf(meta.size, meta.chunkSize, Shift(completed + {partSeq}), n)
         == BytesOf(meta.size, meta.chunkSize, Shift(completed), n) + PartSize(meta, partSeq)
  {
    PartSizeIsCut(meta, partSeq);
    BytesOfInsert(meta.size, meta.chunkSize, Shift(completed), n, partSeq + 1);
    assert Shift(completed + {partSeq}) == Shift(completed) + {partSeq + 1};
  }

  /** completedBytes visits the set in any order and clamps to the size; the clamp never bites. */
  method CompletedBytes(meta: Meta, completed: set<nat>) returns (uploaded: int)
    requires meta.chunkSize > 0
    requires forall i :: i in completed ==> i < Blocks(meta.size, meta.chunkSize)
    ensures uploaded == BytesOf(meta.size, meta.chunkSize, Shift(completed), Blocks(meta.size, meta.chunkSize))
    ensures 0 <= uploaded <= meta.size
  {
    ghost var n := Blocks(meta.size, meta.chunkSize);
    uploaded := 0;
    var rest := completed;
    BytesOfNone(meta.size, meta.chunkSize, n);
    assert Shift({}) == {};
    assert completed - rest == {};
    while rest != {}
      invariant rest <= completed
      invariant uploaded == BytesOf(meta.size, meta.chunkSize, Shift(completed - rest), n)
      decreases rest
    {
      var partSeq :| partSeq in rest;
      BytesOfMore(meta, completed - rest, n, partSeq);
      assert completed - (rest - {partSeq}) == completed - rest + {partSeq};
      uploaded := uploaded + PartSize(meta, partSeq);
      rest := rest - {partSeq};
    }
    assert completed - rest == completed;
    BytesOfBounds(meta.size, meta.chunkSize, Shift(completed), n);
    if uploaded > meta.size {
      return meta.size;
    }
  }

  /** From part `k` on the server accepts each part that `had` lacks under the hash the driver expects, and
      then the file itself. */
  ghost predicate Echoes(script: seq<Fate>, blockList: seq<string>, had: set<nat>, k: nat)
    decreases |blockList| - k
  {
    if k >= |blockList| then script != [] && script[0].Accept?
    else if k in had then Echoes(script, blockList, had, k + 1)
    else script != [] && script[0].Accept? && script[0].tag == blockList[k] && Echoes(script[1..], blockList, had, k + 1)
  }

  class Session {
    const plan: Plan
    const meta: Meta
    const md5: Hash
    const file: LocalFile
    const remote: Remote
    var completedParts: set<nat>
    var uploadedBytes: int
    var saved: set<nat>
    ghost var sys: Sys

    ghost predicate Valid()
      reads this, file, remote
    {
      && plan.Valid() && Describes(meta, plan.file, md5) && file.content == plan.file
      && plan.p == meta.chunkSize > 0 && plan.n == |meta.blockList| && meta.size == |plan.file|
      && Inv(plan, sys)
      && sys.store == remote.store && sys.joined == remote.joined
      && sys.saved.Keys == Shift(saved)
      && (sys.running ==> sys.done.Keys == Shift(completedParts))
    }

    constructor (meta: Meta, md5: Hash, file: LocalFile, remote: Remote)
      requires Describes(meta, file.content, md5)
      requires remote.store == map[] && remote.joined == None
      ensures Valid() && sys == Init && this.meta == meta && this.file == file && this.remote == remote
    {
      this.plan := Plan(file.content, meta.chunkSize, |meta.blockList|);
      this.meta, this.md5, this.file, this.remote := meta, md5, file, remote;
      completedParts, uploadedBytes, saved, sys := {}, 0, {}, Init;
      new;
      CountCovers(meta.size, meta.chunkSize);
      assert sys.saved.Keys == {};
    }

    /** persistBaiduResumeState */
    method Persist()
      requires Valid() && sys.running
      modifies this`saved, this`sys
      ensures Valid() && Reaches(plan, old(sys), sys)
      ensures saved == completedParts && sys == old(sys).(saved := sys.done)
    {
      ReachesSelf(plan, sys);
      OtherIsStep(plan, old(sys), sys, Step.Persist);
      saved := completedParts;
      sys := sys.(saved := sys.done);
    }

    /** Sends one chunk from where the cursor stands, which must be the start of the part. A reply that
        reports a different hash is a failure. */
    method SendChunk(partSeq: nat) returns (fault: Option<Fault>)
      requires Valid() && sys.running && partSeq < plan.n && partSeq !in completedParts
      requires file.pos == Cut(meta.size, meta.chunkSize, partSeq)
      modifies this`sys, this`completedParts, file, remote`script, remote`store
      ensures Valid() && sys.running && Reaches(plan, old(sys), sys)
      ensures fault.None? ==> completedParts == old(completedParts) + {partSeq}
      ensures fault.None? ==> file.pos == Cut(meta.size, meta.chunkSize, partSeq + 1)
      ensures fault.Some? ==> completedParts == old(completedParts)
      ensures remote.script == Rest(old(remote.script))
      ensures Next(old(remote.script)).Accept? && Next(old(remote.script)).tag == meta.blockList[partSeq] ==> fault.None?
    {
      PartSizeIsCut(meta, partSeq);
      hide Inv, Reaches, Describes, Cut, PartSize;
      ReachesSelf(plan, sys);
      var chunk := ReadPart(file, plan, partSeq + 1, PartSize(meta, partSeq));
      if chunk.None? { return Some(Fatal); }
      ghost var fate := Next(remote.script);
      var r := remote.Put(partSeq + 1, chunk.value);
      var silent: bool := *;
      var good := r.Ok? && (silent || r.tag == meta.blockList[partSeq]);
      PutIsStep(plan, old(sys), sys, fate, partSeq + 1, good);
      sys := AfterPut(plan, sys, fate, partSeq + 1, good);
      if !good {
        return Some(FaultOf(r));
      }
      assert Shift(completedParts + {partSeq}) == Shift(completedParts) + {partSeq + 1};
      completedParts := completedParts + {partSeq};
      fault := None;
    }

    /** Sends one chunk, counts it, and saves after every fifth part. The clamp changes nothing. */
    method SendAndCount(partSeq: nat) returns (fault: Option<Fault>)
      requires Valid() && sys.running && partSeq < plan.n && partSeq !in completedParts
      requires file.pos == Cut(meta.size, meta.chunkSize, partSeq)
      requires uploadedBytes == BytesOf(meta.size, meta.chunkSize, Shift(completedParts), plan.n)
      modifies this, file, remote`script, remote`store
      ensures Valid() && sys.running && Reaches(plan, old(sys), sys)
      ensures fault.None? ==> completedParts == old(completedParts) + {partSeq}
      ensures fault.None? ==> file.pos == Cut(meta.size, meta.chunkSize, partSeq + 1)
      ensures fault.Some? ==> completedParts == old(completedParts)
      ensures saved == if fault.None? && (partSeq + 1) % 5 == 0 then completedParts else old(saved)
      ensures uploadedBytes == BytesOf(meta.size, meta.chunkSize, Shift(completedParts), plan.n)
      ensures remote.script == Rest(old(remote.script))
      ensures Next(old(remote.script)).Accept? && Next(old(remote.script)).tag == meta.blockList[partSeq] ==> fault.None?
    {
      BytesOfMore(meta, completedParts, plan.n, partSeq);
      BytesOfBounds(meta.size, meta.chunkSize, Shift(completedParts + {partSeq}), plan.n);
      hide Inv, Reaches, Describes, Shift, Cut, PartSize, BytesOf;
      fault := SendChunk(partSeq);
      if fault.Some? { return; }
      var uploaded := uploadedBytes + PartSize(meta, partSeq);
      if uploaded > meta.size {
        uploaded := meta.size;
      }
      uploadedBytes := uploaded;
      if (partSeq + 1) % PERSIST_EVERY == 0 {
        ghost var was := sys;
        Persist();
        ReachesTrans(plan, old(sys), was, sys);
      }
    }

    /** The loop body of uploadBaiduParts: a finished part moves the cursor, another one is sent. */
    method SkipOrSend(partSeq: nat, ghost had: set<nat>) returns (fault: Option<Fault>)
      requires Valid() && sys.running && partSeq < plan.n
      requires partSeq in completedParts <==> partSeq in had
      requires file.pos == Cut(meta.size, meta.chunkSize, partSeq)
      requires uploadedBytes == BytesOf(meta.size, meta.chunkSize, Shift(completedParts), plan.n)
      modifies this, file, remote`script, remote`store
      ensures Valid() && sys.running && Reaches(plan, old(sys), sys)
      ensures completedParts == if fault.None? then old(completedParts) + {partSeq} else old(completedParts)
      ensures fault.None? ==> file.pos == Cut(meta.size, meta.chunkSize, partSeq + 1)
      ensures uploadedBytes == BytesOf(meta.size, meta.chunkSize, Shift(completedParts), plan.n)
      ensures Echoes(old(remote.script), meta.blockList, had, partSeq)
        ==> fault.None? && Echoes(remote.script, meta.blockList, had, partSeq + 1)
    {
      PartSizeIsCut(meta, partSeq);
      hide Inv, Reaches, Describes, Shift, Cut, PartSize, BytesOf;
      if partSeq in completedParts {
        ReachesSelf(plan, sys);
        file.SeekCurrent(PartSize(meta, partSeq));
        assert completedParts == completedParts + {partSeq};
        fault := None;
      } else {
        fault := SendAndCount(partSeq);
      }
    }

    /** uploadBaiduParts */
    method UploadParts() returns (fault: Option<Fault>)
      requires Valid() && sys.running
      requires file.pos == 0
      modifies this, file, remote`script, remote`store
      ensures Valid() && sys.running && Reaches(plan, old(sys), sys)
      ensures saved == completedParts && old(completedParts) <= completedParts
      ensures uploadedBytes == BytesOf(meta.size, meta.chunkSize, Shift(completedParts), plan.n)
      ensures fault.None? ==> sys.done.Keys == Numbers(plan.n) && uploadedBytes == meta.size
      ensures fault.None? ==> file.pos == meta.size
      ensures Echoes(old(remote.script), meta.blockList, old(completedParts), 0)
        ==> fault.None? && Next(remote.script).Accept?
    {
      hide Inv, Reaches, Describes, Shift, Cut, PartSize, BytesOf, Echoes;
      Counted();
      uploadedBytes := CompletedBytes(meta, completedParts);
      Persist();
      ghost var was := sys;
      fault := SendParts();
      ReachesTrans(plan, old(sys), was, sys);
      was := sys;
      Persist();
      ReachesTrans(plan, old(sys), was, sys);
      if fault.None? {
        AllShifted();
        EchoesEnd(remote.script, meta.blockList, old(completedParts));
        BytesOfBounds(meta.size, meta.chunkSize, Numbers(plan.n), plan.n);
      }
    }

    /** The part loop of uploadBaiduParts. */
    method SendParts() returns (fault: Option<Fault>)
      requires Valid() && sys.running
      requires file.pos == 0
      requires uploadedBytes == BytesOf(meta.size, meta.chunkSize, Shift(completedParts), plan.n)
      modifies this, file, remote`script, remote`store
      ensures Valid() && sys.running && Reaches(plan, old(sys), sys)
      ensures old(completedParts) <= completedParts
      ensures uploadedBytes == BytesOf(meta.size, meta.chunkSize, Shift(completedParts), plan.n)
      ensures fault.None? ==> Before(plan.n) <= completedParts
      ensures fault.None? ==> file.pos == Cut(meta.size, meta.chunkSize, plan.n)
      ensures Echoes(old(remote.script), meta.blockList, old(completedParts), 0)
        ==> fault.None? && Echoes(remote.script, meta.blockList, old(completedParts), plan.n)
    {
      assert Cut(meta.size, meta.chunkSize, 0) == 0;
      hide Inv, Reaches, Describes, Shift, Cut, PartSize, BytesOf, Echoes, Before;
      ReachesSelf(plan, sys);
      ghost var had := completedParts;
      var totalParts := |meta.blockList|;
      fault := None;
      var partSeq := 0;
      BeforeGrows(had, 0);
      while partSeq < totalParts
        invariant 0 <= partSeq <= totalParts && fault.None?
        invariant Valid() && sys.running && Reaches(plan, old(sys), sys)
        invariant file.pos == Cut(meta.size, meta.chunkSize, partSeq)
        invariant completedParts == had + Before(partSeq)
        invariant Echoes(old(remote.script), meta.blockList, had, 0) ==> Echoes(remote.script, meta.blockList, had, partSeq)
        invariant uploadedBytes == BytesOf(meta.size, meta.chunkSize, Shift(completedParts), plan.n)
      {
        ghost var was := sys;
        BeforeGrows(had, partSeq);
        fault := SkipOrSend(partSeq, had);
        ReachesTrans(plan, old(sys), was, sys);
        if fault.Some? {
          break;
        }
        partSeq := partSeq + 1;
      }
    }

    static lemma EchoesEnd(script: seq<Fate>, blockList: seq<string>, had: set<nat>)
      ensures Echoes(script, blockList, had, |blockList|) ==> Next(script).Accept?
    {
    }

    lemma AllShifted()
      requires Valid() && sys.running && Before(plan.n) <= completedParts
      ensures sys.done.Keys == Shift(completedParts) == Numbers(plan.n)
    {
      Counted();
    }

    lemma Counted()
      requires Valid() && sys.running
      ensures forall i :: i in completedParts ==> i < plan.n
      ensures plan.n == Blocks(meta.size, meta.chunkSize) && meta.size == |plan.file|
      ensures meta.chunkSize > 0 && Cut(meta.size, meta.chunkSize, plan.n) == meta.size
    {
      forall i | i in completedParts
        ensures i < plan.n
      {
        assert i + 1 in Shift(completedParts);
        assert i + 1 in sys.done;
      }
    }

    /** Reloads the saved set, keeping the indices of real parts, which is all of it. */
    method Restore()
      requires Valid() && !sys.running
      modifies this`sys, this`completedParts
      ensures Valid() && sys.running && Reaches(plan, old(sys), sys)
      ensures completedParts == saved
    {
      hide Inv, Reaches, Describes;
      ReachesSelf(plan, sys);
      OtherIsStep(plan, sys, sys, Step.Resume);
      SavedCounted();
      completedParts := set i | i in saved && 0 <= i < |meta.blockList|;
      assert completedParts == saved;
      sys := sys.(running := true, done := sys.saved);
    }

    /** One run of the driver: reload, send the rest, and ask the server to write the file. */
    method UploadLocalFile() returns (fault: Option<Fault>)
      requires Valid() && !sys.running
      modifies this, file, remote
      ensures Valid() && !sys.running && Reaches(plan, old(sys), sys)
      ensures fault.None? ==> remote.joined == Some(plan.file) && uploadedBytes == meta.size
      ensures old(saved) <= saved
      ensures Echoes(old(remote.script), meta.blockList, old(saved), 0) ==> fault.None?
    {
      hide Inv, Reaches, Describes, Shift, Cut, BytesOf, Sufficient, Echoes;
      Restore();
      file.Reopen();
      ghost var was := sys;
      fault := UploadParts();
      ReachesTrans(plan, old(sys), was, sys);
      if fault.None? {
        AllAreSufficient(plan, sys.done.Keys);
        CompleteIsStep(plan, old(sys), sys);
        var r := remote.CompleteAll();
        sys := sys.(joined := remote.joined);
        if !r.Ok? {
          fault := Some(FaultOf(r));
        }
      }
      OtherIsStep(plan, old(sys), sys, Step.Stop);
      sys := sys.(running := false, done := map[]);
    }

    lemma SavedCounted()
      requires Valid()
      ensures forall i :: i in saved ==> i < plan.n
    {
      forall i | i in saved
        ensures i < plan.n
      {
        assert i + 1 in Shift(saved);
        assert i + 1 in sys.saved;
      }
    }
  }
}
