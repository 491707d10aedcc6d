/**
 drivers/Guangya/upload.go: small files in one request; larger ones in parts read at absolute offsets, any
 subset of them finished before, with the completion list sorted by number.
 */
module UploadGuangya {
  import opened Parts
  import opened Resumable
  import opened Transfer
  import opened Sorted
  import PartSize

  function WithTags(numbers: seq<nat>, etags: map<nat, Tag>): (list: seq<Part>)
    requires forall k :: 0 <= k < |numbers| ==> numbers[k] in etags
    ensures |list| == |numbers|
    ensures forall k :: 0 <= k < |list| ==> list[k] == Part(numbers[k], etags[numbers[k]])
  {
    seq(|numbers|, k requires 0 <= k < |numbers| => Part(numbers[k], etags[numbers[k]]))
  }

  /** guangyaCompletedParts: the known parts in ascending number. */
  function CompletedParts(etags: map<nat, Tag>): (list: seq<Part>) {
    var numbers := Listed(etags.Keys);
    assert forall k :: 0 <= k < |numbers| ==> numbers[k] in numbers;
    WithTags(numbers, etags)
  }

  function UpTo(n: nat): (xs: seq<nat>)
    ensures |xs| == n && forall k :: 0 <= k < n ==> xs[k] == k + 1
  {
    seq(n, k => k + 1)
  }

  /** However the map was filled, its sorted keys are exactly 1, 2, ..., n. */
  lemma ListedNumbers(n: nat)
    ensures Listed(Numbers(n)) == UpTo(n)
  {
    hide Listed;
    forall x: nat
      ensures x in UpTo(n) <==> x in Listed(Numbers(n))
    {
      if 1 <= x <= n {
        assert UpTo(n)[x - 1] == x;
      }
    }
    AscendingUnique(Listed(Numbers(n)), UpTo(n));
  }

  lemma CompletedIsNamed(n: nat, etags: map<nat, Tag>)
    requires etags.Keys == Numbers(n)
    ensures Names(CompletedParts(etags), etags)
  {
    hide Listed, SetOf, Distinct, Numbers;
    ListedNumbers(n);
    ConsecutiveNumbers(UpTo(n));
    assert NumbersOf(CompletedParts(etags)) == UpTo(n);
  }

  lemma CompletedIsWhole(plan: Plan, s: Sys)
    requires Inv(plan, s) && s.done.Keys == Numbers(plan.n)
    ensures WholeFile(plan, s.store, CompletedParts(s.done))
  {
    hide Listed;
    ListedNumbers(plan.n);
    var list := CompletedParts(s.done);
    forall i | 1 <= i <= plan.n
      ensures i in s.store && list[i - 1] == Part(i, s.store[i].tag) && s.store[i].data == plan.Part(i)
    {
      assert UpTo(plan.n)[i - 1] == i;
      assert i in s.done;
    }
  }

  /** A file no longer than one part has at most one. */
  lemma OnePart(plan: Plan)
    requires plan.Valid() && plan.n == Count(|plan.file|, plan.p) && |plan.file| <= plan.p
    ensures plan.n <= 1
  {
    CountCovers(|plan.file|, plan.p);
    assert 1 * plan.p == plan.p;
    assert Cut(|plan.file|, plan.p, 1) == |plan.file|;
  }

  /** Seeks to a part's own offset and delivers a part's length, or what remains. */
  method DeliverPart(file: LocalFile, plan: Plan, i: nat) returns (data: seq<byte>)
    requires plan.Valid() && 1 <= i <= Count(|plan.file|, plan.p) && file.content == plan.file
    modifies file
    ensures data == plan.Part(i)
  {
    WindowIsPart(plan, i);
    var offset, currentSize := (i - 1) * plan.p, plan.p;
    if offset + currentSize > |plan.file| {
      currentSize := |plan.file| - offset;
    }
    file.SeekStart(offset);
    data := file.Deliver(currentSize);
  }

  class Session {
    const plan: Plan
    const file: LocalFile
    const remote: Remote
    var resumed: bool
    var completedEtags: map<nat, Tag>
    var ossCompleted: bool
    var saved: map<nat, Tag>
    var savedCompleted: bool
    var savedSession: bool
    var request: seq<Part>
    ghost var sys: Sys

    ghost predicate Valid()
      reads this, file, remote
    {
      && plan.Valid() && plan.p == PartSize.SizeGuangya(|plan.file|) && plan.n == Count(|plan.file|, plan.p)
      && file.content == plan.file
      && Inv(plan, sys)
      && sys.store == remote.store && sys.joined == remote.joined
      && sys.saved == saved && (sys.running ==> sys.done == completedEtags)
      && (!savedSession ==> saved == map[])
      && (savedCompleted || (sys.running && ossCompleted) ==> remote.joined == Some(plan.file))
    }

    constructor (plan: Plan, file: LocalFile, remote: Remote)
      requires plan.Valid() && plan.p == PartSize.SizeGuangya(|plan.file|) && plan.n == Count(|plan.file|, plan.p)
      requires file.content == plan.file && remote.store == map[] && remote.joined == None
      ensures Valid() && sys == Init && this.plan == plan && this.file == file && this.remote == remote
    {
      this.plan, this.file, this.remote := plan, file, remote;
      completedEtags, saved, request, sys := map[], map[], [], Init;
      resumed, ossCompleted, savedCompleted, savedSession := false, false, false, false;
    }

    /** persistGuangyaResumeState */
    method Persist()
      requires Valid() && sys.running
      modifies this`saved, this`savedCompleted, this`savedSession, this`sys
      ensures Valid() && Reaches(plan, old(sys), sys)
      ensures saved == completedEtags && savedCompleted == ossCompleted && sys == old(sys).(saved := sys.done)
    {
      hide Inv, Reaches;
      ReachesSelf(plan, sys);
      OtherIsStep(plan, old(sys), sys, Step.Persist);
      saved, savedCompleted, savedSession := completedEtags, ossCompleted, true;
      sys := sys.(saved := sys.done);
    }

    /** Sends part `i` from its own offset. */
    method OssUploadPart(i: nat) returns (r: Reply)
      requires Valid() && sys.running && 1 <= i <= plan.n && i !in completedEtags
      modifies file, remote`script, remote`store, this`sys, this`completedEtags
      ensures Valid() && sys.running && Reaches(plan, old(sys), sys)
      ensures completedEtags == if r.Ok? then old(completedEtags)[i := r.tag] else old(completedEtags)
      ensures remote.script == Rest(old(remote.script)) && (Next(old(remote.script)).Accept? ==> r.Ok?)
    {
      hide Inv, Reaches, Cut, Count, PartSize.SizeGuangya, Slice;
      ReachesSelf(plan, sys);
      var data := DeliverPart(file, plan, i);
      ghost var fate := Next(remote.script);
      r := remote.Put(i, data);
      PutIsStep(plan, old(sys), sys, fate, i, fate.Accept?);
      sys := AfterPut(plan, sys, fate, i, fate.Accept?);
      if r.Exists? {
        r := Failed(Fatal);
      }
      if r.Ok? {
        completedEtags := completedEtags[i := r.tag];
      }
    }

    /** Sends part `i` and saves its tag. */
    method SendPart(i: nat) returns (r: Reply)
      requires Valid() && sys.running && 1 <= i <= plan.n && i !in completedEtags
      modifies file, remote`script, remote`store
      modifies this`sys, this`completedEtags, this`saved, this`savedCompleted, this`savedSession
      ensures Valid() && sys.running && Reaches(plan, old(sys), sys)
      ensures completedEtags == if r.Ok? then old(completedEtags)[i := r.tag] else old(completedEtags)
      ensures saved == if r.Ok? then completedEtags else old(saved)
      ensures remote.script == Rest(old(remote.script)) && (Next(old(remote.script)).Accept? ==> r.Ok?)
    {
      hide Inv, Reaches;
      r := OssUploadPart(i);
      if r.Ok? {
        ghost var was := sys;
        Persist();
        ReachesTrans(plan, old(sys), was, sys);
      }
    }

    /** The part loop of uploadToOSS. */
    method SendParts(ghost more: nat) returns (fault: Option<Fault>)
      requires Valid() && sys.running
      modifies this, file, remote`script, remote`store
      ensures Valid() && sys.running && Reaches(plan, old(sys), sys)
      ensures old(completedEtags).Keys <= completedEtags.Keys
      ensures fault.None? ==> Numbers(plan.n) <= completedEtags.Keys
      ensures saved == old(saved) || saved == completedEtags
      ensures Granted(old(remote.script), Lacking(old(completedEtags).Keys, plan.n) + more)
        ==> fault.None? && Granted(remote.script, more)
    {
      hide Inv, Reaches, Cut, Granted, Lacking;
      ReachesSelf(plan, sys);
      ghost var known, all := completedEtags.Keys, Lacking(completedEtags.Keys, plan.n);
      NoneLacking(known);
      fault := None;
      for partNumber := 1 to plan.n + 1
        invariant Valid() && sys.running && Reaches(plan, old(sys), sys)
        invariant old(completedEtags).Keys <= completedEtags.Keys
        invariant Numbers(partNumber - 1) <= completedEtags.Keys && fault.None?
        invariant saved == old(saved) || saved == completedEtags
        invariant Lacking(known, partNumber - 1) <= all
        invariant forall i :: i >= partNumber ==> (i in completedEtags <==> i in known)
        invariant Granted(old(remote.script), all + more) ==> Granted(remote.script, all - Lacking(known, partNumber - 1) + more)
      {
        LackingNext(known, partNumber);
        LackingLess(known, partNumber, plan.n);
        GrantedNext(remote.script, all - Lacking(known, partNumber) + more);
        if partNumber !in completedEtags {
          ghost var was := sys;
          var r := SendPart(partNumber);
          ReachesTrans(plan, old(sys), was, sys);
          if !r.Ok? {
            return Some(FaultOf(r));
          }
        }
      }
    }

    /** Reloads the saved tags, or opens a session and saves it. */
    method Begin(ghost more: nat) returns (fault: Option<Fault>)
      requires Valid() && !sys.running
      modifies this, remote`script, remote`store
      ensures Valid() && Reaches(plan, old(sys), sys)
      ensures fault.None? ==> sys.running && completedEtags == saved
      ensures fault.Some? ==> sys == old(sys) && saved == old(saved)
      ensures old(savedSession) ==> fault.None? && saved == old(saved) && remote.script == old(remote.script)
      ensures !old(savedSession) && fault.None? ==> saved == map[] && remote.store == map[]
      ensures Granted(old(remote.script), 1 + more) ==> fault.None? && Granted(remote.script, more)
    {
      hide Inv, Reaches, Granted;
      GrantedNext(remote.script, more);
      GrantedLess(remote.script, more, 1 + more);
      ReachesSelf(plan, sys);
      fault := None;
      if savedSession {
        OtherIsStep(plan, sys, sys, Step.Resume);
        completedEtags, ossCompleted := saved, savedCompleted;
        sys := sys.(running := true, done := sys.saved);
      } else {
        var r := remote.Call();
        if !r.Ok? { return Some(FaultOf(r)); }
        OtherIsStep(plan, sys, sys, Restart);
        remote.Reset();
        completedEtags, ossCompleted, saved := map[], savedCompleted, map[];
        sys := sys.(running := true, store := map[], done := map[], saved := map[]);
        ghost var was := sys;
        Persist();
        ReachesTrans(plan, old(sys), was, sys);
      }
    }

    /** The multipart branch of uploadToOSS. */
    method Multipart(ghost more: nat) returns (fault: Option<Fault>)
      requires Valid() && sys.running
      modifies this, file, remote
      ensures Valid() && sys.running && Reaches(plan, old(sys), sys)
      ensures fault.None? ==> remote.joined == Some(plan.file) && WholeFile(plan, remote.store, request)
      ensures fault.None? ==> savedCompleted
      ensures old(completedEtags) == old(saved) ==> old(saved).Keys <= saved.Keys
      ensures Granted(old(remote.script), Lacking(old(completedEtags).Keys, plan.n) + 1 + more)
        ==> fault.None? && Granted(remote.script, more)
    {
      hide Inv, Reaches, WholeFile, Joined, Sufficient, Names, CompletedParts, TagsMatch, Listed, NumbersOf, SetOf, Granted, Lacking;
      fault := SendParts(1 + more);
      if fault.Some? { return; }
      ghost var was := sys;
      fault := Complete(more);
      ReachesTrans(plan, old(sys), was, sys);
    }

    /** Asks the server to join the known parts in ascending number, and saves that it has. */
    method Complete(ghost more: nat) returns (fault: Option<Fault>)
      requires Valid() && sys.running && Numbers(plan.n) <= completedEtags.Keys
      modifies this, remote`script, remote`joined
      ensures Valid() && sys.running && Reaches(plan, old(sys), sys)
      ensures fault.None? ==> remote.joined == Some(plan.file) && WholeFile(plan, remote.store, request)
      ensures fault.None? ==> savedCompleted
      ensures completedEtags == old(completedEtags) && (saved == old(saved) || saved == completedEtags)
      ensures Granted(old(remote.script), 1 + more) ==> fault.None? && Granted(remote.script, more)
    {
      hide Inv, Reaches, WholeFile, Joined, Sufficient, Names, CompletedParts, TagsMatch, Listed, NumbersOf, SetOf, Granted;
      GrantedNext(remote.script, more);
      ReachesSelf(plan, sys);
      AllKnown();
      AllAreSufficient(plan, sys.done.Keys);
      CompletedIsWhole(plan, sys);
      CompletedIsNamed(plan.n, sys.done);
      NamesMatch(plan, sys, CompletedParts(completedEtags));
      CompleteIsStep(plan, old(sys), sys);
      request := CompletedParts(completedEtags);
      var r := remote.CompleteListed(request);
      sys := sys.(joined := remote.joined);
      if !r.Ok? { return Some(FaultOf(r)); }
      ossCompleted := true;
      fault := None;
      ghost var was := sys;
      Persist();
      ReachesTrans(plan, old(sys), was, sys);
    }

    lemma AllKnown()
      requires Valid() && sys.running && Numbers(plan.n) <= completedEtags.Keys
      ensures sys.done.Keys == completedEtags.Keys == Numbers(plan.n)
    {
    }

    /** One run of the driver. */
    method UploadLocalFile() returns (fault: Option<Fault>)
      requires Valid() && !sys.running
      modifies this, file, remote
      ensures Valid() && !sys.running && Reaches(plan, old(sys), sys)
      ensures fault.None? ==> remote.joined == Some(plan.file)
      ensures old(saved).Keys <= saved.Keys
      ensures Granted(old(remote.script), Lacking(old(saved).Keys, plan.n) + 3) ==> fault.None?
      ensures old(savedCompleted) ==> remote.script == Rest(old(remote.script)) && remote.store == old(remote.store)
    {
      hide Inv, Reaches, WholeFile, Granted, Numbers, Lacking;
      ghost var all := Lacking(saved.Keys, plan.n);
      GrantedNext(remote.script, all + 2);
      ReachesSelf(plan, sys);
      if savedCompleted {
        var r := remote.Call();
        return if r.Ok? then None else Some(FaultOf(r));
      }
      file.Reopen();
      if |plan.file| <= PartSize.SizeGuangya(|plan.file|) {
        var data := if |plan.file| == 0 then [] else file.content;
        OnePart(plan);
        OtherIsStep(plan, sys, sys, PutWhole);
        var r := remote.PutObject(data);
        sys := sys.(joined := remote.joined);
        if !r.Ok? { return Some(FaultOf(r)); }
        fault := None;
      } else {
        fault := Begin(all + 2);
        if fault.Some? { return; }
        ghost var was := sys;
        fault := Multipart(1);
        ReachesTrans(plan, old(sys), was, sys);
        OtherIsStep(plan, old(sys), sys, Step.Stop);
        sys := sys.(running := false, done := map[]);
      }
      GrantedNext(remote.script, 0);
      GrantedLess(remote.script, 1, all + 2);
      if fault.None? {
        var r := remote.Call();
        fault := if r.Ok? then None else Some(FaultOf(r));
      }
    }
  }
}
