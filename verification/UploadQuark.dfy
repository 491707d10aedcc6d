/**
 drivers/Quark/upload.go: parts read at absolute offsets, any subset of them finished before; the completion
 request numbers the tags by their position.
 */
module UploadQuark {
  import opened Parts
  import opened Resumable
  import opened Transfer
  import opened Sorted

  /** completeUpload numbers the tags 1, 2, 3, ... */
  function Numbered(etags: seq<Tag>): (list: seq<Part>)
    ensures |list| == |etags| && forall k :: 0 <= k < |etags| ==> list[k] == Part(k + 1, etags[k])
  {
    seq(|etags|, k requires 0 <= k < |etags| => Part(k + 1, etags[k]))
  }

  lemma NumberedNames(etags: seq<Tag>, done: map<nat, Tag>)
    requires done.Keys == Numbers(|etags|)
    requires Gathered(etags, done, |etags|)
    ensures Names(Numbered(etags), done)
  {
    hide Distinct, SetOf;
    var list := Numbered(etags);
    forall k | 0 <= k < |list|
      ensures list[k].number in done && done[list[k].number] == list[k].tag
    {
      assert list[k].number == k + 1 && etags[k + 1 - 1] == done[k + 1];
    }
    NumberedNumbers(etags);
  }

  lemma NumberedNumbers(etags: seq<Tag>)
    ensures Distinct(NumbersOf(Numbered(etags))) && SetOf(NumbersOf(Numbered(etags))) == Numbers(|etags|)
  {
    hide Distinct, SetOf, Numbers;
    ConsecutiveNumbers(NumbersOf(Numbered(etags)));
  }

  /** The tags gathered so far are those of parts `1..k`, in order. */
  ghost predicate Gathered(etags: seq<Tag>, done: map<nat, Tag>, k: nat) {
    |etags| == k && forall i :: 1 <= i <= k ==> i in done && etags[i - 1] == done[i]
  }

  class Session {
    const plan: Plan
    const file: LocalFile
    const remote: Remote
    var completedEtags: map<nat, Tag>
    var saved: map<nat, Tag>
    var request: seq<Part>
    ghost var sys: Sys

    ghost predicate Valid()
      reads this, file, remote
    {
      && plan.Valid() && plan.n == Count(|plan.file|, plan.p) && file.content == plan.file
      && Inv(plan, sys)
      && sys.store == remote.store && sys.joined == remote.joined
      && sys.saved == saved && (sys.running ==> sys.done == completedEtags)
    }

    constructor (plan: Plan, file: LocalFile, remote: Remote)
      requires plan.Valid() && plan.n == Count(|plan.file|, plan.p) && file.content == plan.file
      requires remote.store == map[] && remote.joined == None
      ensures Valid() && sys == Init && this.plan == plan && this.file == file && this.remote == remote
    {
      this.plan, this.file, this.remote := plan, file, remote;
      completedEtags, saved, request, sys := map[], map[], [], Init;
    }

    /** persistQuarkResumeState */
    method Persist()
      requires Valid() && sys.running
      modifies this`saved, this`sys
      ensures Valid() && Reaches(plan, old(sys), sys)
      ensures saved == completedEtags && sys == old(sys).(saved := sys.done)
    {
      ReachesSelf(plan, sys);
      OtherIsStep(plan, old(sys), sys, Step.Persist);
      saved := completedEtags;
      sys := sys.(saved := sys.done);
    }

    /** Sends one part. A server that says it already has the part gives the tag it holds it under. */
    method PutPart(partNo: nat, chunk: seq<byte>) returns (r: Reply)
      requires Valid() && sys.running && 1 <= partNo <= plan.n && partNo !in completedEtags
      requires chunk == plan.Part(partNo)
      modifies remote`script, remote`store, this`sys, this`completedEtags
      ensures Valid() && sys.running && Reaches(plan, old(sys), sys)
      ensures !r.Exists?
      ensures remote.script == Rest(old(remote.script)) && (Next(old(remote.script)).Accept? ==> r.Ok?)
      ensures Next(old(remote.script)).AlreadyThere? && partNo in old(remote.store) ==> r == Ok(old(remote.store)[partNo].tag)
      ensures completedEtags == if r.Ok? then old(completedEtags)[partNo := r.tag] else old(completedEtags)
    {
      ReachesSelf(plan, sys);
      ghost var fate := Next(remote.script);
      r := remote.Put(partNo, chunk);
      PutIsStep(plan, old(sys), sys, fate, partNo, fate.Accept?);
      sys := AfterPut(plan, sys, fate, partNo, fate.Accept?);
      if r.Exists? {
        OtherIsStep(plan, old(sys), sys, Learn(partNo));
        sys := Do(plan, sys, Learn(partNo)).value;
        r := Ok(r.tag);
      }
      if r.Ok? {
        completedEtags := completedEtags[partNo := r.tag];
      }
    }

    /** Reads a part at its own offset, asks for its authorisation, sends it, and saves. */
    method SendPart(partNo: nat, ghost more: nat) returns (r: Reply)
      requires Valid() && sys.running && 1 <= partNo <= plan.n && partNo !in completedEtags
      modifies file, remote`script, remote`store, this`sys, this`completedEtags, this`saved
      ensures Valid() && sys.running && Reaches(plan, old(sys), sys)
      ensures completedEtags == if r.Ok? then old(completedEtags)[partNo := r.tag] else old(completedEtags)
      ensures saved == if r.Ok? then completedEtags else old(saved)
      ensures Granted(old(remote.script), 2 + more) ==> r.Ok? && Granted(remote.script, more)
    {
      hide Inv, Reaches, Cut, Granted;
      GrantedNext(remote.script, 1 + more);
      GrantedNext(Rest(remote.script), more);
      ReachesSelf(plan, sys);
      PartLenIsCut(|plan.file|, plan.p, partNo);
      file.SeekStart((partNo - 1) * plan.p);
      var chunk := ReadPart(file, plan, partNo, PartLen(|plan.file|, plan.p, partNo));
      if chunk.None? { return Failed(Fatal); }
      r := remote.Call();
      if !r.Ok? { return Failed(FaultOf(r)); }
      r := PutPart(partNo, chunk.value);
      if r.Ok? {
        ghost var was := sys;
        Persist();
        ReachesTrans(plan, old(sys), was, sys);
      }
    }

    /** uploadParts */
    method UploadParts(ghost more: nat) returns (fault: Option<Fault>, etags: seq<Tag>)
      requires Valid() && sys.running
      modifies this, file, remote`script, remote`store
      ensures Valid() && sys.running && Reaches(plan, old(sys), sys)
      ensures old(completedEtags).Keys <= completedEtags.Keys
      ensures fault.None? ==> completedEtags.Keys == Numbers(plan.n)
      ensures fault.None? ==> |etags| == plan.n && Gathered(etags, completedEtags, plan.n)
      ensures saved == old(saved) || saved == completedEtags
      ensures Granted(old(remote.script), 2 * Lacking(old(completedEtags).Keys, plan.n) + more)
        ==> fault.None? && Granted(remote.script, more)
    {
      hide Inv, Reaches, Cut, Gathered, Granted, Lacking, Numbers;
      ReachesSelf(plan, sys);
      ghost var known, all := completedEtags.Keys, Lacking(completedEtags.Keys, plan.n);
      NoneLacking(known);
      var totalParts := Count(|plan.file|, plan.p);
      if totalParts <= 0 {
        totalParts := 1;
      }
      fault, etags := None, [];
      GatherNone(completedEtags);
      var partNo := 1;
      while partNo <= totalParts
        invariant 1 <= partNo <= totalParts + 1
        invariant partNo <= plan.n + 1
        invariant Valid() && sys.running && Reaches(plan, old(sys), sys)
        invariant old(completedEtags).Keys <= completedEtags.Keys
        invariant Gathered(etags, completedEtags, partNo - 1) && fault.None?
        invariant saved == old(saved) || saved == completedEtags
        invariant Lacking(known, partNo - 1) <= all
        invariant forall i :: i >= partNo ==> (i in completedEtags <==> i in known)
        invariant Granted(old(remote.script), 2 * all + more) ==> Granted(remote.script, 2 * (all - Lacking(known, partNo - 1)) + more)
      {
        LackingNext(known, partNo);
        if partNo <= plan.n {
          LackingLess(known, partNo, plan.n);
        }
        if partNo in completedEtags {
          OnlyRealParts(partNo);
          GatherMore(etags, completedEtags, partNo, completedEtags[partNo]);
          etags := etags + [completedEtags[partNo]];
        } else {
          LastPart(plan, partNo);
          if PartLen(|plan.file|, plan.p, partNo) <= 0 {
            break;
          }
          ghost var was := sys;
          ghost var had := completedEtags;
          var r := SendPart(partNo, 2 * (all - Lacking(known, partNo)) + more);
          ReachesTrans(plan, old(sys), was, sys);
          if !r.Ok? {
            return Some(FaultOf(r)), [];
          }
          GatherMore(etags, had, partNo, r.tag);
          etags := etags + [r.tag];
        }
        partNo := partNo + 1;
      }
      AllGathered(etags, partNo);
    }

    lemma OnlyRealParts(i: nat)
      requires Valid() && sys.running && i in completedEtags
      ensures 1 <= i <= plan.n
    {
    }

    lemma AllGathered(etags: seq<Tag>, partNo: nat)
      requires Valid() && sys.running && partNo == plan.n + 1 && Gathered(etags, completedEtags, partNo - 1)
      ensures |etags| == plan.n && completedEtags.Keys == Numbers(plan.n)
    {
      forall i | i in Numbers(plan.n)
        ensures i in completedEtags
      {
        assert 1 <= i <= partNo - 1;
      }
    }

    /** One run of the driver: reload the saved tags, send the missing parts, ask the server to join them. */
    method UploadLocalFile() returns (fault: Option<Fault>)
      requires Valid() && !sys.running
      modifies this, file, remote
      ensures Valid() && !sys.running && Reaches(plan, old(sys), sys)
      ensures fault.None? ==> remote.joined == Some(plan.file)
      ensures fault.None? ==> WholeFile(plan, remote.store, request)
      ensures old(saved).Keys <= saved.Keys
      ensures Granted(old(remote.script), 2 * Lacking(old(saved).Keys, plan.n) + 3) ==> fault.None?
    {
      hide Lacking, Numbers, Inv, Reaches, Cut, Sufficient, Joined, Gathered, WholeFile, Granted;
      ReachesSelf(plan, sys);
      OtherIsStep(plan, sys, sys, Step.Resume);
      completedEtags := saved;
      sys := sys.(running := true, done := sys.saved);
      ghost var was := sys;
      var etags;
      fault, etags := UploadParts(3);
      ReachesTrans(plan, old(sys), was, sys);
      if fault.None? {
        was := sys;
        fault := CompleteUpload(etags);
        ReachesTrans(plan, old(sys), was, sys);
      }
      OtherIsStep(plan, old(sys), sys, Step.Stop);
      sys := sys.(running := false, done := map[]);
    }

    /** completeUpload: authorise, then ask the server to join the tags in their order. */
    method CompleteUpload(etags: seq<Tag>) returns (fault: Option<Fault>)
      requires Valid() && sys.running && completedEtags.Keys == Numbers(plan.n)
      requires |etags| == plan.n && Gathered(etags, completedEtags, |etags|)
      modifies this`sys, this`request, remote`script, remote`joined
      ensures Valid() && sys.running && Reaches(plan, old(sys), sys)
      ensures sys == old(sys).(joined := sys.joined)
      ensures fault.None? ==> remote.joined == Some(plan.file)
      ensures fault.None? ==> WholeFile(plan, remote.store, request)
      ensures Granted(old(remote.script), 3) ==> fault.None?
    {
      ReachesSelf(plan, sys);
      hide Inv, Reaches, Sufficient, Joined, WholeFile, Gathered, Names, Numbered, NumbersOf, TagsMatch, SetOf, Numbers, Granted;
      GrantedNext(remote.script, 2);
      GrantedNext(Rest(remote.script), 1);
      GrantedNext(Rest(Rest(remote.script)), 0);
      NumberedNames(etags, completedEtags);
      NamesMatch(plan, sys, Numbered(etags));
      AllAreSufficient(plan, sys.done.Keys);
      CompleteIsStep(plan, old(sys), sys);
      request := Numbered(etags);
      NumberedIsWhole(plan, sys, etags);
      var r := remote.Call();
      if !r.Ok? { return Some(FaultOf(r)); }
      r := remote.CompleteListed(request);
      sys := sys.(joined := remote.joined);
      if !r.Ok? { return Some(FaultOf(r)); }
      r := remote.Call();
      fault := if r.Ok? then None else Some(FaultOf(r));
    }
  }

  lemma NumberedIsWhole(plan: Plan, s: Sys, etags: seq<Tag>)
    requires Inv(plan, s) && Gathered(etags, s.done, plan.n)
    ensures WholeFile(plan, s.store, Numbered(etags))
  {
    forall i | 1 <= i <= plan.n
      ensures i in s.store && Numbered(etags)[i - 1] == Part(i, s.store[i].tag) && s.store[i].data == plan.Part(i)
    {
      assert i in s.done;
    }
  }

  lemma GatherNone(done: map<nat, Tag>)
    ensures Gathered([], done, 0)
  {
  }

  lemma GatherMore(etags: seq<Tag>, done: map<nat, Tag>, partNo: nat, tag: Tag)
    requires partNo >= 1 && Gathered(etags, done, partNo - 1) && (partNo in done ==> done[partNo] == tag)
    ensures Gathered(etags + [tag], done[partNo := tag], partNo)
    ensures partNo in done ==> Gathered(etags + [tag], done, partNo)
  {
  }

  /** An unfinished part up to the total is a real part, except the one part of an empty file. */
  lemma LastPart(plan: Plan, partNo: nat)
    requires plan.Valid() && plan.n == Count(|plan.file|, plan.p)
    requires 1 <= partNo <= if plan.n == 0 then 1 else plan.n
    ensures PartLen(|plan.file|, plan.p, partNo) <= 0 <==> plan.n == 0
    ensures PartLen(|plan.file|, plan.p, partNo) > 0 ==> partNo <= plan.n
  {
    CountCovers(|plan.file|, plan.p);
    if plan.n > 0 {
      PartLenIsCut(|plan.file|, plan.p, partNo);
    } else {
      assert Cut(|plan.file|, plan.p, 0) == 0;
    }
  }
}
