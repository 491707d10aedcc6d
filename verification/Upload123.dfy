/**
 drivers/123_Open/upload.go: slices read through one cursor that is placed once and never moved over a
 finished slice. That is right only because the finished set has no hole.
 */
module Upload123 {
  import opened Parts
  import opened Resumable
  import opened Transfer

  const PERSIST_EVERY := 5

  /** The first slice not yet sent, or 1 when all are. */
  function StartSlice(completed: set<nat>, n: nat): (s: nat) {
    if Numbers(n) <= completed then 1 else FirstMissing(completed, 1, n)
  }

  function FirstMissing(completed: set<nat>, from: nat, n: nat): (s: nat)
    requires forall i :: 1 <= i < from ==> i in completed
    requires from >= 1 && !(Numbers(n) <= completed)
    ensures 1 <= s <= n && s !in completed && forall i :: 1 <= i < s ==> i in completed
    decreases n - from
  {
    if from !in completed || from >= n then
      (assert from <= n && from !in completed by {
         var i :| i in Numbers(n) && i !in completed;
       }
       from)
    else FirstMissing(completed, from + 1, n)
  }

  /** Where the cursor stands when slice `i` comes up: each unfinished slice before it was read, each finished
      one was passed over without moving. */
  function Cursor(size: nat, p: nat, completed: set<nat>, start: nat, i: nat): (at: int)
    requires start >= 1
  {
    if i <= start then Cut(size, p, start - 1)
    else
      var read := if i - 1 in completed then 0 else Cut(size, p, i - 1) - Cut(size, p, i - 2);
      Cursor(size, p, completed, start, i - 1) + read
  }

  /** No finished slice lies between two unfinished ones. */
  ghost predicate NoHole(completed: set<nat>, n: nat) {
    forall a, b, c: nat :: 1 <= a < b < c <= n && a !in completed && c !in completed ==> b !in completed
  }

  /** The finished slices are `1..k` for some k up to n. */
  ghost predicate PrefixOf(completed: set<nat>, n: nat) {
    completed <= Numbers(n) && IsPrefix(completed)
  }

  lemma {:induction false} CursorNeverAhead(size: nat, p: nat, completed: set<nat>, start: nat, i: nat)
    requires p > 0 && start >= 1 && start <= i
    ensures Cursor(size, p, completed, start, i) <= Cut(size, p, i - 1)
    ensures (forall b :: start <= b < i ==> b !in completed) ==> Cursor(size, p, completed, start, i) == Cut(size, p, i - 1)
    ensures (exists b :: start <= b < i && b in completed) && i <= Count(size, p) + 1
        ==> Cursor(size, p, completed, start, i) < Cut(size, p, i - 1)
  {
    if i > start {
      CursorNeverAhead(size, p, completed, start, i - 1);
      CutStep(size, p, i - 2);
      if i <= Count(size, p) + 1 {
        PartLenIsCut(size, p, i - 1);
        if exists b :: start <= b < i && b in completed {
          var b :| start <= b < i && b in completed;
          assert b == i - 1 || (start <= b < i - 1 && b in completed);
        }
      }
    }
  }

  /** Every slice still to send is read from its own start. */
  ghost predicate ReadsTrueSlices(size: nat, p: nat, completed: set<nat>)
    requires p > 0
  {
    var n := Count(size, p);
    forall i :: 1 <= i <= n && i !in completed
      ==> Cursor(size, p, completed, StartSlice(completed, n), i) == Cut(size, p, i - 1)
  }

  /** One slice: it is read from its own start if and only if nothing was passed over before it. */
  lemma ReadRightIff(size: nat, p: nat, completed: set<nat>, i: nat)
    requires p > 0 && 1 <= i <= Count(size, p) && i !in completed
    ensures var s := StartSlice(completed, Count(size, p));
      && s <= i && s !in completed
      && (Cursor(size, p, completed, s, i) == Cut(size, p, i - 1) <==> forall b :: s <= b < i ==> b !in completed)
  {
    assert i in Numbers(Count(size, p));
    CursorNeverAhead(size, p, completed, StartSlice(completed, Count(size, p)), i);
  }

  /** Exactly when skipping without seeking is right: every slice still to send is read from its own start if
      and only if no finished slice lies between two unfinished ones. */
  lemma SkippingIsRightIffNoHole(size: nat, p: nat, completed: set<nat>)
    requires p > 0
    ensures ReadsTrueSlices(size, p, completed) <==> NoHole(completed, Count(size, p))
  {
    var n := Count(size, p);
    var s := StartSlice(completed, n);
    hide Cursor;
    if NoHole(completed, n) {
      forall i | 1 <= i <= n && i !in completed
        ensures Cursor(size, p, completed, s, i) == Cut(size, p, i - 1)
      {
        ReadRightIff(size, p, completed, i);
      }
    } else {
      var a, b, c: nat :| 1 <= a < b < c <= n && a !in completed && c !in completed && b in completed;
      ReadRightIff(size, p, completed, a);
      ReadRightIff(size, p, completed, c);
      assert s <= b < c;
    }
  }

  /** A concrete hole: with slice 2 of 3 finished, slice 3 would be read from where slice 2 starts. */
  lemma HoleExample()
    ensures StartSlice({2}, 3) == 1 && Count(3, 1) == 3
    ensures Cursor(3, 1, {2}, 1, 3) == Cut(3, 1, 1) != Cut(3, 1, 2)
  {
    assert 1 in Numbers(3) && 1 !in {2};
    assert FirstMissing({2}, 1, 3) == 1;
    assert Cursor(3, 1, {2}, 1, 1) == 0;
    assert Cursor(3, 1, {2}, 1, 2) == 1;
  }

  lemma PrefixHasNoHole(completed: set<nat>, n: nat)
    requires PrefixOf(completed, n)
    ensures NoHole(completed, n)
  {
  }

  /** Sending the first missing slice keeps the finished set a prefix. */
  lemma SentKeepsPrefix(completed: set<nat>, n: nat, k: nat)
    requires PrefixOf(completed, n) && 1 <= k <= n && Numbers(k - 1) <= completed
    ensures PrefixOf(completed + {k}, n)
  {
    PrefixGrows(completed, k);
  }

  /** One of the first `tries` tries is accepted; each before it failed for a reason other than cancellation,
      with the login renewed after one that had expired. */
  predicate AcceptedInTries(script: seq<Fate>, tries: nat) {
    && tries > 0
    && if Says(Next(script), Credential) then Next(Rest(script)).Accept? && AcceptedInTries(Rest(Rest(script)), tries - 1)
       else Next(script).Accept? || (!Says(Next(script), Cancelled) && AcceptedInTries(Rest(script), tries - 1))
  }

  class Session {
    const plan: Plan
    const file: LocalFile
    const remote: Remote
    const servers: nat
    var completed: set<nat>
    var saved: set<nat>
    ghost var sys: Sys

    ghost predicate Valid()
      reads this, file, remote
    {
      && plan.Valid() && plan.n == Count(|plan.file|, plan.p) && file.content == plan.file
      && Inv(plan, sys)
      && sys.store == remote.store && sys.joined == remote.joined
      && sys.saved.Keys == saved && PrefixOf(saved, plan.n)
      && (sys.running ==> sys.done.Keys == completed && PrefixOf(completed, plan.n))
    }

    constructor (plan: Plan, file: LocalFile, remote: Remote, servers: nat)
      requires plan.Valid() && plan.n == Count(|plan.file|, plan.p) && file.content == plan.file
      requires remote.store == map[] && remote.joined == None
      ensures Valid() && sys == Init && this.plan == plan && this.file == file && this.remote == remote
    {
      this.plan, this.file, this.remote, this.servers := plan, file, remote, servers;
      completed, saved, sys := {}, {}, Init;
      new;
      assert sys.saved.Keys == {};
    }

    /** persistPan123ResumeState */
    method Persist()
      requires Valid() && sys.running
      modifies this`saved, this`sys
      ensures Valid() && Reaches(plan, old(sys), sys)
      ensures saved == completed && sys == old(sys).(saved := sys.done)
    {
      ReachesSelf(plan, sys);
      OtherIsStep(plan, old(sys), sys, Step.Persist);
      saved := completed;
      sys := sys.(saved := sys.done);
    }

    /** One try: `stop` when it was accepted, cancelled, or the login it found expired could not be renewed. */
    method TrySlice(sliceNo: nat, chunk: seq<byte>) returns (r: Reply, stop: bool)
      requires Valid() && sys.running && 1 <= sliceNo <= plan.n && sliceNo !in completed
      requires chunk == plan.Part(sliceNo)
      modifies remote`script, remote`store, this`sys
      ensures Inv(plan, sys) && sys.store == remote.store && Reaches(plan, old(sys), sys)
      ensures sys == old(sys).(store := sys.store, done := if r.Ok? then old(sys.done)[sliceNo := r.tag] else old(sys.done))
      ensures r.Ok? <==> Next(old(remote.script)).Accept?
      ensures stop <==> var s := old(remote.script);
        Next(s).Accept? || Says(Next(s), Cancelled) || (Says(Next(s), Credential) && !Next(Rest(s)).Accept?)
      ensures remote.script == if Says(Next(old(remote.script)), Credential) then Rest(Rest(old(remote.script))) else Rest(old(remote.script))
    {
      ReachesSelf(plan, sys);
      ghost var fate := Next(remote.script);
      stop := false;
      r := remote.Put(sliceNo, chunk);
      PutIsStep(plan, old(sys), sys, fate, sliceNo, fate.Accept?);
      sys := AfterPut(plan, sys, fate, sliceNo, fate.Accept?);
      if r.Ok? || r == Failed(Cancelled) {
        stop := true;
      } else if r == Failed(Credential) {
        var login := remote.Call();
        stop := !login.Ok?;
      }
    }

    /** uploadSingleSlice: one try for each server, at least three. An expired login is renewed and counts
        as a try. */
    method UploadSingleSlice(sliceNo: nat, chunk: seq<byte>, ghost more: nat) returns (r: Reply)
      requires Valid() && sys.running && 1 <= sliceNo <= plan.n && sliceNo !in completed
      requires chunk == plan.Part(sliceNo)
      modifies remote`script, remote`store, this`sys
      ensures Inv(plan, sys) && sys.store == remote.store && Reaches(plan, old(sys), sys)
      ensures sys == old(sys).(store := sys.store, done := if r.Ok? then old(sys.done)[sliceNo := r.tag] else old(sys.done))
      ensures |old(remote.script)| - |remote.script| <= 2 * (if servers < 3 then 3 else servers)
      ensures Granted(old(remote.script), 1 + more) ==> r.Ok? && Granted(remote.script, more)
      ensures AcceptedInTries(old(remote.script), if servers < 3 then 3 else servers) ==> r.Ok?
    {
      hide Granted, AcceptedInTries, Inv, Reaches;
      ReachesSelf(plan, sys);
      GrantedNext(remote.script, more);
      var maxAttempts := if servers < 3 then 3 else servers;
      r := Failed(Fatal);
      var attempt := 0;
      while attempt < maxAttempts
        invariant 0 <= attempt <= maxAttempts && !r.Ok?
        invariant Inv(plan, sys) && sys.store == remote.store && Reaches(plan, old(sys), sys)
        invariant sys == old(sys).(store := sys.store)
        invariant |old(remote.script)| - |remote.script| <= 2 * attempt
        invariant Granted(old(remote.script), 1 + more) ==> attempt == 0 && remote.script == old(remote.script)
        invariant AcceptedInTries(old(remote.script), maxAttempts) ==> AcceptedInTries(remote.script, maxAttempts - attempt)
      {
        ghost var was := sys;
        TriesLeft(remote.script, maxAttempts - attempt);
        var stop;
        r, stop := TrySlice(sliceNo, chunk);
        ReachesTrans(plan, old(sys), was, sys);
        if stop {
          return;
        }
        attempt := attempt + 1;
      }
      NoTries(remote.script);
    }

    /** Reads slice `sliceNo` where the cursor stands, which must be its start, sends it and counts it. */
    method SendSlice(sliceNo: nat, ghost more: nat) returns (fault: Option<Fault>)
      requires Valid() && sys.running && 1 <= sliceNo <= plan.n && sliceNo !in completed
      requires Numbers(sliceNo - 1) <= completed
      requires file.pos == Cut(|plan.file|, plan.p, sliceNo - 1)
      modifies this, file, remote`script, remote`store
      ensures Valid() && sys.running && Reaches(plan, old(sys), sys)
      ensures fault.None? ==> completed == old(completed) + {sliceNo}
      ensures fault.None? ==> file.pos == Cut(|plan.file|, plan.p, sliceNo)
      ensures fault.Some? ==> completed == old(completed)
      ensures saved == if fault.None? && sliceNo % 5 == 0 then completed else old(saved)
      ensures Granted(old(remote.script), 1 + more) ==> fault.None? && Granted(remote.script, more)
    {
      hide Inv, Reaches, PrefixOf, Cut, Granted;
      ReachesSelf(plan, sys);
      fault := Some(Fatal);
      PartLenIsCut(|plan.file|, plan.p, sliceNo);
      SentKeepsPrefix(completed, plan.n, sliceNo);
      var chunk := ReadPart(file, plan, sliceNo, PartLen(|plan.file|, plan.p, sliceNo));
      if chunk.None? { return; }
      var r := UploadSingleSlice(sliceNo, chunk.value, more);
      if !r.Ok? {
        return Some(FaultOf(r));
      }
      completed := completed + {sliceNo};
      if sliceNo % PERSIST_EVERY == 0 {
        ghost var was := sys;
        Persist();
        ReachesTrans(plan, old(sys), was, sys);
      }
      fault := None;
    }

    /** Finds the first slice not yet sent and seeks to its start. */
    method PlaceCursor() returns (startSlice: nat)
      requires Valid() && file.pos == 0 && |plan.file| > 0
      modifies file
      ensures Valid()
      ensures 1 <= startSlice <= plan.n && startSlice == StartSlice(completed, plan.n)
      ensures Numbers(startSlice - 1) <= completed
      ensures file.pos == Cut(|plan.file|, plan.p, startSlice - 1)
    {
      hide Inv, Reaches, Cut;
      var totalSlices := Count(|plan.file|, plan.p);
      startSlice := 1;
      var sliceNo := 1;
      while sliceNo <= totalSlices && sliceNo in completed
        invariant 1 <= sliceNo <= totalSlices + 1
        invariant forall i :: 1 <= i < sliceNo ==> i in completed
      {
        sliceNo := sliceNo + 1;
      }
      if sliceNo <= totalSlices {
        startSlice := sliceNo;
      }
      StartsThere(completed, totalSlices, sliceNo, startSlice);
      StartOffset(|plan.file|, plan.p, 1);
      if startSlice > 1 {
        StartOffset(|plan.file|, plan.p, startSlice);
        file.SeekStart((startSlice - 1) * plan.p);
      }
    }

    /** The slice loop of uploadFileSlices. */
    method SendRest(startSlice: nat, ghost more: nat) returns (fault: Option<Fault>)
      requires Valid() && sys.running
      requires 1 <= startSlice <= plan.n && startSlice == StartSlice(completed, plan.n)
      requires Numbers(startSlice - 1) <= completed
      requires file.pos == Cut(|plan.file|, plan.p, startSlice - 1)
      modifies this, file, remote`script, remote`store
      ensures Valid() && sys.running && Reaches(plan, old(sys), sys)
      ensures old(completed) <= completed
      ensures fault.None? ==> Numbers(plan.n) <= completed
      ensures Granted(old(remote.script), Lacking(old(completed), plan.n) + more) ==> fault.None? && Granted(remote.script, more)
    {
      hide Lacking, Inv, Reaches, Cursor, StartSlice, NoHole, PrefixOf, Cut, Count, ReadsTrueSlices, Numbers, Granted;
      ReachesSelf(plan, sys);
      fault := None;
      ghost var had := completed;
      var sliceNo := startSlice;
      assert completed == had + Numbers(startSlice - 1);
      CursorStarts(plan, had, startSlice);
      ghost var all := Lacking(had, plan.n);
      LackingNone(had, startSlice - 1);
      while sliceNo <= plan.n
        invariant startSlice <= sliceNo <= plan.n + 1 && fault.None?
        invariant Valid() && sys.running && Reaches(plan, old(sys), sys)
        invariant completed == had + Numbers(sliceNo - 1)
        invariant file.pos == Cursor(|plan.file|, plan.p, had, startSlice, sliceNo)
        invariant Lacking(had, sliceNo - 1) <= all
        invariant Granted(old(remote.script), all + more) ==> Granted(remote.script, all - Lacking(had, sliceNo - 1) + more)
      {
        CursorMoves(|plan.file|, plan.p, had, startSlice, sliceNo);
        NumbersGrow(had, sliceNo);
        LackingNext(had, sliceNo);
        LackingLess(had, sliceNo, plan.n);
        ghost var after := all - Lacking(had, sliceNo) + more;
        if sliceNo !in completed {
          ghost var was := sys;
          fault := SendSlice(sliceNo, after);
          ReachesTrans(plan, old(sys), was, sys);
          if fault.Some? {
            break;
          }
        }
        sliceNo := sliceNo + 1;
      }
    }

    /** uploadFileSlices */
    method UploadFileSlices(ghost more: nat) returns (fault: Option<Fault>)
      requires Valid() && sys.running && file.pos == 0
      modifies this, file, remote`script, remote`store
      ensures Valid() && sys.running && Reaches(plan, old(sys), sys)
      ensures old(completed) <= completed == saved
      ensures fault.None? ==> completed == Numbers(plan.n)
      ensures Granted(old(remote.script), Lacking(old(completed), plan.n) + more) ==> fault.None? && Granted(remote.script, more)
    {
      hide Inv, Reaches, Granted, Lacking;
      GrantedLess(remote.script, more, Lacking(completed, plan.n) + more);
      ReachesSelf(plan, sys);
      if |plan.file| == 0 {
        EmptyPlan(plan);
        AllSlices(completed, plan.n);
        return None;
      }
      var startSlice := PlaceCursor();
      fault := SendRest(startSlice, more);
      ghost var was := sys;
      Persist();
      ReachesTrans(plan, old(sys), was, sys);
      if fault.None? {
        AllSlices(completed, plan.n);
      }
    }

    /** Reloads the saved slices, keeping the numbers of real ones, which is all of them. */
    method Restore()
      requires Valid() && !sys.running
      modifies this`sys, this`completed
      ensures Valid() && sys.running && Reaches(plan, old(sys), sys)
      ensures completed == saved
    {
      hide Inv, Reaches;
      ReachesSelf(plan, sys);
      OtherIsStep(plan, sys, sys, Step.Resume);
      completed := set i | i in saved && 1 <= i <= plan.n;
      assert completed == saved;
      sys := sys.(running := true, done := sys.saved);
    }

    /** One run of the driver: reload, send the rest, and ask the server to finish. */
    method UploadLocalFile() returns (fault: Option<Fault>)
      requires Valid() && !sys.running
      modifies this, file, remote
      ensures Valid() && !sys.running && Reaches(plan, old(sys), sys)
      ensures fault.None? ==> remote.joined == Some(plan.file)
      ensures PrefixOf(saved, plan.n) && old(saved) <= saved
      ensures Granted(old(remote.script), Lacking(old(saved), plan.n) + 1) ==> fault.None?
    {
      hide Inv, Reaches, PrefixOf, Cut, Sufficient, Granted, Lacking;
      Restore();
      file.Reopen();
      ghost var was := sys;
      fault := UploadFileSlices(1);
      ReachesTrans(plan, old(sys), was, sys);
      if fault.None? {
        AllAreSufficient(plan, sys.done.Keys);
        GrantedNext(remote.script, 0);
        CompleteIsStep(plan, old(sys), sys);
        var r := remote.CompleteAll();
        sys := sys.(joined := remote.joined);
        if !r.Ok? {
          fault := Some(FaultOf(r));
        }
      }
      OtherIsStep(plan, old(sys), sys, Step.Stop);
      sys := sys.(running := false, done := map[]);
    }
  }

  lemma TriesLeft(script: seq<Fate>, tries: nat)
    requires AcceptedInTries(script, tries) ==> tries > 0
    ensures AcceptedInTries(script, tries) && !Next(script).Accept? ==>
      if Says(Next(script), Credential) then Next(Rest(script)).Accept? && AcceptedInTries(Rest(Rest(script)), tries - 1)
      else !Says(Next(script), Cancelled) && AcceptedInTries(Rest(script), tries - 1)
  {
  }

  lemma NoTries(script: seq<Fate>)
    ensures !AcceptedInTries(script, 0)
  {
  }

  lemma LackingNone(had: set<nat>, k: nat)
    requires Numbers(k) <= had
    ensures Lacking(had, k) == 0
  {
    assert Numbers(k) - had == {};
  }

  /** Passing slice `i` leaves the cursor where the next slice expects it. */
  lemma CursorMoves(size: nat, p: nat, completed: set<nat>, start: nat, i: nat)
    requires p > 0 && 1 <= start <= i <= Count(size, p)
    requires start == StartSlice(completed, Count(size, p)) && ReadsTrueSlices(size, p, completed)
    ensures i !in completed ==> Cursor(size, p, completed, start, i) == Cut(size, p, i - 1)
    ensures i !in completed ==> Cursor(size, p, completed, start, i + 1) == Cut(size, p, i)
    ensures i in completed ==> Cursor(size, p, completed, start, i + 1) == Cursor(size, p, completed, start, i)
  {
  }

  lemma CursorStarts(plan: Plan, completed: set<nat>, start: nat)
    requires plan.Valid() && start >= 1 && PrefixOf(completed, Count(|plan.file|, plan.p))
    ensures ReadsTrueSlices(|plan.file|, plan.p, completed)
    ensures Cursor(|plan.file|, plan.p, completed, start, start) == Cut(|plan.file|, plan.p, start - 1)
  {
    PrefixHasNoHole(completed, Count(|plan.file|, plan.p));
    SkippingIsRightIffNoHole(|plan.file|, plan.p, completed);
  }

  lemma EmptyPlan(plan: Plan)
    requires plan.Valid() && plan.file == [] && plan.n == Count(0, plan.p)
    ensures plan.n == 0 && Numbers(plan.n) == {}
  {
    CountCovers(0, plan.p);
    assert Cut(0, plan.p, 0) == 0;
  }

  lemma StartsThere(completed: set<nat>, n: nat, sliceNo: nat, startSlice: nat)
    requires 1 <= sliceNo <= n + 1 && forall i :: 1 <= i < sliceNo ==> i in completed
    requires sliceNo <= n ==> sliceNo !in completed
    requires startSlice == if sliceNo <= n then sliceNo else 1
    ensures startSlice == StartSlice(completed, n)
  {
    if sliceNo <= n {
      assert sliceNo in Numbers(n);
    }
  }

  lemma NumbersGrow(had: set<nat>, k: nat)
    requires k >= 1
    ensures had + Numbers(k - 1) + {k} == had + Numbers(k)
    ensures k in had + Numbers(k - 1) <==> k in had
    ensures k in had ==> had + Numbers(k - 1) == had + Numbers(k)
  {
  }

  lemma AllSlices(completed: set<nat>, n: nat)
    requires PrefixOf(completed, n) && Numbers(n) <= completed
    ensures completed == Numbers(n)
  {
  }

  lemma StartOffset(size: nat, p: nat, start: nat)
    requires p > 0 && 1 <= start <= Count(size, p)
    ensures Cut(size, p, start - 1) == (start - 1) * p
  {
    PartLenIsCut(size, p, start);
  }
}
