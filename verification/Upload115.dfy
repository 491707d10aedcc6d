/**
 drivers/115_Open/upload.go: multipart upload with absolute seeks, retries, credential renewal, and
 resumption from the server's own listing of parts.
 */
module Upload115 {
  import opened Parts
  import opened Resumable
  import opened Transfer
  import opened Sorted

  const ATTEMPTS := 3
  const PERSIST_EVERY := 5

  /** What the saved state says about the upload session. */
  datatype ResumeState = ResumeState(uploadID: string, bucket: string, target: string, uploadedBytes: int)

  /** The parts of `1..k` that are not in `have`, ascending. */
  function Absent(have: set<nat>, k: nat): (xs: seq<nat>)
    ensures forall x :: x in xs ==> 1 <= x <= k && x !in have
  {
    if k == 0 then [] else Absent(have, k - 1) + if k in have then [] else [k]
  }

  lemma {:induction false} AbsentFacts(have: set<nat>, k: nat)
    ensures Ascending(Absent(have, k))
    ensures forall x: nat :: 1 <= x <= k && x !in have ==> x in Absent(have, k)
  {
    if k > 0 {
      AbsentFacts(have, k - 1);
      var front := Absent(have, k - 1);
      assert forall j :: 0 <= j < |front| ==> front[j] in front;
    }
  }

  lemma AscendingConcat(a: seq<nat>, b: seq<nat>)
    requires Ascending(a) && Ascending(b)
    ensures Ascending(a + b) <==> forall x, y :: x in a && y in b ==> x < y
  {
    if Ascending(a + b) {
      forall x, y | x in a && y in b
        ensures x < y
      {
        var i :| 0 <= i < |a| && a[i] == x;
        var j :| 0 <= j < |b| && b[j] == y;
        assert (a + b)[i] == x && (a + b)[|a| + j] == y;
      }
    }
    if forall x, y :: x in a && y in b ==> x < y {
      forall i, j | 0 <= i < j < |a + b|
        ensures (a + b)[i] < (a + b)[j]
      {
        if i < |a| <= j {
          assert a[i] in a && b[j - |a|] in b;
        }
      }
    }
  }

  /** The completion request lists the parts found on the server first and the newly sent ones after, so it
      is in ascending order exactly when what the server had was a prefix. */
  lemma RequestAscendingIffPrefix(have: set<nat>, n: nat)
    requires have <= Numbers(n)
    ensures Ascending(Listed(have) + Absent(have, n)) <==> IsPrefix(have)
  {
    var a, b := Listed(have), Absent(have, n);
    AbsentFacts(have, n);
    AscendingConcat(a, b);
    if IsPrefix(have) {
      forall x, y | x in a && y in b
        ensures x < y
      {
        assert x in have && y !in have;
      }
    } else {
      var i, j: nat :| i in have && 1 <= j < i && j !in have;
      assert i in Numbers(n) && i in a && j in b;
    }
  }

  class Session {
    const plan: Plan
    const file: LocalFile
    const remote: Remote
    var rs: ResumeState
    var saved: ResumeState
    var request: seq<Part>
    ghost var listed: set<nat>
    ghost var sys: Sys

    ghost predicate Valid()
      reads this, file, remote
    {
      && plan.Valid() && plan.n == Count(|plan.file|, plan.p) && file.content == plan.file
      && remote.pageSize >= 1
      && Inv(plan, sys) && sys.saved == map[]
      && sys.store == remote.store && sys.joined == remote.joined
      && IsPrefix(sys.store.Keys)
    }

    constructor (plan: Plan, file: LocalFile, remote: Remote)
      requires plan.Valid() && plan.n == Count(|plan.file|, plan.p) && file.content == plan.file
      requires remote.pageSize >= 1 && remote.store == map[] && remote.joined == None
      ensures Valid() && sys == Init && this.plan == plan && this.file == file && this.remote == remote
    {
      this.plan, this.file, this.remote := plan, file, remote;
      rs, saved := ResumeState("", "", "", 0), ResumeState("", "", "", 0);
      request, listed, sys := [], {}, Init;
    }

    method Persist()
      modifies this`saved
      ensures saved == rs
    {
      saved := rs;
    }

    /** What the client knows once a session is open: every part the server lists, once, and their bytes. */
    ghost predicate Opened(completed: seq<Part>, uploaded: int)
      reads this, remote
    {
      && sys.running && sys.done == Tags(remote.store)
      && Names(completed, sys.done) && IsListing(NumbersOf(completed), sys.done.Keys)
      && uploaded == BytesOf(|plan.file|, plan.p, sys.done.Keys, plan.n)
    }

    /** Asks the server which parts of the recorded session it holds. A token that needs no renewal is a
        renewal that succeeds. `lost` when, after the first token, the answer was that the session is missing. */
    method Relist(ghost more: nat) returns (fault: Option<Fault>, lost: bool, completed: seq<Part>, uploaded: int)
      requires Valid() && !sys.running
      modifies this`sys, remote`script
      ensures Valid() && Reaches(plan, old(sys), sys)
      ensures fault.Some? ==> sys == old(sys)
      ensures fault.None? ==> Opened(completed, uploaded)
      ensures LeftOf(Rest(old(remote.script)), remote.script)
      ensures lost ==> fault.Some? && Heard(Rest(old(remote.script)), remote.script, Missing)
      ensures Granted(old(remote.script), plan.n + 2 + more) ==> fault.None? && Granted(remote.script, more)
      ensures Renewed(old(remote.script), plan.n + 1) ==> fault.None?
    {
      hide Granted, Renewed, LeftOf, Heard, Inv, Reaches, Do;
      ReachesSelf(plan, sys);
      fault, lost, completed, uploaded := None, false, [], 0;
      ghost var s0 := remote.script;
      GrantedNext(s0, plan.n + 1 + more);
      if Renewed(s0, plan.n + 1) {
        RenewedSteps(s0, plan.n + 1);
      }
      HeardNext(Rest(s0), Missing);
      StoredAreNumbered(plan, sys);
      var r := remote.Call();
      if !r.Ok? { return Some(FaultOf(r)), false, [], 0; }
      fault, completed := ListAndRenew(more);
      lost := fault == Some(Missing);
      if fault.None? {
        ListingNames(completed, remote.store);
        uploaded := Tally(completed);
        RelistIsStep(plan, sys);
        sys := sys.(running := true, done := Tags(sys.store));
      }
    }

    /** Lists the parts, renewing the credentials once. */
    method ListAndRenew(ghost more: nat) returns (fault: Option<Fault>, completed: seq<Part>)
      requires remote.pageSize >= 1 && remote.store.Keys <= Numbers(plan.n)
      modifies remote`script
      ensures fault.None? ==> IsListing(NumbersOf(completed), remote.store.Keys) && TagsMatch(remote.store, completed)
      ensures LeftOf(old(remote.script), remote.script)
      ensures fault == Some(Missing) ==> Heard(old(remote.script), remote.script, Missing)
      ensures Granted(old(remote.script), plan.n + 1 + more) ==> fault.None? && Granted(remote.script, more)
      ensures var s := old(remote.script);
        Says(Next(s), Credential) && Next(Rest(s)).Accept? && Granted(Rest(Rest(s)), plan.n + 1) ==> fault.None?
    {
      hide Granted, LeftOf, Heard, IsListing, TagsMatch;
      ghost var s0 := remote.script;
      fault, completed := ListUploadedParts(remote, plan.n, more);
      if fault == Some(Credential) {
        ghost var s1 := remote.script;
        HeardNext(s1, Missing);
        var r := remote.Call();
        HeardThen(s0, s1, remote.script, Missing);
        if !r.Ok? { return Some(FaultOf(r)), []; }
        ghost var s2 := remote.script;
        fault, completed := ListUploadedParts(remote, plan.n, 0);
        HeardThen(s0, s2, remote.script, Missing);
      }
    }

    /** Opens a new session; the server drops what the old one held. */
    method Initiate(ghost more: nat) returns (fault: Option<Fault>)
      requires Valid() && !sys.running
      modifies this`sys, remote`script, remote`store
      ensures Valid() && Reaches(plan, old(sys), sys)
      ensures fault.Some? ==> sys == old(sys)
      ensures fault.None? ==> Opened([], 0) && remote.store == map[]
      ensures |old(remote.script)| - |remote.script| <= 4 && LeftOf(old(remote.script), remote.script)
      ensures Granted(old(remote.script), 2 + more) ==> fault.None? && Granted(remote.script, more)
      ensures Renewed(old(remote.script), 1) ==> fault.None?
    {
      hide Granted, Renewed, Inv, Reaches;
      ReachesSelf(plan, sys);
      GrantedNext(remote.script, 1 + more);
      GrantedNext(Rest(remote.script), more);
      RenewedOne(remote.script);
      var r := remote.Call();
      if !r.Ok? { return Some(FaultOf(r)); }
      r := remote.Call();
      if r == Failed(Credential) {
        r := remote.Call();
        if !r.Ok? { return Some(FaultOf(r)); }
        r := remote.Call();
      }
      if !r.Ok? { return Some(FaultOf(r)); }
      fault := None;
      remote.Reset();
      BytesOfNone(|plan.file|, plan.p, plan.n);
      OtherIsStep(plan, old(sys), sys, Restart);
      sys := Do(plan, sys, Restart).value;
      assert sys.done.Keys == {};
    }

    /** Finds the parts an earlier run left on the server, or opens the session `newID`. */
    method Open(bucket: string, target: string, newID: string, ghost more: nat)
      returns (fault: Option<Fault>, resumed: bool, completed: seq<Part>, uploaded: int)
      requires Valid() && !sys.running && newID != ""
      modifies this, remote
      ensures Valid() && Reaches(plan, old(sys), sys)
      ensures fault.Some? ==> sys == old(sys)
      ensures fault.None? ==> Opened(completed, uploaded)
      ensures fault.None? ==> saved == rs && rs.uploadID != "" && rs.uploadedBytes == uploaded
      ensures fault.None? ==> rs.bucket == bucket && rs.target == target && listed == sys.done.Keys
      ensures fault.Some? ==> rs == old(rs) && saved == old(saved)
      ensures fault.None? && resumed ==> rs.uploadID == old(rs).uploadID && remote.store == old(remote.store)
      ensures fault.None? && !resumed ==> rs.uploadID == newID && completed == [] && remote.store == map[]
      ensures resumed ==> Recorded(old(rs), bucket, target)
      ensures fault.None? ==> listed == if resumed then old(remote.store).Keys else {}
      ensures fault.None? && !resumed && Recorded(old(rs), bucket, target)
        ==> Heard(Rest(old(remote.script)), remote.script, Missing)
      ensures fault.Some? ==> remote.store == old(remote.store)
      ensures Granted(old(remote.script), plan.n + 2 + more) ==> fault.None? && Granted(remote.script, more)
    {
      hide Inv, Reaches, Granted, LeftOf, Heard, Renewed;
      resumed := false;
      GrantedLess(remote.script, 2 + more, plan.n + 2 + more);
      ReachesSelf(plan, sys);
      fault, completed, uploaded := None, [], 0;
      var uploadID := "";
      if rs.uploadID != "" && rs.bucket == bucket && rs.target == target {
        var lost;
        fault, lost, completed, uploaded := Relist(more);
        if fault.None? {
          uploadID := rs.uploadID;
          resumed := true;
        } else if !lost {
          return;
        }
      }
      ghost var s1 := remote.script;
      if uploadID == "" {
        fault := Initiate(more);
        if fault.Some? { return; }
        if Recorded(old(rs), bucket, target) {
          HeardThen(Rest(old(remote.script)), s1, remote.script, Missing);
        }
        uploadID, completed, uploaded := newID, [], 0;
      }
      listed := sys.done.Keys;
      rs := ResumeState(uploadID, bucket, target, uploaded);
      Persist();
    }

    /** Adds up the sizes the server lists. */
    method Tally(parts: seq<Part>) returns (bytes: int)
      requires Valid() && TagsMatch(remote.store, parts) && Distinct(NumbersOf(parts))
      ensures bytes == BytesOf(|plan.file|, plan.p, SetOf(NumbersOf(parts)), plan.n)
    {
      bytes := 0;
      BytesOfNone(|plan.file|, plan.p, plan.n);
      assert SetOf(NumbersOf(parts[..0])) == {};
      for k := 0 to |parts|
        invariant bytes == BytesOf(|plan.file|, plan.p, SetOf(NumbersOf(parts[..k])), plan.n)
      {
        var part := parts[k];
        NumbersOfMore(parts[..k], part);
        assert parts[..k + 1] == parts[..k] + [part];
        assert part.number !in NumbersOf(parts[..k]) by {
          assert forall j :: 0 <= j < k ==> NumbersOf(parts)[j] != NumbersOf(parts)[k];
        }
        BytesOfInsert(|plan.file|, plan.p, SetOf(NumbersOf(parts[..k])), plan.n, part.number);
        bytes := bytes + |remote.store[part.number].data|;
      }
      assert parts[..|parts|] == parts;
    }

    /** Sends part `i`, at most three times, seeking to its start before each try. */
    method UploadPartWithRetry(i: nat, offset: nat, len: nat, ghost more: nat) returns (r: Reply)
      requires Valid() && sys.running
      requires 1 <= i <= plan.n && i !in sys.done && Numbers(i - 1) <= sys.done.Keys
      requires offset == (i - 1) * plan.p && len == PartLen(|plan.file|, plan.p, i)
      modifies file, remote`script, remote`store, this`sys
      ensures Valid() && Reaches(plan, old(sys), sys)
      ensures sys == old(sys).(store := sys.store, done := if r.Ok? then old(sys.done)[i := r.tag] else old(sys.done))
      ensures !r.Exists? && old(remote.store).Keys <= remote.store.Keys
      ensures |old(remote.script)| - |remote.script| <= 3
      ensures AcceptedWithin(old(remote.script), 3) ==> r.Ok?
      ensures !Says(Next(old(remote.script)), Retryable) ==> remote.script == Rest(old(remote.script))
      ensures Says(Next(old(remote.script)), Credential) ==> r == Failed(Credential)
      ensures Granted(old(remote.script), 1 + more) ==> r.Ok? && Granted(remote.script, more)
    {
      hide Granted, IsPrefix, Inv, Reaches, Cut, Count, Window, Slice, Numbers;
      ReachesSelf(plan, sys);
      WindowIsPart(plan, i);
      GrantedNext(remote.script, more);
      r := Failed(Fatal);
      var attempt := 1;
      while attempt <= ATTEMPTS
        invariant 1 <= attempt <= ATTEMPTS + 1 <= 4
        invariant Valid() && Reaches(plan, old(sys), sys)
        invariant sys == old(sys).(store := sys.store) && old(remote.store).Keys <= remote.store.Keys
        invariant r.Failed?
        invariant |old(remote.script)| - |remote.script| <= attempt - 1
        invariant attempt == 1 ==> remote.script == old(remote.script)
        invariant attempt > 1 ==> Says(Next(old(remote.script)), Retryable)
        invariant AcceptedWithin(old(remote.script), 3) ==> AcceptedWithin(remote.script, 4 - attempt)
        invariant Granted(old(remote.script), 1 + more) ==> attempt == 1
      {
        file.SeekStart(offset);
        var data := file.Deliver(len);
        ghost var fate := Next(remote.script);
        PutKeepsPrefix(plan, sys, fate, i);
        r := remote.Put(i, data);
        if r.Exists? {
          r := Failed(Fatal);
        }
        PutIsStep(plan, old(sys), sys, fate, i, fate.Accept?);
        sys := AfterPut(plan, sys, fate, i, fate.Accept?);
        if r.Ok? || r.fault != Retryable {
          return;
        }
        attempt := attempt + 1;
      }
    }

    /** One part of the loop: a fresh token, the tries, and one more round after a credential error. */
    method SendPart(i: nat, offset: nat, len: nat, ghost more: nat) returns (r: Reply)
      requires Valid() && sys.running
      requires 1 <= i <= plan.n && i !in sys.done && Numbers(i - 1) <= sys.done.Keys
      requires offset == (i - 1) * plan.p && len == PartLen(|plan.file|, plan.p, i)
      modifies file, remote`script, remote`store, this`sys
      ensures Valid() && Reaches(plan, old(sys), sys)
      ensures sys == old(sys).(store := sys.store, done := if r.Ok? then old(sys.done)[i := r.tag] else old(sys.done))
      ensures !r.Exists? && old(remote.store).Keys <= remote.store.Keys
      ensures Granted(old(remote.script), 2 + more) ==> r.Ok? && Granted(remote.script, more)
      ensures Renewed(old(remote.script), 1) ==> r.Ok?
    {
      hide Inv, Reaches, Granted, IsPrefix, Numbers, Renewed, AcceptedWithin;
      ReachesSelf(plan, sys);
      GrantedNext(remote.script, 1 + more);
      RenewedOne(remote.script);
      AcceptedAtOnce(Rest(Rest(Rest(remote.script))));
      r := remote.Call();
      if !r.Ok? { return Failed(FaultOf(r)); }
      r := UploadPartWithRetry(i, offset, len, more);
      if r == Failed(Credential) {
        r := remote.Call();
        if r.Ok? {
          ghost var was := sys;
          r := UploadPartWithRetry(i, offset, len, more);
          ReachesTrans(plan, old(sys), was, sys);
        } else {
          r := Failed(FaultOf(r));
        }
      }
    }

    /** Asks the server to join the listed parts, renewing the credentials once. */
    method CompleteMultipart(completed: seq<Part>) returns (r: Reply)
      requires Valid() && sys.running && sys.done.Keys == Numbers(plan.n) && Names(completed, sys.done)
      modifies this, remote`script, remote`joined
      ensures Valid() && Reaches(plan, old(sys), sys)
      ensures sys == old(sys).(joined := sys.joined) && rs == old(rs) && listed == old(listed)
      ensures request == completed && TagsMatch(remote.store, request)
      ensures r.Ok? ==> remote.joined == Some(plan.file)
      ensures Granted(old(remote.script), 2) ==> r.Ok?
      ensures Renewed(old(remote.script), 1) ==> r.Ok?
    {
      RenewedOne(remote.script);
      hide Granted, Renewed, Inv, Reaches, Sufficient, Joined, IsPrefix, Names, TagsMatch, NumbersOf, Numbers, SetOf, Says, Tags;
      ReadyToJoin(plan, sys, completed);
      GrantedNext(remote.script, 1);
      GrantedNext(Rest(remote.script), 0);
      request := completed;
      r := remote.Call();
      if !r.Ok? { return; }
      r := AskToJoin(completed);
      if r == Failed(Credential) {
        r := remote.Call();
        if r.Ok? {
          ghost var was := sys;
          r := AskToJoin(completed);
          ReachesTrans(plan, old(sys), was, sys);
        }
      }
    }

    /** One request to join the listed parts. */
    method AskToJoin(completed: seq<Part>) returns (r: Reply)
      requires Valid() && sys.running && sys.done.Keys == Numbers(plan.n) && Names(completed, sys.done)
      modifies this`sys, remote`script, remote`joined
      ensures Valid() && Reaches(plan, old(sys), sys) && sys == old(sys).(joined := sys.joined)
      ensures r == ServeCall(Next(old(remote.script))) && remote.script == Rest(old(remote.script))
      ensures r.Ok? ==> remote.joined == Some(plan.file)
    {
      hide Inv, Reaches, Joined, Names, TagsMatch, NumbersOf, Numbers;
      ReadyToJoin(plan, sys, completed);
      r := remote.CompleteListed(completed);
      sys := sys.(joined := remote.joined);
    }

    /** ossMultipartUpload, for whatever state an earlier run saved and whatever the network does. */
    method MultipartUpload(bucket: string, target: string, newID: string)
      returns (r: Reply, ghost resumed: bool, ghost afterOpen: seq<Fate>)
      requires Valid() && !sys.running && newID != ""
      modifies this, file, remote
      ensures Valid() && !sys.running && Reaches(plan, old(sys), sys)
      ensures r.Ok? ==> remote.joined == Some(plan.file) && rs.uploadedBytes == |plan.file|
      ensures r.Ok? ==> NumbersOf(request) == Listed(listed) + Absent(listed, plan.n)
      ensures r.Ok? ==> SetOf(NumbersOf(request)) == Numbers(plan.n) && Distinct(NumbersOf(request))
      ensures r.Ok? ==> TagsMatch(remote.store, request)
      ensures r.Ok? ==> Ascending(NumbersOf(request))
      ensures Granted(old(remote.script), plan.n + 4 + 2 * Lacking(Found(old(saved), bucket, target, old(remote.store).Keys), plan.n)) ==> r.Ok?
      ensures resumed ==> Recorded(old(saved), bucket, target)
      ensures r.Ok? && resumed ==> rs.uploadID == old(saved).uploadID && listed == old(remote.store).Keys
      ensures !resumed && Recorded(old(saved), bucket, target) && (r.Ok? || !(old(remote.store).Keys <= remote.store.Keys))
        ==> Heard(Rest(old(remote.script)), afterOpen, Missing)
    {
      hide Inv, Reaches, Names, Progress, NumbersOf, Absent, Ascending, Listed, IsPrefix, Distinct, Granted, Lacking, Heard, Opened, TagsMatch, Numbers;
      ghost var need := 2 * Lacking(Found(saved, bucket, target, remote.store.Keys), plan.n) + 2;
      rs := saved;
      var fault, completed, uploaded;
      fault, resumed, completed, uploaded := Open(bucket, target, newID, need);
      afterOpen := remote.script;
      NeverHeard(old(remote.script), plan.n + 2 + need, afterOpen, Missing);
      if fault.Some? { return Failed(fault.value), resumed, afterOpen; }
      ghost var s0, s1 := old(sys), sys;
      ghost var was := sys;
      r := SendAndComplete(completed, uploaded);
      ReachesTrans(plan, old(sys), was, sys);
      StopIsStep(plan, old(sys), sys);
      sys := sys.(running := false, done := map[]);
    }

    /** What follows once a session is open: send the missing parts, then ask for the join. */
    method SendAndComplete(first: seq<Part>, uploaded: int) returns (r: Reply)
      requires Valid() && Opened(first, uploaded) && rs.uploadedBytes == uploaded && listed == sys.done.Keys
      modifies this, file, remote`script, remote`store, remote`joined
      ensures Valid() && sys.running && Reaches(plan, old(sys), sys) && listed == old(listed)
      ensures rs.uploadID == old(rs).uploadID && old(remote.store).Keys <= remote.store.Keys
      ensures r.Ok? ==> remote.joined == Some(plan.file) && rs.uploadedBytes == |plan.file|
      ensures r.Ok? ==> NumbersOf(request) == Listed(listed) + Absent(listed, plan.n)
      ensures r.Ok? ==> SetOf(NumbersOf(request)) == Numbers(plan.n) && Distinct(NumbersOf(request))
      ensures r.Ok? ==> TagsMatch(remote.store, request) && Ascending(NumbersOf(request))
      ensures Granted(old(remote.script), 2 * Lacking(listed, plan.n) + 2) ==> r.Ok?
    {
      hide Inv, Reaches, Names, Progress, NumbersOf, Absent, Ascending, Listed, IsPrefix, Distinct, Granted, IsListing, TagsMatch, BytesOf, Lacking;
      StoredAreNumbered(plan, sys);
      file.Reopen();
      var completed;
      r, completed := SendParts(first, uploaded, 2);
      if r.Ok? {
        ProgressEnd(plan, first, listed, completed, sys.done, rs.uploadedBytes);
        ghost var was := sys;
        r := CompleteMultipart(completed);
        ReachesTrans(plan, old(sys), was, sys);
      }
    }

    /** Sends the next part, adds it to the request, and saves after every fifth part and the last one. */
    method SendNext(i: nat, offset: nat, len: nat, completed: seq<Part>, uploadedBytes: int,
                    ghost first: seq<Part>, ghost have: set<nat>, ghost more: nat)
      returns (r: Reply, completed': seq<Part>)
      requires Valid() && sys.running && 1 <= i <= plan.n && i !in sys.done
      requires offset == (i - 1) * plan.p && len == PartLen(|plan.file|, plan.p, i)
      requires Progress(plan, first, have, i - 1, completed, sys.done, uploadedBytes) && rs.uploadedBytes == uploadedBytes
      modifies this, file, remote`script, remote`store
      ensures Valid() && Reaches(plan, old(sys), sys) && sys.running
      ensures request == old(request) && listed == old(listed) && rs.uploadID == old(rs).uploadID
      ensures old(remote.store).Keys <= remote.store.Keys
      ensures r.Ok? ==> sys.done.Keys == old(sys.done).Keys + {i} && rs.uploadedBytes == uploadedBytes + len
      ensures r.Ok? ==> Progress(plan, first, have, i, completed', sys.done, rs.uploadedBytes)
      ensures r.Ok? && (i % 5 == 0 || i == plan.n) ==> saved == rs
      ensures Granted(old(remote.script), 2 + more) ==> r.Ok? && Granted(remote.script, more)
    {
      hide Inv, Reaches, Progress, Granted, IsPrefix, Cut, Numbers, PartLen;
      completed' := completed;
      PartLenIsCut(|plan.file|, plan.p, i);
      ProgressHas(plan, first, have, i - 1, completed, sys.done, uploadedBytes);
      r := SendPart(i, offset, len, more);
      if !r.Ok? { return; }
      ProgressSend(plan, first, have, Part(i, r.tag), completed, old(sys.done), uploadedBytes);
      completed' := completed + [Part(i, r.tag)];
      rs := rs.(uploadedBytes := uploadedBytes + len);
      if i == plan.n || i % PERSIST_EVERY == 0 {
        Persist();
      }
    }

    /** The part loop. */
    method SendParts(completed: seq<Part>, uploaded: int, ghost more: nat)
      returns (r: Reply, completed': seq<Part>)
      requires Valid() && sys.running && Names(completed, sys.done)
      requires uploaded == BytesOf(|plan.file|, plan.p, sys.done.Keys, plan.n)
      requires rs.uploadedBytes == uploaded
      modifies this, file, remote`script, remote`store
      ensures Valid() && Reaches(plan, old(sys), sys) && sys.running
      ensures request == old(request) && listed == old(listed) && rs.uploadID == old(rs).uploadID
      ensures old(remote.store).Keys <= remote.store.Keys
      ensures r.Ok? ==> Progress(plan, completed, old(sys.done.Keys), plan.n, completed', sys.done, rs.uploadedBytes)
      ensures Granted(old(remote.script), 2 * Lacking(old(sys.done.Keys), plan.n) + more) ==> r.Ok? && Granted(remote.script, more)
    {
      hide Inv, Reaches, Progress, Granted, IsPrefix, Lacking;
      ReachesSelf(plan, sys);
      completed' := completed;
      var fileSize, partSize := |plan.file|, plan.p;
      var completedSet := SetOf(NumbersOf(completed));
      ghost var have := completedSet;
      ghost var all := Lacking(have, plan.n);
      NoneLacking(have);
      var uploadedBytes := uploaded;
      var partNumber, offset := 1, 0;
      CountCovers(fileSize, partSize);
      ProgressStart(plan, completed, sys.done, uploaded);
      while offset < fileSize
        invariant 1 <= partNumber <= plan.n + 1 && offset == Cut(fileSize, partSize, partNumber - 1)
        invariant Valid() && Reaches(plan, old(sys), sys) && sys.running
        invariant request == old(request) && listed == old(listed) && rs.uploadID == old(rs).uploadID
        invariant old(remote.store).Keys <= remote.store.Keys
        invariant completedSet == sys.done.Keys && rs.uploadedBytes == uploadedBytes
        invariant Progress(plan, completed, have, partNumber - 1, completed', sys.done, uploadedBytes)
        invariant Lacking(have, partNumber - 1) <= all
        invariant Granted(old(remote.script), 2 * all + more)
          ==> Granted(remote.script, 2 * (all - Lacking(have, partNumber - 1)) + more)
        decreases plan.n + 1 - partNumber
      {
        var currentPartSize := partSize;
        if fileSize - offset < currentPartSize {
          currentPartSize := fileSize - offset;
        }
        PartLenIsCut(fileSize, partSize, partNumber);
        ProgressHas(plan, completed, have, partNumber - 1, completed', sys.done, uploadedBytes);
        LackingNext(have, partNumber);
        LackingLess(have, partNumber, plan.n);
        ghost var after := 2 * (all - Lacking(have, partNumber)) + more;
        if partNumber in completedSet {
          file.SeekCurrent(currentPartSize);
          ProgressSkip(plan, completed, have, partNumber, completed', sys.done, uploadedBytes);
        } else {
          ghost var was := sys;
          r, completed' := SendNext(partNumber, offset, currentPartSize, completed', uploadedBytes, completed, have, after);
          ReachesTrans(plan, old(sys), was, sys);
          if !r.Ok? { return; }
          completedSet := completedSet + {partNumber};
          uploadedBytes := uploadedBytes + currentPartSize;
        }
        offset := offset + currentPartSize;
        partNumber := partNumber + 1;
      }
      r := Ok("sent");
    }
  }

  /** A session is recorded for this bucket and object. */
  predicate Recorded(state: ResumeState, bucket: string, target: string) {
    state.uploadID != "" && state.bucket == bucket && state.target == target
  }

  /** The parts a run finds: those the server holds when a session is recorded for the object, else none. */
  ghost function Found(rs: ResumeState, bucket: string, target: string, held: set<nat>): set<nat> {
    if Recorded(rs, bucket, target) then held else {}
  }

  lemma NeverHeard(script: seq<Fate>, k: nat, after: seq<Fate>, why: Fault)
    ensures Granted(script, k) ==> !Heard(Rest(script), after, why)
  {
  }

  lemma AcceptedAtOnce(script: seq<Fate>)
    ensures Next(script).Accept? ==> AcceptedWithin(script, 3)
  {
  }

  /** A part stored after everything before it keeps the server's parts a prefix. */
  lemma PutKeepsPrefix(plan: Plan, s: Sys, fate: Fate, i: nat)
    requires Inv(plan, s) && i >= 1 && Numbers(i - 1) <= s.done.Keys && IsPrefix(s.store.Keys)
    ensures IsPrefix(ServePut(s.store, fate, i, plan.Part(i)).0.Keys)
  {
    PrefixGrows(s.store.Keys, i);
    assert s.store[i := Held(plan.Part(i), "tag")].Keys == s.store.Keys + {i};
  }

  lemma ReadyToJoin(plan: Plan, s: Sys, completed: seq<Part>)
    requires plan.Valid() && Inv(plan, s) && s.running && s.done.Keys == Numbers(plan.n) && Names(completed, s.done)
    ensures TagsMatch(s.store, completed) && Joined(s.store, SetOf(NumbersOf(completed))) == plan.file
    ensures Reaches(plan, s, s)
    ensures var t := s.(joined := Some(plan.file)); Inv(plan, t) && Reaches(plan, s, t)
  {
    hide Inv, Reaches, Sufficient, Joined, Names, TagsMatch, NumbersOf, Numbers;
    ReachesSelf(plan, s);
    NamesMatch(plan, s, completed);
    AllAreSufficient(plan, s.done.Keys);
    CompleteIsStep(plan, s, s);
  }

  lemma RelistIsStep(plan: Plan, s: Sys)
    requires plan.Valid() && Inv(plan, s) && !s.running
    ensures var t := s.(running := true, done := Tags(s.store));
      Inv(plan, t) && Reaches(plan, s, t)
  {
    ReachesSelf(plan, s);
    OtherIsStep(plan, s, s, Step.Relist);
  }

  lemma StopIsStep(plan: Plan, origin: Sys, s: Sys)
    requires plan.Valid() && Inv(plan, s) && Reaches(plan, origin, s)
    ensures var t := s.(running := false, done := map[]);
      Inv(plan, t) && Reaches(plan, origin, t)
  {
    OtherIsStep(plan, origin, s, Stop);
  }

  lemma StoredAreNumbered(plan: Plan, s: Sys)
    requires Inv(plan, s)
    ensures s.store.Keys <= Numbers(plan.n) && s.done.Keys <= Numbers(plan.n)
  {
  }

  /** After parts `1..k` were skipped or sent: the request list so far, and the byte count. */
  ghost predicate Progress(plan: Plan, first: seq<Part>, have: set<nat>, k: nat,
                           completed: seq<Part>, done: map<nat, Tag>, uploaded: int) {
    && Names(completed, done)
    && done.Keys == have + Numbers(k)
    && NumbersOf(completed) == NumbersOf(first) + Absent(have, k)
    && uploaded == BytesOf(|plan.file|, plan.p, done.Keys, plan.n)
  }

  lemma ProgressStart(plan: Plan, first: seq<Part>, done: map<nat, Tag>, uploaded: int)
    requires Names(first, done) && uploaded == BytesOf(|plan.file|, plan.p, done.Keys, plan.n)
    ensures Progress(plan, first, SetOf(NumbersOf(first)), 0, first, done, uploaded)
  {
    assert NumbersOf(first) + [] == NumbersOf(first);
  }

  lemma ProgressHas(plan: Plan, first: seq<Part>, have: set<nat>, k: nat,
                    completed: seq<Part>, done: map<nat, Tag>, uploaded: int)
    requires Progress(plan, first, have, k, completed, done, uploaded)
    ensures Numbers(k) <= done.Keys && (k + 1 in done <==> k + 1 in have)
  {
  }

  lemma ProgressSkip(plan: Plan, first: seq<Part>, have: set<nat>, k: nat,
                     completed: seq<Part>, done: map<nat, Tag>, uploaded: int)
    requires k >= 1 && Progress(plan, first, have, k - 1, completed, done, uploaded) && k in done
    ensures Progress(plan, first, have, k, completed, done, uploaded)
  {
    assert k in have;
    assert done.Keys == have + Numbers(k);
    assert Absent(have, k) == Absent(have, k - 1) + [];
  }

  lemma ProgressSend(plan: Plan, first: seq<Part>, have: set<nat>, part: Part,
                     completed: seq<Part>, done: map<nat, Tag>, uploaded: int)
    requires 1 <= part.number <= plan.n && part.number !in done
    requires Progress(plan, first, have, part.number - 1, completed, done, uploaded)
    ensures var k := part.number;
            Progress(plan, first, have, k, completed + [part], done[k := part.tag],
                     uploaded + Cut(|plan.file|, plan.p, k) - Cut(|plan.file|, plan.p, k - 1))
  {
    hide Names, NumbersOf, Absent, BytesOf, Cut, SetOf;
    var k := part.number;
    AbsentMore(have, k);
    NamesMore(completed, done, part);
    NumbersOfMore(completed, part);
    BytesOfInsert(|plan.file|, plan.p, done.Keys, plan.n, k);
    assert done[k := part.tag].Keys == done.Keys + {k} == have + Numbers(k);
    assert NumbersOf(first) + (Absent(have, k - 1) + [k]) == NumbersOf(first) + Absent(have, k - 1) + [k];
  }

  lemma AbsentMore(have: set<nat>, k: nat)
    requires k >= 1 && k !in have
    ensures Absent(have, k) == Absent(have, k - 1) + [k]
  {
  }

  /** What the loop leaves behind, from what the session found at its start. */
  lemma ProgressEnd(plan: Plan, first: seq<Part>, have: set<nat>,
                    completed: seq<Part>, done: map<nat, Tag>, uploaded: int)
    requires Progress(plan, first, have, plan.n, completed, done, uploaded)
    requires plan.Valid() && have <= Numbers(plan.n) && IsListing(NumbersOf(first), have)
    ensures Names(completed, done) && done.Keys == Numbers(plan.n) && uploaded == |plan.file|
    ensures SetOf(NumbersOf(completed)) == Numbers(plan.n) && Distinct(NumbersOf(completed))
    ensures NumbersOf(completed) == Listed(have) + Absent(have, plan.n)
    ensures IsPrefix(have) ==> Ascending(NumbersOf(completed))
  {
    AscendingUnique(NumbersOf(first), Listed(have));
    RequestAscendingIffPrefix(have, plan.n);
    assert Names(completed, done);
    hide NumbersOf, Absent, Ascending;
    assert done.Keys == Numbers(plan.n);
    BytesOfBounds(|plan.file|, plan.p, done.Keys, plan.n);
  }

  lemma ListingNames(parts: seq<Part>, store: map<nat, Held>)
    requires IsListing(NumbersOf(parts), store.Keys) && TagsMatch(store, parts)
    ensures Names(parts, Tags(store))
  {
  }

  /** Asks for one page: `rest` is what the server lists above the marker. */
  method ListNextPage(remote: Remote, marker: nat, parts: seq<Part>, ghost rest: seq<nat>, ghost more: nat)
    returns (fault: Option<Fault>, parts': seq<Part>, marker': nat, truncated: bool, ghost rest': seq<nat>)
    requires remote.pageSize >= 1 && TagsMatch(remote.store, parts) && IsListing(rest, Above(remote.store, marker))
    modifies remote`script
    ensures fault.None? ==> TagsMatch(remote.store, parts') && NumbersOf(parts') + rest' == NumbersOf(parts) + rest
    ensures fault.None? ==> IsListing(rest', Above(remote.store, marker'))
    ensures fault.None? ==> if truncated then |rest'| < |rest| else rest' == []
    ensures remote.script == Rest(old(remote.script))
    ensures fault.Some? ==> Says(Next(old(remote.script)), fault.value) || fault.value == Fatal
    ensures Says(Next(old(remote.script)), Credential) ==> fault == Some(Credential)
    ensures Granted(old(remote.script), 1 + more) ==> fault.None? && Granted(remote.script, more)
  {
    hide Ascending, Granted, TagsMatch;
    fault, parts', marker', rest' := None, parts, marker, rest;
    GrantedNext(remote.script, more);
    var r, page;
    ghost var above;
    r, page, truncated, above := remote.ListPage(marker);
    if !r.Ok? {
      return Some(FaultOf(r)), [], marker, truncated, rest;
    }
    AscendingUnique(above, rest);
    assert forall k :: 0 <= k < |page| ==> page[k] == rest[k] && page[k] in rest;
    var entries := Entries(remote.store, page);
    PageJoins(remote.store, parts, entries, rest, page);
    parts' := parts + entries;
    if page != [] {
      NextPage(remote.store, marker, rest, page);
      marker', rest' := page[|page| - 1], rest[|page|..];
    }
  }

  /** Asks for every page of the server's listing. */
  method ListUploadedParts(remote: Remote, ghost n: nat, ghost more: nat) returns (fault: Option<Fault>, parts: seq<Part>)
    requires remote.pageSize >= 1 && remote.store.Keys <= Numbers(n)
    modifies remote`script
    ensures fault.None? ==> IsListing(NumbersOf(parts), remote.store.Keys) && TagsMatch(remote.store, parts)
    ensures Granted(old(remote.script), n + 1 + more) ==> fault.None? && Granted(remote.script, more)
    ensures LeftOf(old(remote.script), remote.script)
    ensures fault == Some(Missing) ==> Heard(old(remote.script), remote.script, Missing)
    ensures Says(Next(old(remote.script)), Credential)
      ==> fault == Some(Credential) && remote.script == Rest(old(remote.script))
  {
    hide Granted, IsListing, TagsMatch, NumbersOf, LeftOf, Heard;
    HeardNext(remote.script, Missing);
    fault, parts := None, [];
    var marker := 0;
    var truncated := true;
    ghost var rest := ListingStart(remote.store, n);
    GrantedLess(remote.script, |rest| + 1 + more, n + 1 + more);
    while truncated
      invariant TagsMatch(remote.store, parts) && IsListing(rest, Above(remote.store, marker))
      invariant IsListing(NumbersOf(parts) + rest, remote.store.Keys)
      invariant fault.None? && (!truncated ==> rest == [])
      invariant LeftOf(old(remote.script), remote.script)
      invariant (remote.script == old(remote.script) && truncated) || !Says(Next(old(remote.script)), Credential)
      invariant Granted(old(remote.script), n + 1 + more)
        ==> Granted(remote.script, if truncated then |rest| + 1 + more else more)
      decreases |rest|, truncated
    {
      ghost var before := |rest|;
      ghost var s1 := remote.script;
      HeardNext(s1, Missing);
      fault, parts, marker, truncated, rest := ListNextPage(remote, marker, parts, rest, before + more);
      HeardThen(old(remote.script), s1, remote.script, Missing);
      if fault.Some? {
        return fault, [];
      }
      GrantedLess(remote.script, if truncated then |rest| + 1 + more else more, before + more);
    }
    assert NumbersOf(parts) + [] == NumbersOf(parts);
  }

  lemma ListingStart(store: map<nat, Held>, n: nat) returns (rest: seq<nat>)
    requires store.Keys <= Numbers(n)
    ensures IsListing(rest, Above(store, 0)) && |rest| <= n
    ensures TagsMatch(store, []) && IsListing(NumbersOf([]) + rest, store.Keys)
  {
    assert Above(store, 0) == store.Keys;
    rest := Listed(Above(store, 0));
    assert NumbersOf([]) + rest == rest;
    ListingLength(rest, n);
  }

  lemma ListingLength(rest: seq<nat>, n: nat)
    requires Ascending(rest) && forall x :: x in rest ==> x in Numbers(n)
    ensures |rest| <= n
  {
    if rest != [] {
      AscendingLast(rest);
      assert rest[|rest| - 1] in rest;
    }
  }

  lemma {:induction false} AscendingLast(xs: seq<nat>)
    requires Ascending(xs) && xs != [] && forall x :: x in xs ==> x >= 1
    ensures xs[|xs| - 1] >= |xs|
  {
    assert xs[0] in xs;
    if |xs| > 1 {
      assert forall x :: x in xs[..|xs| - 1] ==> x in xs;
      AscendingLast(xs[..|xs| - 1]);
    }
  }

  function Entries(store: map<nat, Held>, page: seq<nat>): (es: seq<Part>)
    requires forall k :: 0 <= k < |page| ==> page[k] in store
    ensures NumbersOf(es) == page && TagsMatch(store, es)
  {
    seq(|page|, k requires 0 <= k < |page| => Part(page[k], store[page[k]].tag))
  }

  lemma PageJoins(store: map<nat, Held>, parts: seq<Part>, more: seq<Part>, rest: seq<nat>, page: seq<nat>)
    requires page <= rest && NumbersOf(more) == page
    requires TagsMatch(store, parts) && TagsMatch(store, more)
    ensures NumbersOf(parts + more) + rest[|page|..] == NumbersOf(parts) + rest
    ensures TagsMatch(store, parts + more)
    ensures page == [] ==> rest[|page|..] == rest
  {
    assert NumbersOf(parts + more) == NumbersOf(parts) + page;
  }

  lemma SuffixAbove(xs: seq<nat>, k: nat)
    requires Ascending(xs) && 1 <= k <= |xs|
    ensures Ascending(xs[k..])
    ensures forall x: nat :: x in xs[k..] <==> x in xs && x > xs[k - 1]
  {
    var ys := xs[k..];
    forall x: nat | x in ys
      ensures x in xs && x > xs[k - 1]
    {
      var j :| 0 <= j < |ys| && ys[j] == x;
      assert xs[k + j] == x;
    }
    forall x: nat | x in xs && x > xs[k - 1]
      ensures x in ys
    {
      var j :| 0 <= j < |xs| && xs[j] == x;
      assert k <= j;
      assert ys[j - k] == x;
    }
  }

  /** What follows a page is the listing above the last number on it. */
  lemma NextPage(store: map<nat, Held>, marker: nat, rest: seq<nat>, page: seq<nat>)
    requires IsListing(rest, Above(store, marker)) && page <= rest && page != []
    ensures IsListing(rest[|page|..], Above(store, page[|page| - 1]))
  {
    var last := page[|page| - 1];
    assert last == rest[|page| - 1] && last in rest;
    SuffixAbove(rest, |page|);
    forall x: nat
      ensures x in rest[|page|..] <==> x in Above(store, last)
    {
      assert x in rest[|page|..] <==> x in rest && x > last;
      assert x in rest <==> x in store && x > marker;
    }
  }
}
