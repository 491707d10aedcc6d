/**
 The resumable upload every driver implements, as one state machine: a server that holds parts, a client
 that knows which parts were acknowledged, and a saved snapshot that survives a stop.
 The drivers' loops are proved to take only steps of this machine.
 */
module Resumable {
  import opened Parts

  /** A server's name for a stored part. Never empty: a reply without one is an error to the client. */
  type Tag = s: string | s != "" witness "tag"

  datatype Held = Held(data: seq<byte>, tag: Tag)

  /** A file, the part size, and the number of parts that cover it. */
  datatype Plan = Plan(file: seq<byte>, p: nat, n: nat) {
    ghost predicate Valid() {
      p > 0 && Cut(|file|, p, n) == |file|
    }
    function Part(i: nat): seq<byte>
      requires i >= 1
    {
      Slice(file, p, i)
    }
  }

  /** `store`, `joined`: the server. `done`: what the running client will skip. `saved`: its snapshot. */
  datatype Sys = Sys(store: map<nat, Held>, done: map<nat, Tag>, saved: map<nat, Tag>,
                     joined: Option<seq<byte>>, running: bool)

  datatype Step =
    | Put(i: nat, tag: Tag, acked: bool)  // stored by the server; the reply may be lost
    | Learn(i: nat)                       // the server says it already holds the part
    | Persist
    | Stop
    | Resume                              // reload the snapshot
    | Relist                              // reload from the server's own listing
    | Restart                             // a new upload session: the server's parts are gone
    | Complete                            // every part with bytes is done
    | PutWhole                            // a small file sent in one request

  const Init := Sys(map[], map[], map[], None, false)

  /** The server joins the parts it holds, in ascending part number. */
  function Assemble(store: map<nat, Held>, k: nat): (whole: seq<byte>) {
    if k == 0 then [] else Assemble(store, k - 1) + if k in store then store[k].data else []
  }

  function Tags(store: map<nat, Held>): (m: map<nat, Tag>)
    ensures m.Keys == store.Keys
    ensures forall i :: i in m ==> m[i] == store[i].tag
  {
    map i | i in store :: store[i].tag
  }

  /** Every part that has bytes is among these. */
  predicate Sufficient(plan: Plan, done: set<nat>) {
    forall i: nat :: 1 <= i <= plan.n && |plan.Part(i)| > 0 ==> i in done
  }

  /** One step, or nothing when the step is not allowed. */
  function Do(plan: Plan, s: Sys, step: Step): Option<Sys> {
    match step
    case Put(i, tag, acked) =>
      if s.running && 1 <= i <= plan.n && i !in s.done then
        Some(s.(store := s.store[i := Held(plan.Part(i), tag)],
                done := if acked then s.done[i := tag] else s.done))
      else None
    case Learn(i) =>
      if s.running && i in s.store then Some(s.(done := s.done[i := s.store[i].tag])) else None
    case Persist => if s.running then Some(s.(saved := s.done)) else None
    case Stop => Some(s.(running := false, done := map[]))
    case Resume => if s.running then None else Some(s.(running := true, done := s.saved))
    case Relist => if s.running then None else Some(s.(running := true, done := Tags(s.store)))
    case Restart => if s.running then None else Some(s.(running := true, store := map[], done := map[], saved := map[]))
    case Complete =>
      if s.running && Sufficient(plan, s.done.Keys) then Some(s.(joined := Some(Assemble(s.store, plan.n)))) else None
    case PutWhole => if plan.n <= 1 then Some(s.(joined := Some(plan.file))) else None
  }

  function Run(plan: Plan, s: Sys, steps: seq<Step>): Option<Sys> {
    if steps == [] then Some(s) else
      match Run(plan, s, steps[..|steps| - 1])
      case None => None
      case Some(m) => Do(plan, m, steps[|steps| - 1])
  }

  ghost predicate Reaches(plan: Plan, s: Sys, t: Sys) {
    exists steps :: Run(plan, s, steps) == Some(t)
  }

  lemma ReachesSelf(plan: Plan, s: Sys)
    ensures Reaches(plan, s, s)
  {
    assert Run(plan, s, []) == Some(s);
  }

  lemma RunSnoc(plan: Plan, s: Sys, steps: seq<Step>, step: Step)
    ensures Run(plan, s, steps + [step])
         == match Run(plan, s, steps) case None => None case Some(m) => Do(plan, m, step)
  {
    assert (steps + [step])[..|steps|] == steps;
  }

  lemma ReachesStep(plan: Plan, s: Sys, t: Sys, step: Step)
    requires Reaches(plan, s, t) && Do(plan, t, step).Some?
    ensures Reaches(plan, s, Do(plan, t, step).value)
  {
    var steps :| Run(plan, s, steps) == Some(t);
    RunSnoc(plan, s, steps, step);
  }

  lemma {:induction false} RunConcat(plan: Plan, s: Sys, a: seq<Step>, m: Sys, b: seq<Step>)
    requires Run(plan, s, a) == Some(m)
    ensures Run(plan, s, a + b) == Run(plan, m, b)
  {
    if b == [] {
      assert a + b == a;
    } else {
      var b' := b[..|b| - 1];
      RunConcat(plan, s, a, m, b');
      RunSnoc(plan, s, a + b', b[|b| - 1]);
      assert a + b == a + b' + [b[|b| - 1]];
    }
  }

  /** Runs compose, so a chain of driver sessions is one run. */
  lemma ReachesTrans(plan: Plan, s: Sys, m: Sys, t: Sys)
    requires Reaches(plan, s, m) && Reaches(plan, m, t)
    ensures Reaches(plan, s, t)
  {
    var a :| Run(plan, s, a) == Some(m);
    var b :| Run(plan, m, b) == Some(t);
    RunConcat(plan, s, a, m, b);
  }

  /** Whatever happened so far: the server holds true slices, and what the client or its snapshot counts
      as done is on the server under the tag they remember. */
  ghost predicate Inv(plan: Plan, s: Sys) {
    && (forall i :: i in s.store ==> 1 <= i <= plan.n && s.store[i].data == plan.Part(i))
    && (forall i :: i in s.done ==> i in s.store && s.done[i] == s.store[i].tag)
    && (forall i :: i in s.saved ==> i in s.store && s.saved[i] == s.store[i].tag)
    && (s.running ==> s.saved.Keys <= s.done.Keys)
    && (s.joined.Some? ==> s.joined.value == plan.file)
  }

  lemma {:induction false} AssembleIsFile(plan: Plan, store: map<nat, Held>, k: nat)
    requires forall i :: 1 <= i <= k && i in store ==> store[i].data == plan.Part(i)
    requires forall i :: 1 <= i <= k && |plan.Part(i)| > 0 ==> i in store
    ensures Assemble(store, k) == plan.file[..Cut(|plan.file|, plan.p, k)]
  {
    hide Slice, Cut, Assemble;
    if k == 0 {
      AssembleNone(plan, store);
    } else {
      AssembleIsFile(plan, store, k - 1);
      PartExtends(plan, k);
      AssembleMore(store, k);
    }
  }

  lemma AssembleNone(plan: Plan, store: map<nat, Held>)
    ensures Assemble(store, 0) == plan.file[..Cut(|plan.file|, plan.p, 0)]
  {
  }

  lemma AssembleMore(store: map<nat, Held>, k: nat)
    requires k >= 1
    ensures Assemble(store, k) == Assemble(store, k - 1) + if k in store then store[k].data else []
  {
  }

  lemma PartExtends(plan: Plan, k: nat)
    requires k >= 1
    ensures plan.file[..Cut(|plan.file|, plan.p, k - 1)] + plan.Part(k) == plan.file[..Cut(|plan.file|, plan.p, k)]
    ensures |plan.Part(k)| == 0 ==>
      plan.file[..Cut(|plan.file|, plan.p, k - 1)] + [] == plan.file[..Cut(|plan.file|, plan.p, k)]
  {
    CutStep(|plan.file|, plan.p, k - 1);
  }

  lemma StepKeepsInv(plan: Plan, s: Sys, step: Step)
    requires plan.Valid() && Inv(plan, s) && Do(plan, s, step).Some?
    ensures Inv(plan, Do(plan, s, step).value)
  {
    hide Slice, Assemble, Cut;
    match step
    case Complete =>
      AssembledWhole(plan, s.store, s.done.Keys);
    case Put(i, tag, acked) =>
      PutKeepsInv(plan, s, i, tag, acked);
    case _ =>
  }

  lemma AssembledWhole(plan: Plan, store: map<nat, Held>, done: set<nat>)
    requires plan.Valid() && Sufficient(plan, done) && done <= store.Keys
    requires forall i :: i in store ==> 1 <= i <= plan.n && store[i].data == plan.Part(i)
    ensures Assemble(store, plan.n) == plan.file
  {
    AssembleIsFile(plan, store, plan.n);
    assert plan.file[..|plan.file|] == plan.file;
  }

  lemma PutKeepsInv(plan: Plan, s: Sys, i: nat, tag: Tag, acked: bool)
    requires Inv(plan, s) && s.running && 1 <= i <= plan.n && i !in s.done
    ensures Inv(plan, s.(store := s.store[i := Held(plan.Part(i), tag)],
                         done := if acked then s.done[i := tag] else s.done))
  {
    hide Slice;
  }

  lemma {:induction false} RunKeepsInv(plan: Plan, s: Sys, steps: seq<Step>)
    requires plan.Valid() && Inv(plan, s) && Run(plan, s, steps).Some?
    ensures Inv(plan, Run(plan, s, steps).value)
  {
    if steps != [] {
      var shorter := steps[..|steps| - 1];
      RunKeepsInv(plan, s, shorter);
      StepKeepsInv(plan, Run(plan, s, shorter).value, steps[|steps| - 1]);
    }
  }

  lemma ReachesKeepsInv(plan: Plan, s: Sys, t: Sys)
    requires plan.Valid() && Inv(plan, s) && Reaches(plan, s, t)
    ensures Inv(plan, t)
  {
    var steps :| Run(plan, s, steps) == Some(t);
    RunKeepsInv(plan, s, steps);
  }

  /** Safety over whole runs: whatever was sent, lost, retried, saved, stopped, resumed or restarted,
      a finished upload is the file. */
  lemma JoinedIsFile(plan: Plan, steps: seq<Step>)
    requires plan.Valid() && Run(plan, Init, steps).Some?
    ensures var s := Run(plan, Init, steps).value;
            s.joined.Some? ==> s.joined.value == plan.file
  {
    RunKeepsInv(plan, Init, steps);
  }

  /** A snapshot never loses acknowledged work: from any reachable stopped state, resuming skips exactly
      the saved parts, and the server really holds each one. */
  lemma ResumeSkipsOnlyStored(plan: Plan, s: Sys)
    requires plan.Valid() && Reaches(plan, Init, s) && !s.running
    ensures var r := Do(plan, s, Resume).value;
            && r.done == s.saved
            && forall i :: i in r.done ==> i >= 1 && i in r.store && r.store[i] == Held(plan.Part(i), r.done[i])
  {
    ReachesKeepsInv(plan, Init, s);
  }
}
