/**
 What the drivers act on: a local file with a cursor, and a server whose behaviour on each request is
 decided by a script of fates. Every result about a driver is for every script.
 */
module Transfer {
  import opened Parts
  import opened Resumable
  import opened Sorted

  /** Why a request failed, as far as the drivers distinguish. */
  datatype Fault = Cancelled | Credential | Retryable | Missing | Fatal

  /** What happens to one request: it works, it works but the reply is lost, it is refused, or the server
      answers that it already has the part. */
  datatype Fate = Accept(tag: Tag) | Lose(tag: Tag, why: Fault) | Refuse(why: Fault) | AlreadyThere

  datatype Reply = Ok(tag: Tag) | Exists(tag: Tag) | Failed(fault: Fault)

  function FaultOf(r: Reply): Fault {
    if r.Failed? then r.fault else Fatal
  }

  datatype Part = Part(number: nat, tag: Tag)

  /** A script that has run out stops the process. */
  function Next(script: seq<Fate>): Fate {
    if script == [] then Refuse(Cancelled) else script[0]
  }

  function Rest(script: seq<Fate>): seq<Fate> {
    if script == [] then [] else script[1..]
  }

  /** A script that accepts every request and lasts for at least `k` of them. */
  ghost predicate Granted(script: seq<Fate>, k: nat) {
    |script| >= k && forall i :: 0 <= i < |script| ==> script[i].Accept?
  }

  lemma GrantedNext(script: seq<Fate>, k: nat)
    ensures Granted(script, k + 1) ==> Next(script).Accept? && Granted(Rest(script), k)
  {
  }

  lemma GrantedLess(script: seq<Fate>, j: nat, k: nat)
    requires j <= k
    ensures Granted(script, k) ==> Granted(script, j)
  {
  }

  /** The request fails for this reason, with or without effect on the server. */
  predicate Says(fate: Fate, why: Fault) {
    (fate.Lose? || fate.Refuse?) && fate.why == why
  }

  /** A request, one that reports expired credentials, their renewal, and then at least `k` accepted ones. */
  ghost predicate Renewed(script: seq<Fate>, k: nat) {
    |script| >= 3 && script[0].Accept? && Says(script[1], Credential) && script[2].Accept? && Granted(script[3..], k)
  }

  lemma RenewedSteps(script: seq<Fate>, k: nat)
    requires Renewed(script, k)
    ensures Next(script).Accept? && Says(Next(Rest(script)), Credential) && Next(Rest(Rest(script))).Accept?
    ensures Granted(Rest(Rest(Rest(script))), k)
  {
    hide Granted;
    assert Rest(Rest(Rest(script))) == script[3..];
  }

  lemma RenewedOne(script: seq<Fate>)
    ensures Renewed(script, 1) ==>
      && Next(script).Accept? && Says(Next(Rest(script)), Credential) && Next(Rest(Rest(script))).Accept?
      && Next(Rest(Rest(Rest(script)))).Accept?
  {
    if Renewed(script, 1) {
      RenewedSteps(script, 1);
    }
  }

  /** One of the first `tries` requests is accepted, and those before it fail for a reason worth a retry. */
  predicate AcceptedWithin(script: seq<Fate>, tries: nat) {
    tries > 0 && (Next(script).Accept? || (Says(Next(script), Retryable) && AcceptedWithin(Rest(script), tries - 1)))
  }

  /** What is left of a script once some requests have been made. */
  ghost predicate LeftOf(before: seq<Fate>, after: seq<Fate>) {
    |after| <= |before| && after == before[|before| - |after|..]
  }

  /** One of the requests made in between was answered with this reason. */
  ghost predicate Heard(before: seq<Fate>, after: seq<Fate>, why: Fault) {
    exists k :: 0 <= k < |before| - |after| && Says(before[k], why)
  }

  lemma HeardNext(script: seq<Fate>, why: Fault)
    ensures LeftOf(script, script) && LeftOf(script, Rest(script))
    ensures why != Cancelled && Says(Next(script), why) ==> Heard(script, Rest(script), why)
  {
  }

  lemma HeardThen(a: seq<Fate>, b: seq<Fate>, c: seq<Fate>, why: Fault)
    requires LeftOf(a, b) && LeftOf(b, c)
    ensures LeftOf(a, c)
    ensures Heard(a, b, why) || Heard(b, c, why) ==> Heard(a, c, why)
  {
    var shift := |a| - |b|;
    assert forall k :: 0 <= k < |b| ==> b[k] == a[shift + k];
    if Heard(b, c, why) {
      var k :| 0 <= k < |b| - |c| && Says(b[k], why);
      assert Says(a[shift + k], why);
    }
  }

  /** The server's side of storing a part. */
  function ServePut(store: map<nat, Held>, fate: Fate, i: nat, data: seq<byte>): (map<nat, Held>, Reply) {
    match fate
    case Accept(tag) => (store[i := Held(data, tag)], Ok(tag))
    case Lose(tag, why) => (store[i := Held(data, tag)], Failed(why))
    case Refuse(why) => (store, Failed(why))
    case AlreadyThere => (store, if i in store then Exists(store[i].tag) else Failed(Fatal))
  }

  function ServeCall(fate: Fate): Reply {
    match fate
    case Accept(tag) => Ok(tag)
    case Lose(_, why) => Failed(why)
    case Refuse(why) => Failed(why)
    case AlreadyThere => Failed(Fatal)
  }

  /** The numbered parts joined in ascending number. */
  function Joined(store: map<nat, Held>, numbers: set<nat>): seq<byte>
    requires numbers <= store.Keys
  {
    if numbers == {} then [] else
      var m := Max(numbers);
      Joined(store, numbers - {m}) + store[m].data
  }

  /** Joining the held parts in ascending number is assembling them one number after the other. */
  lemma {:induction false} JoinedIsAssemble(store: map<nat, Held>, numbers: set<nat>, n: nat)
    requires numbers <= store.Keys && numbers <= Numbers(n)
    requires forall k :: 1 <= k <= n ==> (k in numbers <==> k in store)
    ensures Joined(store, numbers) == Assemble(store, n)
  {
    if n == 0 {
      assert numbers == {};
    } else if n in numbers {
      assert Max(numbers) == n;
      JoinedIsAssemble(store, numbers - {n}, n - 1);
    } else {
      JoinedIsAssemble(store, numbers, n - 1);
      assert Assemble(store, n) == Assemble(store, n - 1) + [];
    }
  }

  function Above(store: map<nat, Held>, marker: nat): (s: set<nat>) {
    set i | i in store && i > marker
  }

  function FirstOf(xs: seq<nat>, k: nat): (page: seq<nat>)
    ensures page <= xs && |page| == AtMost(|xs|, k)
  {
    if |xs| <= k then xs else xs[..k]
  }

  function NumbersOf(list: seq<Part>): (xs: seq<nat>)
    ensures |xs| == |list| && forall k :: 0 <= k < |xs| ==> xs[k] == list[k].number
  {
    seq(|list|, k requires 0 <= k < |list| => list[k].number)
  }

  /** Every listed tag is the one the server gave that part. */
  predicate TagsMatch(store: map<nat, Held>, list: seq<Part>) {
    forall k :: 0 <= k < |list| ==> list[k].number in store && store[list[k].number].tag == list[k].tag
  }

  ghost predicate Distinct(xs: seq<nat>) {
    forall j, k :: 0 <= j < k < |xs| ==> xs[j] != xs[k]
  }

  /** A list that names each of the parts in `m` exactly once, with its tag. */
  ghost predicate Names(list: seq<Part>, m: map<nat, Tag>) {
    && (forall k :: 0 <= k < |list| ==> list[k].number in m && m[list[k].number] == list[k].tag)
    && Distinct(NumbersOf(list))
    && SetOf(NumbersOf(list)) == m.Keys
  }

  lemma NumbersOfMore(list: seq<Part>, part: Part)
    ensures NumbersOf(list + [part]) == NumbersOf(list) + [part.number]
    ensures SetOf(NumbersOf(list + [part])) == SetOf(NumbersOf(list)) + {part.number}
  {
  }

  lemma NamesMore(list: seq<Part>, m: map<nat, Tag>, part: Part)
    requires Names(list, m) && part.number !in m
    ensures Names(list + [part], m[part.number := part.tag])
  {
    NumbersOfMore(list, part);
    var xs := NumbersOf(list);
    assert forall k :: 0 <= k < |xs| ==> xs[k] in m;
  }

  lemma ConsecutiveNumbers(xs: seq<nat>)
    requires forall k :: 0 <= k < |xs| ==> xs[k] == k + 1
    ensures Distinct(xs) && SetOf(xs) == Numbers(|xs|)
  {
    forall i: nat
      ensures i in SetOf(xs) <==> i in Numbers(|xs|)
    {
      if i in Numbers(|xs|) {
        assert xs[i - 1] == i;
      }
    }
  }

  /** A list of the client's done parts carries the server's own tags. */
  lemma NamesMatch(plan: Plan, s: Sys, list: seq<Part>)
    requires Inv(plan, s) && Names(list, s.done)
    ensures TagsMatch(s.store, list) && SetOf(NumbersOf(list)) == s.done.Keys
  {
  }

  /** The request lists parts 1, 2, ..., n in that order, each under the server's own tag for that slice. */
  ghost predicate WholeFile(plan: Plan, store: map<nat, Held>, request: seq<Part>) {
    && |request| == plan.n
    && forall i :: 1 <= i <= plan.n ==>
         i in store && request[i - 1] == Part(i, store[i].tag) && store[i].data == plan.Part(i)
  }

  /** What a request to store part `i` does to the system; the client may count it only when accepted. */
  ghost function AfterPut(plan: Plan, s: Sys, fate: Fate, i: nat, counted: bool): (t: Sys)
    requires i >= 1 && (counted ==> fate.Accept?)
  {
    var store := ServePut(s.store, fate, i, plan.Part(i)).0;
    s.(store := store, done := if counted then s.done[i := fate.tag] else s.done)
  }

  /** Whatever the server does with a part the client does not count as done, it is a step of the system. */
  lemma PutIsStep(plan: Plan, origin: Sys, s: Sys, fate: Fate, i: nat, counted: bool)
    requires plan.Valid() && Inv(plan, s) && Reaches(plan, origin, s)
    requires s.running && 1 <= i <= plan.n && i !in s.done && (counted ==> fate.Accept?)
    ensures Inv(plan, AfterPut(plan, s, fate, i, counted))
    ensures Reaches(plan, origin, AfterPut(plan, s, fate, i, counted))
  {
    if fate.Accept? || fate.Lose? {
      var step := Step.Put(i, fate.tag, counted);
      assert Do(plan, s, step) == Some(AfterPut(plan, s, fate, i, counted));
      ReachesStep(plan, origin, s, step);
      StepKeepsInv(plan, s, step);
    } else {
      assert AfterPut(plan, s, fate, i, counted) == s;
    }
  }

  /** Saving the resume state, stopping and resuming are steps of the system. */
  lemma OtherIsStep(plan: Plan, origin: Sys, s: Sys, step: Step)
    requires plan.Valid() && Inv(plan, s) && Reaches(plan, origin, s) && Do(plan, s, step).Some?
    ensures Inv(plan, Do(plan, s, step).value) && Reaches(plan, origin, Do(plan, s, step).value)
  {
    ReachesStep(plan, origin, s, step);
    StepKeepsInv(plan, s, step);
  }

  /** Once every part with bytes is held, the server's join is the file. */
  lemma JoinIsFile(plan: Plan, s: Sys)
    requires plan.Valid() && Inv(plan, s) && Sufficient(plan, s.done.Keys)
    ensures Joined(s.store, s.store.Keys) == Assemble(s.store, plan.n) == plan.file
    ensures s.done.Keys == Numbers(plan.n) ==> s.store.Keys == s.done.Keys
  {
    assert forall i :: i in s.store ==> i in Numbers(plan.n);
    JoinedIsAssemble(s.store, s.store.Keys, plan.n);
    AssembleIsFile(plan, s.store, plan.n);
  }

  lemma AllAreSufficient(plan: Plan, done: set<nat>)
    requires Numbers(plan.n) <= done
    ensures Sufficient(plan, done)
  {
    assert forall i: nat :: 1 <= i <= plan.n ==> i in Numbers(plan.n);
  }

  /** Completing is a step of the system and gives the file. */
  lemma CompleteIsStep(plan: Plan, origin: Sys, s: Sys)
    requires plan.Valid() && Inv(plan, s) && Reaches(plan, origin, s)
    requires s.running && Sufficient(plan, s.done.Keys)
    ensures Joined(s.store, s.store.Keys) == plan.file
    ensures s.done.Keys == Numbers(plan.n) ==> s.store.Keys == s.done.Keys
    ensures var t := s.(joined := Some(plan.file)); Inv(plan, t) && Reaches(plan, origin, t)
  {
    hide Inv, Sufficient, Joined, Assemble;
    JoinIsFile(plan, s);
    OtherIsStep(plan, origin, s, Complete);
  }

  /** Reading at a part's start delivers that part. */
  lemma WindowIsPart(plan: Plan, i: nat)
    requires plan.Valid() && 1 <= i <= Count(|plan.file|, plan.p)
    ensures PartLen(|plan.file|, plan.p, i) > 0
    ensures (i - 1) * plan.p + PartLen(|plan.file|, plan.p, i) == Cut(|plan.file|, plan.p, i)
    ensures Window(plan.file, (i - 1) * plan.p, PartLen(|plan.file|, plan.p, i)) == plan.Part(i)
  {
    PartLenIsCut(|plan.file|, plan.p, i);
  }

  function AtMost(n: nat, limit: nat): nat {
    if n <= limit then n else limit
  }

  /** Up to `n` bytes from offset `at`. */
  function Window(content: seq<byte>, at: nat, n: nat): seq<byte> {
    content[AtMost(at, |content|)..AtMost(at + n, |content|)]
  }

  /** A file handle. */
  class LocalFile {
    const content: seq<byte>
    var pos: nat

    constructor (content: seq<byte>)
      ensures this.content == content && pos == 0
    {
      this.content := content;
      pos := 0;
    }

    /** Each run opens the file anew. */
    method Reopen()
      modifies this
      ensures pos == 0
    {
      pos := 0;
    }

    method SeekStart(offset: nat)
      modifies this
      ensures pos == offset
    {
      pos := offset;
    }

    method SeekCurrent(n: nat)
      modifies this
      ensures pos == old(pos) + n
    {
      pos := pos + n;
    }

    /** Fills a buffer of `n` bytes or fails. */
    method ReadFull(n: nat) returns (r: Option<seq<byte>>)
      modifies this
      ensures old(pos) + n <= |content| ==> r == Some(content[old(pos)..old(pos) + n]) && pos == old(pos) + n
      ensures old(pos) + n > |content| ==> r.None?
    {
      if pos + n <= |content| {
        r := Some(content[pos..pos + n]);
        pos := pos + n;
      } else {
        r := None;
      }
    }

    /** The bytes a reader limited to `n` delivers. A request may fail part-way through its body, so the
        cursor ends anywhere up to `n` further on. */
    method Deliver(n: nat) returns (data: seq<byte>)
      modifies this
      ensures data == Window(content, old(pos), n)
      ensures old(pos) <= pos <= old(pos) + n
    {
      data := Window(content, pos, n);
      var used: nat :| used <= n;
      pos := pos + used;
    }
  }

  /** Filling a buffer of a part's length from the part's start gives the part. */
  method ReadPart(file: LocalFile, plan: Plan, i: nat, len: nat) returns (r: Option<seq<byte>>)
    requires i >= 1 && file.content == plan.file && file.pos == Cut(|plan.file|, plan.p, i - 1)
    requires len == Cut(|plan.file|, plan.p, i) - Cut(|plan.file|, plan.p, i - 1)
    modifies file
    ensures r == Some(plan.Part(i)) && file.pos == Cut(|plan.file|, plan.p, i)
  {
    r := file.ReadFull(len);
  }

  class Remote {
    var store: map<nat, Held>
    var joined: Option<seq<byte>>
    var script: seq<Fate>
    const pageSize: nat

    constructor (script: seq<Fate>, pageSize: nat)
      ensures store == map[] && joined == None && this.script == script && this.pageSize == pageSize
    {
      store, joined, this.script, this.pageSize := map[], None, script, pageSize;
    }

    /** A request that touches no part: a token, a session, a callback. */
    method Call() returns (r: Reply)
      modifies this`script
      ensures r == ServeCall(Next(old(script))) && script == Rest(old(script))
    {
      r := ServeCall(Next(script));
      script := Rest(script);
    }

    method Put(i: nat, data: seq<byte>) returns (r: Reply)
      modifies this`script, this`store
      ensures (store, r) == ServePut(old(store), Next(old(script)), i, data) && script == Rest(old(script))
    {
      var served := ServePut(store, Next(script), i, data);
      store, r, script := served.0, served.1, Rest(script);
    }

    /** One page of the listing of stored parts: the numbers above `marker`, and whether more follow. */
    method ListPage(marker: nat) 
      returns (r: Reply, page: seq<nat>, truncated: bool, ghost rest: seq<nat>)
      modifies this`script
      ensures script == Rest(old(script)) && r == ServeCall(Next(old(script)))
      ensures IsListing(rest, Above(store, marker)) && page == FirstOf(rest, pageSize)
      ensures truncated <==> |page| < |rest|
    {
      r := ServeCall(Next(script));
      script := Rest(script);
      var above := Listed(Above(store, marker));
      rest := above;
      page := FirstOf(above, pageSize);
      truncated := |page| < |above|;
    }

    /** A new upload session: the parts of the old one are gone. */
    method Reset()
      modifies this`store
      ensures store == map[]
    {
      store := map[];
    }

    /** The server joins the listed parts when every tag is right. */
    method CompleteListed(list: seq<Part>) returns (r: Reply)
      modifies this`script, this`joined
      ensures script == Rest(old(script))
      ensures TagsMatch(store, list) ==> r == ServeCall(Next(old(script)))
      ensures r.Ok? ==> TagsMatch(store, list) && joined == Some(Joined(store, SetOf(NumbersOf(list))))
      ensures !TagsMatch(store, list) ==> r.Failed? && joined == old(joined)
      ensures joined == old(joined) || (TagsMatch(store, list) && joined == Some(Joined(store, SetOf(NumbersOf(list)))))
    {
      var fate := Next(script);
      script := Rest(script);
      r := ServeCall(fate);
      if TagsMatch(store, list) {
        if !fate.Refuse? && !fate.AlreadyThere? {
          joined := Some(Joined(store, SetOf(NumbersOf(list))));
        }
      } else {
        r := Failed(Fatal);
      }
    }

    /** A whole object sent in one request. */
    method PutObject(data: seq<byte>) returns (r: Reply)
      modifies this`script, this`joined
      ensures script == Rest(old(script)) && r == ServeCall(Next(old(script)))
      ensures joined == if Next(old(script)).Accept? || Next(old(script)).Lose? then Some(data) else old(joined)
    {
      var fate := Next(script);
      script := Rest(script);
      r := ServeCall(fate);
      if fate.Accept? || fate.Lose? {
        joined := Some(data);
      }
    }

    /** The server joins everything it holds. */
    method CompleteAll() returns (r: Reply)
      modifies this`script, this`joined
      ensures script == Rest(old(script)) && r == ServeCall(Next(old(script)))
      ensures r.Ok? ==> joined == Some(Joined(store, store.Keys))
      ensures joined == old(joined) || joined == Some(Joined(store, store.Keys))
    {
      var fate := Next(script);
      script := Rest(script);
      r := ServeCall(fate);
      if !fate.Refuse? && !fate.AlreadyThere? {
        joined := Some(Joined(store, store.Keys));
      }
    }
  }
}
