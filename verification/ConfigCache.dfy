/**
 internal/adminauth/service.go: the settings cache of the admin service, loaded on first use and written
 through. Readers and writers interleave at the points where the lock is not held.
 */
module ConfigCache {
  import opened Parts

  datatype Write = Write(key: string, value: string)

  /** `loading` is what a reader has read from the repository while it holds the lock; `pending` are the
      writes stored in the repository and not yet applied to the cache. */
  datatype State = State(repo: map<string, string>, loaded: bool, values: map<string, string>,
                         loading: Option<map<string, string>>, pending: multiset<Write>)

  datatype Step =
    | BeginLoad          // configValue takes the lock and reads the repository
    | FailLoad           // or fails to, and lets go of the lock
    | FinishLoad         // configValue keeps what it read and lets go of the lock
    | Store(w: Write)    // setConfig writes the repository, without the lock
    | Apply(w: Write)    // setConfig takes the lock and updates a loaded cache

  predicate Enabled(s: State, step: Step) {
    match step
    case BeginLoad => s.loading.None? && !s.loaded
    case FailLoad => s.loading.Some?
    case FinishLoad => s.loading.Some?
    case Store(_) => true
    case Apply(w) => s.loading.None? && w in s.pending
  }

  function Do(s: State, step: Step): State
    requires Enabled(s, step)
  {
    match step
    case BeginLoad => s.(loading := Some(s.repo))
    case FailLoad => s.(loading := None)
    case FinishLoad => s.(values := s.loading.value, loaded := true, loading := None)
    case Store(w) => s.(repo := s.repo[w.key := w.value], pending := s.pending + multiset{w})
    case Apply(w) =>
      s.(values := if s.loaded then s.values[w.key := w.value] else s.values, pending := s.pending - multiset{w})
  }

  function Initial(repo: map<string, string>): State {
    State(repo, false, map[], None, multiset{})
  }

  function Keys(pending: multiset<Write>): set<string> {
    set w | w in pending :: w.key
  }

  /** A key is not written again before its last write has been applied. */
  predicate Serialised(s: State, step: Step) {
    step.Store? ==> step.w.key !in Keys(s.pending)
  }

  /** A run of steps, each possible where it stands. */
  ghost predicate IsRun(s: State, steps: seq<Step>, serialised: bool)
    decreases |steps|
  {
    steps == [] ||
    (Enabled(s, steps[0]) && (serialised ==> Serialised(s, steps[0])) && IsRun(Do(s, steps[0]), steps[1..], serialised))
  }

  function Run(s: State, steps: seq<Step>): State
    requires IsRun(s, steps, false)
    decreases |steps|
  {
    if steps == [] then s else Run(Do(s, steps[0]), steps[1..])
  }

  /** The copies hold the repository except at the keys being written, and those carry its values. */
  ghost predicate Inv(s: State) {
    && (s.loading.Some? ==> !s.loaded && s.loading.value - Keys(s.pending) == s.repo - Keys(s.pending))
    && (s.loaded ==> s.values - Keys(s.pending) == s.repo - Keys(s.pending))
    && CarryRepo(s.pending, s.repo)
  }

  /** Each write in flight carries what the repository holds, and no key is in flight twice. */
  ghost predicate CarryRepo(pending: multiset<Write>, repo: map<string, string>) {
    forall w :: w in pending ==> w.key in repo && repo[w.key] == w.value && pending[w] == 1
  }

  lemma StepKeepsInv(s: State, step: Step)
    requires Inv(s) && Enabled(s, step) && Serialised(s, step)
    ensures Inv(Do(s, step))
  {
    hide CarryRepo, Keys;
    match step
    case Store(w) =>
      StoreKeeps(s.pending, s.repo, w);
      KeysMore(s.pending, w);
      if s.loading.Some? {
        StillAgree(s.loading.value, s.repo, Keys(s.pending), w);
      }
      if s.loaded {
        StillAgree(s.values, s.repo, Keys(s.pending), w);
      }
    case Apply(w) =>
      ApplyKeeps(s.pending, s.repo, w);
      if s.loaded {
        AgreeAgain(s.values, s.repo, Keys(s.pending), w);
      }
    case _ =>
  }

  lemma StoreKeeps(pending: multiset<Write>, repo: map<string, string>, w: Write)
    requires CarryRepo(pending, repo) && w.key !in Keys(pending)
    ensures CarryRepo(pending + multiset{w}, repo[w.key := w.value])
  {
    forall v | v in pending
      ensures v.key != w.key
    {
      assert v.key in Keys(pending);
    }
  }

  lemma KeysMore(pending: multiset<Write>, w: Write)
    ensures Keys(pending + multiset{w}) == Keys(pending) + {w.key}
  {
    assert w in pending + multiset{w};
    forall v | v in pending
      ensures v in pending + multiset{w}
    {
    }
  }

  lemma ApplyKeeps(pending: multiset<Write>, repo: map<string, string>, w: Write)
    requires CarryRepo(pending, repo) && w in pending
    ensures CarryRepo(pending - multiset{w}, repo)
    ensures Keys(pending - multiset{w}) == Keys(pending) - {w.key}
    ensures w.key in Keys(pending) && w.key in repo && repo[w.key] == w.value
  {
    var rest := pending - multiset{w};
    assert forall v :: v in rest <==> v in pending && v != w;
  }

  lemma StillAgree(m: map<string, string>, repo: map<string, string>, keys: set<string>, w: Write)
    requires m - keys == repo - keys
    ensures m - (keys + {w.key}) == repo[w.key := w.value] - (keys + {w.key})
  {
    AgreeAt(m, repo, keys);
  }

  lemma AgreeAgain(m: map<string, string>, repo: map<string, string>, keys: set<string>, w: Write)
    requires m - keys == repo - keys && w.key in keys && w.key in repo && repo[w.key] == w.value
    ensures m[w.key := w.value] - (keys - {w.key}) == repo - (keys - {w.key})
  {
    AgreeAt(m, repo, keys);
  }

  lemma AgreeAt(m: map<string, string>, repo: map<string, string>, keys: set<string>)
    requires m - keys == repo - keys
    ensures forall k :: k !in keys ==> (k in m <==> k in repo)
    ensures forall k :: k !in keys && k in repo ==> m[k] == repo[k]
  {
    forall k | k !in keys
      ensures k in m <==> k in repo
      ensures k in repo ==> m[k] == repo[k]
    {
      assert k in m <==> k in m - keys;
      assert k in repo <==> k in repo - keys;
      assert k in repo ==> (repo - keys)[k] == repo[k] && (m - keys)[k] == m[k];
    }
  }

  /** Over every serialised run a loaded cache is the repository except at the keys being written, and the
      whole repository when none is. */
  lemma {:induction false} RunKeepsInv(s: State, steps: seq<Step>)
    requires Inv(s) && IsRun(s, steps, true)
    ensures IsRun(s, steps, false) && Inv(Run(s, steps))
    decreases |steps|
  {
    hide Inv, Do, Enabled, Serialised;
    if steps != [] {
      StepKeepsInv(s, steps[0]);
      RunKeepsInv(Do(s, steps[0]), steps[1..]);
    }
  }

  lemma LoadedIsRepository(repo: map<string, string>, steps: seq<Step>)
    requires IsRun(Initial(repo), steps, true)
    ensures IsRun(Initial(repo), steps, false)
    ensures var s := Run(Initial(repo), steps);
      s.loaded ==> s.values - Keys(s.pending) == s.repo - Keys(s.pending) && (s.pending == multiset{} ==> s.values == s.repo)
  {
    RunKeepsInv(Initial(repo), steps);
    hide Run, IsRun;
    var s := Run(Initial(repo), steps);
    if s.pending == multiset{} {
      assert Keys(s.pending) == {};
      assert s.values - {} == s.values && s.repo - {} == s.repo;
    }
  }

  /** What the cache becomes when the writes are applied in this order. */
  function Drained(values: map<string, string>, order: seq<Write>): map<string, string> {
    if order == [] then values else
      var last := order[|order| - 1];
      Drained(values, order[..|order| - 1])[last.key := last.value]
  }

  /** No further write is begun. */
  ghost predicate NoStores(steps: seq<Step>) {
    forall k :: 0 <= k < |steps| ==> !steps[k].Store?
  }

  /** However the writes in flight and the readers interleave, when the last write has been applied a loaded
      cache is the repository. */
  ghost predicate AlwaysSettles(s: State) {
    forall steps :: IsRun(s, steps, false) && NoStores(steps) ==> Settled(Run(s, steps))
  }

  ghost predicate Settled(s: State) {
    s.pending == multiset{} && s.loaded ==> s.values == s.repo
  }

  /** The copies agree with the repository outside the keys in flight, and each write in flight carries the
      repository's value. */
  ghost predicate Agreeable(s: State) {
    && (s.loading.Some? ==> s.loading.value - Keys(s.pending) == s.repo - Keys(s.pending))
    && (s.loaded ==> s.values - Keys(s.pending) == s.repo - Keys(s.pending))
    && forall w :: w in s.pending ==> Carried(w, s.repo)
  }

  ghost predicate Carried(w: Write, repo: map<string, string>) {
    w.key in repo && repo[w.key] == w.value
  }

  /** The code does not serialise its writers. From any state, loaded or not, in which at most one of the two
      copies exists, the cache ends as the repository in every interleaving if and only if the copies agree
      outside the keys in flight and each write in flight carries the repository's value. */
  lemma SettlesIff(s: State)
    requires s.loaded ==> s.loading.None?
    ensures AlwaysSettles(s) <==> Agreeable(s)
  {
    hide Drained, Agreeable, Settled, IsRun, Run, Do, Enabled;
    if Agreeable(s) {
      forall steps | IsRun(s, steps, false) && NoStores(steps)
        ensures Settled(Run(s, steps))
      {
        RunStaysAgreeable(s, steps);
        AgreeableSettles(Run(s, steps));
      }
    } else if AlwaysSettles(s) {
      SettlingIsAgreeable(s);
      assert false;
    }
  }

  lemma AgreeableSettles(s: State)
    requires Agreeable(s)
    ensures Settled(s)
  {
    if s.pending == multiset{} && s.loaded {
      assert Keys(s.pending) == {};
      assert s.values - {} == s.values && s.repo - {} == s.repo;
    }
  }

  lemma StepStaysAgreeable(s: State, step: Step)
    requires Agreeable(s) && (s.loaded ==> s.loading.None?) && Enabled(s, step) && !step.Store?
    ensures Agreeable(Do(s, step)) && (Do(s, step).loaded ==> Do(s, step).loading.None?)
  {
    hide Carried;
    match step
    case Apply(w) =>
      var rest := s.pending - multiset{w};
      assert forall v :: v in rest ==> v in s.pending;
      assert Carried(w, s.repo);
      OneLess(s.pending, w);
      if s.loaded {
        AppliedAgrees(s.values, s.repo, Keys(s.pending), Keys(rest), w);
      }
    case _ =>
  }

  lemma OneLess(pending: multiset<Write>, w: Write)
    requires w in pending
    ensures Keys(pending - multiset{w}) <= Keys(pending) <= Keys(pending - multiset{w}) + {w.key}
  {
    assert forall v :: v in pending - multiset{w} ==> v in pending;
    assert forall v :: v in pending && v != w ==> v in pending - multiset{w};
  }

  lemma AppliedAgrees(values: map<string, string>, repo: map<string, string>, keys: set<string>, rest: set<string>, w: Write)
    requires values - keys == repo - keys && Carried(w, repo) && rest <= keys <= rest + {w.key}
    ensures values[w.key := w.value] - rest == repo - rest
  {
    AgreeAt(values, repo, keys);
  }

  lemma {:induction false} RunStaysAgreeable(s: State, steps: seq<Step>)
    requires Agreeable(s) && (s.loaded ==> s.loading.None?) && IsRun(s, steps, false) && NoStores(steps)
    ensures Agreeable(Run(s, steps))
    decreases |steps|
  {
    hide Agreeable, Do, Enabled;
    if steps != [] {
      StepStaysAgreeable(s, steps[0]);
      assert NoStores(steps[1..]) by {
        assert forall k :: 0 <= k < |steps[1..]| ==> steps[1..][k] == steps[k + 1];
      }
      RunStaysAgreeable(Do(s, steps[0]), steps[1..]);
    }
  }

  /** Applying writes in an order. */
  function Applies(order: seq<Write>): (steps: seq<Step>)
    ensures |steps| == |order| && forall k :: 0 <= k < |order| ==> steps[k] == Apply(order[k])
  {
    seq(|order|, k requires 0 <= k < |order| => Apply(order[k]))
  }

  /** The state once these writes have been applied in order. */
  function AfterApplies(s: State, order: seq<Write>): State {
    s.(values := Drained(s.values, order), pending := s.pending - multiset(order))
  }

  lemma {:induction false} ApplyRun(s: State, order: seq<Write>)
    requires s.loaded && s.loading.None? && multiset(order) <= s.pending
    ensures IsRun(s, Applies(order), false) && Run(s, Applies(order)) == AfterApplies(s, order)
    decreases |order|
  {
    hide IsRun, Run, Do, Enabled, AfterApplies, Applies;
    if order == [] {
      NoneDrained(s);
    } else {
      var w, rest := order[0], order[1..];
      assert order == [w] + rest;
      ApplyFirst(s, w, rest);
      ApplyRun(Do(s, Apply(w)), rest);
      RunOne(s, Apply(w), Applies(rest));
      AppliesFirst(w, rest);
    }
  }

  lemma AppliesFirst(w: Write, rest: seq<Write>)
    ensures Applies([w] + rest) == [Apply(w)] + Applies(rest)
  {
  }

  lemma ApplyFirst(s: State, w: Write, rest: seq<Write>)
    requires s.loaded && s.loading.None? && multiset([w] + rest) <= s.pending
    ensures Enabled(s, Apply(w))
    ensures var t := Do(s, Apply(w));
      && t.loaded && t.loading.None? && multiset(rest) <= t.pending
      && AfterApplies(t, rest) == AfterApplies(s, [w] + rest)
  {
    hide Drained;
    FirstOfOrder(s.pending, w, rest);
    DrainedFirst(s.values, w, rest);
  }

  lemma NoneDrained(s: State)
    ensures AfterApplies(s, []) == s
    ensures Applies([]) == [] && IsRun(s, [], false) && Run(s, []) == s
  {
    assert s.pending - multiset{} == s.pending;
  }

  lemma FirstOfOrder(pending: multiset<Write>, w: Write, rest: seq<Write>)
    requires multiset([w] + rest) <= pending
    ensures w in pending && multiset(rest) <= pending - multiset{w}
    ensures pending - multiset{w} - multiset(rest) == pending - multiset([w] + rest)
  {
    assert multiset([w] + rest) == multiset{w} + multiset(rest);
    assert multiset{w} <= pending;
  }

  /** The steps that load the cache from where it stands. */
  function LoadSteps(s: State): seq<Step> {
    if s.loaded then [] else if s.loading.Some? then [FinishLoad] else [BeginLoad, FinishLoad]
  }

  /** What it then holds. */
  function LoadedValues(s: State): map<string, string> {
    if s.loaded then s.values else if s.loading.Some? then s.loading.value else s.repo
  }

  lemma LoadThen(s: State, rest: seq<Step>)
    requires s.loaded ==> s.loading.None?
    requires IsRun(s.(loaded := true, values := LoadedValues(s), loading := None), rest, false)
    ensures IsRun(s, LoadSteps(s) + rest, false)
    ensures Run(s, LoadSteps(s) + rest) == Run(s.(loaded := true, values := LoadedValues(s), loading := None), rest)
  {
    var t := s.(loaded := true, values := LoadedValues(s), loading := None);
    if s.loaded {
      assert s == t && LoadSteps(s) + rest == rest;
    } else if s.loading.Some? {
      assert (LoadSteps(s) + rest)[1..] == rest;
    } else {
      RunTwo(s, BeginLoad, FinishLoad, rest);
    }
  }

  /** Loading and then applying the writes in an order is an interleaving. */
  lemma DrainSettles(s: State, order: seq<Write>)
    requires (s.loaded ==> s.loading.None?) && AlwaysSettles(s) && multiset(order) == s.pending
    ensures Drained(LoadedValues(s), order) == s.repo
  {
    hide Drained, IsRun, Run;
    var t := s.(loaded := true, values := LoadedValues(s), loading := None);
    ApplyRun(t, order);
    LoadThen(s, Applies(order));
    var steps := LoadSteps(s) + Applies(order);
    assert NoStores(steps);
    assert s.pending - multiset(order) == multiset{};
    assert Settled(Run(s, steps));
  }

  lemma SettlingIsAgreeable(s: State)
    requires (s.loaded ==> s.loading.None?) && AlwaysSettles(s)
    ensures Agreeable(s)
  {
    hide Drained, AlwaysSettles, Carried;
    var order := SomeOrder(s.pending);
    DrainSettles(s, order);
    DrainedOutside(LoadedValues(s), order);
    OrderKeys(order, s.pending);
    forall w | w in s.pending
      ensures Carried(w, s.repo)
    {
      var before := SomeOrder(s.pending - multiset{w});
      assert multiset(before + [w]) == s.pending;
      DrainSettles(s, before + [w]);
      DrainedLast(LoadedValues(s), before, w);
      LastIsCarried(Drained(LoadedValues(s), before), s.repo, w);
    }
  }

  lemma LastIsCarried(values: map<string, string>, repo: map<string, string>, w: Write)
    requires values[w.key := w.value] == repo
    ensures Carried(w, repo)
  {
  }

  function KeysOf(order: seq<Write>): set<string> {
    set w | w in order :: w.key
  }

  lemma OrderKeys(order: seq<Write>, pending: multiset<Write>)
    requires multiset(order) == pending
    ensures KeysOf(order) == Keys(pending)
    ensures forall w :: w in order <==> w in pending
  {
    forall w: Write
      ensures w in order <==> w in pending
    {
      assert w in order <==> w in multiset(order);
    }
  }

  lemma {:induction false} SomeOrder(pending: multiset<Write>) returns (order: seq<Write>)
    ensures multiset(order) == pending
    decreases |pending|
  {
    if pending == multiset{} {
      order := [];
    } else {
      var w :| w in pending;
      var rest := SomeOrder(pending - multiset{w});
      order := rest + [w];
    }
  }

  lemma DrainedLast(values: map<string, string>, before: seq<Write>, w: Write)
    ensures Drained(values, before + [w]) == Drained(values, before)[w.key := w.value]
  {
    assert (before + [w])[..|before|] == before;
  }

  lemma {:induction false} DrainedOutside(values: map<string, string>, order: seq<Write>)
    ensures Drained(values, order) - KeysOf(order) == values - KeysOf(order)
    decreases |order|
  {
    if order != [] {
      var front, last := order[..|order| - 1], order[|order| - 1];
      DrainedOutside(values, front);
      assert order == front + [last];
      assert KeysOf(order) == KeysOf(front) + {last.key};
      AgreeAt(Drained(values, front), values, KeysOf(front));
    }
  }

  lemma {:induction false} DrainedFirst(values: map<string, string>, w: Write, rest: seq<Write>)
    ensures Drained(values, [w] + rest) == Drained(values[w.key := w.value], rest)
    decreases |rest|
  {
    if rest == [] {
      assert [w] + rest == [w];
      assert Drained(values, [w][..0]) == values;
    } else {
      var front := rest[..|rest| - 1];
      DrainedFirst(values, w, front);
      assert ([w] + rest)[..|rest|] == [w] + front;
    }
  }

  /** Two overlapping writers of one key leave the older value in the cache, with no write in flight. */
  lemma OverlappingWritersGoStale(key: string, a: string, b: string)
    requires a != b
    ensures var first, second := Write(key, a), Write(key, b);
      var steps := [BeginLoad, FinishLoad, Store(first), Store(second), Apply(second), Apply(first)];
      && IsRun(Initial(map[]), steps, false)
      && Run(Initial(map[]), steps) == State(map[key := b], true, map[key := a], None, multiset{})
  {
    var first, second := Write(key, a), Write(key, b);
    var s2 := State(map[], true, map[], None, multiset{});
    var s4 := State(map[key := b], true, map[], None, multiset{first, second});
    var tail := [Apply(second), Apply(first)];
    assert Do(Do(s4, tail[0]), tail[1]) == State(map[key := b], true, map[key := a], None, multiset{});
    RunTwo(s4, tail[0], tail[1], []);
    assert [tail[0], tail[1]] + [] == tail;
    assert Do(Do(s2, Store(first)), Store(second)) == s4;
    assert Do(Do(Initial(map[]), BeginLoad), FinishLoad) == s2;
    RunTwo(s2, Store(first), Store(second), tail);
    RunTwo(Initial(map[]), BeginLoad, FinishLoad, [Store(first), Store(second)] + tail);
    assert [BeginLoad, FinishLoad] + ([Store(first), Store(second)] + tail)
      == [BeginLoad, FinishLoad, Store(first), Store(second), Apply(second), Apply(first)];
  }

  lemma RunOne(s: State, x: Step, rest: seq<Step>)
    requires Enabled(s, x) && IsRun(Do(s, x), rest, false)
    ensures IsRun(s, [x] + rest, false) && Run(s, [x] + rest) == Run(Do(s, x), rest)
  {
    hide Do, Enabled;
    assert ([x] + rest)[1..] == rest;
  }

  lemma RunTwo(s: State, x: Step, y: Step, rest: seq<Step>)
    requires Enabled(s, x) && Enabled(Do(s, x), y) && IsRun(Do(Do(s, x), y), rest, false)
    ensures IsRun(s, [x, y] + rest, false) && Run(s, [x, y] + rest) == Run(Do(Do(s, x), y), rest)
  {
    hide Do, Enabled, IsRun, Run;
    RunOne(Do(s, x), y, rest);
    RunOne(s, x, [y] + rest);
    assert [x] + ([y] + rest) == [x, y] + rest;
  }

  /** The service's fields, with one caller at a time: each method is a run of steps. */
  class Service {
    var repo: map<string, string>
    var configLoaded: bool
    var configValues: map<string, string>
    ghost var pending: multiset<Write>

    ghost function Abstract(): State
      reads this
    {
      State(repo, configLoaded, configValues, None, pending)
    }

    constructor (stored: map<string, string>)
      ensures Abstract() == Initial(stored)
    {
      repo, configLoaded, configValues, pending := stored, false, map[], multiset{};
    }

    /** configValue; `fails` when the repository cannot be read. */
    method ConfigValue(key: string, fails: bool) returns (value: Option<string>, ok: bool)
      modifies this
      ensures repo == old(repo) && pending == old(pending)
      ensures ok <==> old(configLoaded) || !fails
      ensures ok ==> configLoaded && value == (if key in configValues then Some(configValues[key]) else None)
      ensures ok ==> configValues == if old(configLoaded) then old(configValues) else repo
      ensures !ok ==> Abstract() == old(Abstract())
      ensures old(Inv(Abstract())) ==> Inv(Abstract())
      ensures old(Inv(Abstract())) && ok && key !in Keys(pending) ==> value == (if key in repo then Some(repo[key]) else None)
    {
      if !configLoaded {
        if fails {
          return None, false;
        }
        LoadKeepsInv(Abstract());
        configValues := repo;
        configLoaded := true;
      }
      if Inv(Abstract()) {
        AgreeAt(configValues, repo, Keys(pending));
      }
      value := if key in configValues then Some(configValues[key]) else None;
      ok := true;
    }

    /** setConfig, its two halves one after the other; `fails` when the repository cannot be written. The
        caller may write a key whose last write is still in flight. */
    method SetConfig(key: string, value: string, fails: bool) returns (ok: bool)
      modifies this
      ensures ok == !fails
      ensures ok ==> Abstract() == Do(Do(old(Abstract()), Step.Store(Write(key, value))), Step.Apply(Write(key, value)))
      ensures ok ==> repo == old(repo)[key := value]
      ensures ok ==> configValues == if configLoaded then old(configValues)[key := value] else old(configValues)
      ensures !ok ==> Abstract() == old(Abstract())
      ensures old(Inv(Abstract())) && key !in Keys(old(pending)) ==> Inv(Abstract())
    {
      if fails {
        return false;
      }
      StoreFirst(key, value);
      ApplyStored(key, value);
      ok := true;
    }

    /** The half of setConfig that writes the repository. */
    method StoreFirst(key: string, value: string)
      modifies this
      ensures Abstract() == Do(old(Abstract()), Step.Store(Write(key, value)))
      ensures old(Inv(Abstract())) && key !in Keys(old(pending)) ==> Inv(Abstract())
    {
      ghost var before := Abstract();
      if Inv(before) && key !in Keys(pending) {
        StepKeepsInv(before, Step.Store(Write(key, value)));
      }
      repo := repo[key := value];
      pending := pending + multiset{Write(key, value)};
    }

    /** The half of setConfig that updates a loaded cache. */
    method ApplyStored(key: string, value: string)
      requires Write(key, value) in pending
      modifies this
      ensures Abstract() == Do(old(Abstract()), Step.Apply(Write(key, value)))
      ensures old(Inv(Abstract())) ==> Inv(Abstract())
    {
      ghost var before := Abstract();
      if Inv(before) {
        StepKeepsInv(before, Step.Apply(Write(key, value)));
      }
      if configLoaded {
        configValues := configValues[key := value];
      }
      pending := pending - multiset{Write(key, value)};
    }
  }

  lemma LoadKeepsInv(s: State)
    requires !s.loaded && s.loading.None?
    ensures Inv(s) ==> Inv(s.(loaded := true, values := s.repo))
  {
    if Inv(s) {
      StepKeepsInv(s, BeginLoad);
      StepKeepsInv(Do(s, BeginLoad), FinishLoad);
    }
  }
}
