/** The application registry: modules with dependencies, registered and unregistered one at a time,
    and the order in which `stop` visits them. */
module ModuleRegistry {
  import opened Common

  /** Registered modules in registration order (the iteration order of the registry's maps), and what
      each depends on. */
  datatype Registry = Registry(order: seq<string>, deps: map<string, seq<string>>)

  datatype Error =
    | AlreadyRegistered
    | UnknownDependency(id: string)
    | NotRegistered
    | HasDependents(ids: seq<string>)
    | StopFailed

  const Empty := Registry([], map[])

  /** `getDependentModules`: the modules that list `id`, in registration order. */
  function Dependents(r: Registry, id: string): seq<string> { DependentsIn(r.order, r.deps, id) }

  function DependentsIn(order: seq<string>, deps: map<string, seq<string>>, id: string): seq<string> {
    if order == [] then []
    else
      var m, rest := order[|order| - 1], DependentsIn(order[..|order| - 1], deps, id);
      if m in deps && id in deps[m] then rest + [m] else rest
  }

  function FirstUnknown(r: Registry, dependencies: seq<string>): Option<string> {
    if dependencies == [] then None
    else if dependencies[0] !in r.order then Some(dependencies[0])
    else FirstUnknown(r, dependencies[1..])
  }

  /** Registration as one step; an initialisation that fails leaves the module registered. */
  function Register(r: Registry, id: string, dependencies: seq<string>): (Registry, Option<Error>) {
    if id in r.order then (r, Some(AlreadyRegistered))
    else
      match FirstUnknown(r, dependencies)
      case Some(d) => (r, Some(UnknownDependency(d)))
      case None => (Registry(r.order + [id], r.deps[id := dependencies]), None)
  }

  function Dropped(r: Registry, id: string): Registry { Registry(Removed(r.order, id), r.deps - {id}) }

  /** Unregistration as one step; `stops` is false when the module's own stop throws. */
  function Unregister(r: Registry, id: string, stops: bool): (Registry, Option<Error>) {
    if id !in r.order then (r, Some(NotRegistered))
    else if Dependents(r, id) != [] then (r, Some(HasDependents(Dependents(r, id))))
    else if !stops then (r, Some(StopFailed))
    else (Dropped(r, id), None)
  }

  // ---- Invariant ------------------------------------------------------------------------------------

  ghost predicate Before(s: seq<string>, x: string, y: string) {
    exists i, j :: 0 <= i < j < |s| && s[i] == x && s[j] == y
  }

  /** Every dependency is registered, and was registered first. */
  ghost predicate Inv(r: Registry) {
    && NoRepeats(r.order)
    && (forall m :: m in r.order <==> m in r.deps)
    && forall m, d :: m in r.deps && d in r.deps[m] ==> Before(r.order, d, m)
  }

  lemma {:induction false} FirstUnknownNone(r: Registry, dependencies: seq<string>, d: string)
    requires FirstUnknown(r, dependencies).None? && d in dependencies
    ensures d in r.order
  {
    if d != dependencies[0] { FirstUnknownNone(r, dependencies[1..], d); }
  }

  lemma RegisterKeepsInv(r: Registry, id: string, dependencies: seq<string>)
    requires Inv(r)
    ensures Inv(Register(r, id, dependencies).0)
  {
    var r' := Register(r, id, dependencies).0;
    if r' != r {
      forall m, d | m in r'.deps && d in r'.deps[m] ensures Before(r'.order, d, m) {
        if m == id {
          FirstUnknownNone(r, dependencies, d);
          var i :| 0 <= i < |r.order| && r.order[i] == d;
          assert r'.order[i] == d && r'.order[|r.order|] == m;
        } else {
          var i, j :| 0 <= i < j < |r.order| && r.order[i] == d && r.order[j] == m;
          assert r'.order[i] == d && r'.order[j] == m;
        }
      }
    }
  }

  lemma {:induction false} DependentsAre(order: seq<string>, deps: map<string, seq<string>>, id: string, m: string)
    ensures m in DependentsIn(order, deps, id) <==> m in order && m in deps && id in deps[m]
  {
    if order != [] {
      DependentsAre(order[..|order| - 1], deps, id, m);
      assert order == order[..|order| - 1] + [order[|order| - 1]];
    }
  }

  lemma {:induction false} RemovedKeeps(s: seq<string>, x: string)
    ensures forall y :: y in Removed(s, x) <==> y in s && y != x
    ensures NoRepeats(s) ==> NoRepeats(Removed(s, x))
    ensures forall y, z :: y != x && z != x && Before(s, y, z) ==> Before(Removed(s, x), y, z)
  {
    if s != [] {
      var front, last := s[..|s| - 1], s[|s| - 1];
      assert s == front + [last];
      RemovedKeeps(front, x);
      var w, w' := Removed(front, x), Removed(s, x);
      if NoRepeats(s) {
        assert NoRepeats(front) && last !in front && last !in w;
      }
      forall y, z | y != x && z != x && Before(s, y, z) ensures Before(w', y, z) {
        var i, j :| 0 <= i < j < |s| && s[i] == y && s[j] == z;
        assert front[i] == y && y in w;
        if j == |s| - 1 {
          var k :| 0 <= k < |w| && w[k] == y;
          assert w'[k] == y && w'[|w|] == z;
        } else {
          assert front[j] == z;
          assert Before(front, y, z);
          var k, l :| 0 <= k < l < |w| && w[k] == y && w[l] == z;
          assert w'[k] == y && w'[l] == z;
        }
      }
    }
  }

  ghost predicate Unneeded(r: Registry, id: string) {
    forall m :: m in r.deps ==> id !in r.deps[m]
  }

  lemma NoDependents(r: Registry, id: string)
    requires Inv(r)
    ensures Dependents(r, id) == [] <==> Unneeded(r, id)
  {
    forall m ensures m in Dependents(r, id) <==> m in r.deps && id in r.deps[m] {
      DependentsAre(r.order, r.deps, id, m);
    }
    if Dependents(r, id) != [] { assert Dependents(r, id)[0] in Dependents(r, id); }
  }

  lemma DroppedKeepsInv(r: Registry, id: string)
    requires Inv(r) && Unneeded(r, id)
    ensures Inv(Dropped(r, id))
  {
    RemovedKeeps(r.order, id);
    var r' := Dropped(r, id);
    forall m, d | m in r'.deps && d in r'.deps[m] ensures Before(r'.order, d, m) {
      assert Before(r.order, d, m);
    }
  }

  lemma UnregisterKeepsInv(r: Registry, id: string, stops: bool)
    requires Inv(r)
    ensures Inv(Unregister(r, id, stops).0)
  {
    NoDependents(r, id);
    if Unregister(r, id, stops).0 != r { DroppedKeepsInv(r, id); }
  }

  // ---- What is refused, and what a call undoes --------------------------------------------------------

  lemma {:induction false} FirstUnknownIs(r: Registry, dependencies: seq<string>) returns (i: nat)
    ensures i <= |dependencies| && forall j :: 0 <= j < i ==> dependencies[j] in r.order
    ensures if i < |dependencies|
            then dependencies[i] !in r.order && FirstUnknown(r, dependencies) == Some(dependencies[i])
            else FirstUnknown(r, dependencies).None?
  {
    if dependencies == [] || dependencies[0] !in r.order {
      i := 0;
    } else {
      var i' := FirstUnknownIs(r, dependencies[1..]);
      i := i' + 1;
    }
  }

  ghost predicate AllKnown(r: Registry, dependencies: seq<string>) {
    forall d :: d in dependencies ==> d in r.order
  }

  /** The first dependency that is not registered. */
  ghost predicate NamesUnknown(r: Registry, dependencies: seq<string>, d: string) {
    d !in r.order && exists i :: 0 <= i < |dependencies| && dependencies[i] == d && AllKnown(r, dependencies[..i])
  }

  /** A registration is accepted exactly if the id is new and everything it depends on is registered; the
      module then comes last.  Otherwise nothing changes and the reason is named. */
  lemma RegisterIff(r: Registry, id: string, dependencies: seq<string>)
    ensures var (r', error) := Register(r, id, dependencies);
            && (error.None? <==> id !in r.order && AllKnown(r, dependencies))
            && (error.None? ==> r'.order == r.order + [id] && r'.deps == r.deps[id := dependencies])
            && (error.Some? ==> r' == r)
            && (error == Some(AlreadyRegistered) <==> id in r.order)
            && (error.Some? && error.value.UnknownDependency? ==> NamesUnknown(r, dependencies, error.value.id))
  {
    var i := FirstUnknownIs(r, dependencies);
    if i == |dependencies| {
      assert AllKnown(r, dependencies);
    } else {
      assert dependencies[i] in dependencies;
      assert AllKnown(r, dependencies[..i]);
    }
  }

  lemma {:induction false} RemovedAbsent(ids: seq<string>, x: string)
    requires x !in ids
    ensures Removed(ids, x) == ids && Removed(ids + [x], x) == ids
  {
    assert (ids + [x])[..|ids|] == ids;
    if ids != [] {
      RemovedAbsent(ids[..|ids| - 1], x);
      assert ids == ids[..|ids| - 1] + [ids[|ids| - 1]];
    }
  }

  /** An unregistration goes through exactly if the module is registered, nobody depends on it and it
      stops.  It then takes that module out and leaves every other one as it was. */
  lemma UnregisterIff(r: Registry, id: string, stops: bool)
    requires Inv(r)
    ensures var (r', error) := Unregister(r, id, stops);
            && (error.None? <==> id in r.order && Unneeded(r, id) && stops)
            && (error.None? ==>
                 && (forall m :: m in r'.order <==> m in r.order && m != id)
                 && (forall m, n :: m != id && n != id && Before(r.order, m, n) ==> Before(r'.order, m, n))
                 && r'.deps == r.deps - {id})
            && (error.Some? ==> r' == r)
            && (error.Some? && error.value.HasDependents? ==>
                 forall m :: m in error.value.ids <==> m in r.deps && id in r.deps[m])
  {
    NoDependents(r, id);
    RemovedKeeps(r.order, id);
    forall m ensures m in Dependents(r, id) <==> m in r.deps && id in r.deps[m] {
      DependentsAre(r.order, r.deps, id, m);
    }
  }

  /** Unregistering a module right after its registration restores the registry. */
  lemma RegisterThenUnregister(r: Registry, id: string, dependencies: seq<string>)
    requires Inv(r) && Register(r, id, dependencies).1.None?
    ensures Unregister(Register(r, id, dependencies).0, id, true) == (r, None)
  {
    var r' := Register(r, id, dependencies).0;
    RegisterIff(r, id, dependencies);
    RegisterKeepsInv(r, id, dependencies);
    InvIsClosed(r);
    assert Unneeded(r', id);
    NoDependents(r', id);
    RemovedAbsent(r.order, id);
    assert r'.deps - {id} == r.deps;
  }

  datatype Action = DoRegister(id: string, dependencies: seq<string>) | DoUnregister(id: string, stops: bool)

  function AfterRun(run: seq<Action>): Registry {
    if run == [] then Empty
    else
      var r := AfterRun(run[..|run| - 1]);
      match run[|run| - 1]
      case DoRegister(id, dependencies) => Register(r, id, dependencies).0
      case DoUnregister(id, stops) => Unregister(r, id, stops).0
  }

  lemma {:induction false} RunKeepsInv(run: seq<Action>)
    ensures Inv(AfterRun(run))
  {
    if run != [] {
      var r := AfterRun(run[..|run| - 1]);
      RunKeepsInv(run[..|run| - 1]);
      match run[|run| - 1]
      case DoRegister(id, dependencies) => RegisterKeepsInv(r, id, dependencies);
      case DoUnregister(id, stops) => UnregisterKeepsInv(r, id, stops);
    }
  }

  // ---- Closed and acyclic ---------------------------------------------------------------------------

  /** A chain of dependencies: each module depends on the next. */
  ghost predicate Chain(r: Registry, p: seq<string>) {
    forall i :: 0 <= i < |p| - 1 ==> p[i] in r.deps && p[i + 1] in r.deps[p[i]]
  }

  function Position(s: seq<string>, x: string): (k: nat)
    ensures k <= |s|
    ensures x in s ==> k < |s| && s[k] == x
  {
    if s == [] || s[0] == x then 0 else 1 + Position(s[1..], x)
  }

  lemma BeforePosition(s: seq<string>, x: string, y: string)
    requires NoRepeats(s) && Before(s, x, y)
    ensures Position(s, x) < Position(s, y) < |s|
  {
    var i, j :| 0 <= i < j < |s| && s[i] == x && s[j] == y;
    assert s[Position(s, x)] == x && s[Position(s, y)] == y;
  }

  lemma {:induction false} ChainDescends(r: Registry, p: seq<string>)
    requires Inv(r) && Chain(r, p) && |p| >= 2
    ensures Position(r.order, p[|p| - 1]) < Position(r.order, p[0])
  {
    assert p[0] in r.deps && p[1] in r.deps[p[0]];
    BeforePosition(r.order, p[1], p[0]);
    if |p| > 2 {
      assert Chain(r, p[1..]) by {
        forall i | 0 <= i < |p[1..]| - 1 ensures p[1..][i] in r.deps && p[1..][i + 1] in r.deps[p[1..][i]] {
          assert p[i + 1] in r.deps && p[i + 2] in r.deps[p[i + 1]];
        }
      }
      ChainDescends(r, p[1..]);
    }
  }

  /** In every reachable registry, every dependency is registered and no chain of dependencies comes
      back to where it started. */
  lemma ClosedAndAcyclic(run: seq<Action>)
    ensures var r := AfterRun(run);
            && Closed(r)
            && forall p :: Chain(r, p) && |p| >= 2 ==> p[0] != p[|p| - 1]
  {
    var r := AfterRun(run);
    RunKeepsInv(run);
    InvIsClosed(r);
    forall p | Chain(r, p) && |p| >= 2 ensures p[0] != p[|p| - 1] { ChainDescends(r, p); }
  }

  // ---- Unregistrations in progress ------------------------------------------------------------------

  /** `unregisterModule` awaits the module's own stop between its checks and the removal. */
  datatype Busy = Busy(registry: Registry, stopping: seq<string>)

  datatype Move =
    | Add(id: string, dependencies: seq<string>)
    | BeginRemove(id: string)
    | EndRemove(i: nat, stops: bool)

  ghost predicate Allowed(b: Busy, m: Move) {
    m.EndRemove? ==> m.i < |b.stopping|
  }

  ghost function Next(b: Busy, m: Move): Busy
    requires Allowed(b, m)
  {
    match m
    case Add(id, dependencies) => b.(registry := Register(b.registry, id, dependencies).0)
    case BeginRemove(id) =>
      if id !in b.registry.order || Dependents(b.registry, id) != [] then b
      else b.(stopping := b.stopping + [id])
    case EndRemove(i, stops) =>
      Busy(if stops then Dropped(b.registry, b.stopping[i]) else b.registry,
           b.stopping[..i] + b.stopping[i + 1..])
  }

  ghost predicate IsRun(b: Busy, run: seq<Move>)
    decreases |run|
  {
    run == [] || (Allowed(b, run[0]) && IsRun(Next(b, run[0]), run[1..]))
  }

  ghost function After(b: Busy, run: seq<Move>): Busy
    requires IsRun(b, run)
    decreases |run|
  {
    if run == [] then b else After(Next(b, run[0]), run[1..])
  }

  ghost predicate Closed(r: Registry) {
    forall m, d :: m in r.deps && d in r.deps[m] ==> d in r.deps
  }

  ghost predicate OnlyEnds(run: seq<Move>) {
    forall m :: m in run ==> m.EndRemove?
  }

  /** Closed now, and however the unregistrations in progress end. */
  ghost predicate ClosedAsItEnds(b: Busy) {
    forall ends :: OnlyEnds(ends) && IsRun(b, ends) ==> Closed(After(b, ends).registry)
  }

  ghost predicate StaysClosed(b: Busy, run: seq<Move>)
    requires IsRun(b, run)
    decreases |run|
  {
    ClosedAsItEnds(b) && (run == [] || StaysClosed(Next(b, run[0]), run[1..]))
  }

  /** An accepted registration that lists a module whose unregistration is in progress. */
  ghost predicate IsLate(b: Busy, m: Move) {
    && m.Add? && Register(b.registry, m.id, m.dependencies).1.None?
    && exists d :: d in m.dependencies && d in b.stopping
  }

  ghost predicate NeverLate(b: Busy, run: seq<Move>)
    requires IsRun(b, run)
    decreases |run|
  {
    run == [] || (!IsLate(b, run[0]) && NeverLate(Next(b, run[0]), run[1..]))
  }

  /** What is being stopped is still needed by nobody. */
  ghost predicate BusyInv(b: Busy) {
    Inv(b.registry) && forall id :: id in b.stopping ==> Unneeded(b.registry, id)
  }

  lemma AddKeepsInv(b: Busy, id: string, dependencies: seq<string>)
    requires BusyInv(b) && !IsLate(b, Add(id, dependencies))
    ensures BusyInv(Next(b, Add(id, dependencies)))
  {
    var b' := Next(b, Add(id, dependencies));
    RegisterKeepsInv(b.registry, id, dependencies);
    forall x | x in b'.stopping ensures Unneeded(b'.registry, x) { assert Unneeded(b.registry, x); }
  }

  lemma EndKeepsInv(b: Busy, i: nat, stops: bool)
    requires BusyInv(b) && i < |b.stopping|
    ensures BusyInv(Next(b, EndRemove(i, stops)))
  {
    var x, b' := b.stopping[i], Next(b, EndRemove(i, stops));
    assert x in b.stopping;
    DroppedKeepsInv(b.registry, x);
    forall id | id in b'.stopping ensures Unneeded(b'.registry, id) {
      assert id in b.stopping;
      assert Unneeded(b.registry, id);
    }
  }

  lemma MoveKeepsInv(b: Busy, m: Move)
    requires BusyInv(b) && Allowed(b, m) && !IsLate(b, m)
    ensures BusyInv(Next(b, m))
  {
    match m
    case Add(id, dependencies) => AddKeepsInv(b, id, dependencies);
    case BeginRemove(id) => NoDependents(b.registry, id);
    case EndRemove(i, stops) => EndKeepsInv(b, i, stops);
  }

  lemma InvIsClosed(r: Registry)
    requires Inv(r)
    ensures Closed(r)
  {
    forall m, d | m in r.deps && d in r.deps[m] ensures d in r.deps { assert Before(r.order, d, m); }
  }

  lemma {:induction false} EndsStayClosed(b: Busy, ends: seq<Move>)
    requires BusyInv(b) && OnlyEnds(ends) && IsRun(b, ends)
    ensures Closed(After(b, ends).registry)
    decreases |ends|
  {
    if ends == [] {
      InvIsClosed(b.registry);
    } else {
      assert ends[0] in ends;
      MoveKeepsInv(b, ends[0]);
      EndsStayClosed(Next(b, ends[0]), ends[1..]);
    }
  }

  lemma OneMove(b: Busy, m: Move, rest: seq<Move>)
    requires Allowed(b, m) && IsRun(Next(b, m), rest)
    ensures IsRun(b, [m] + rest) && After(b, [m] + rest) == After(Next(b, m), rest)
  {
    assert ([m] + rest)[1..] == rest;
  }

  /** A module registered while one it depends on is being stopped loses that dependency, if the stop
      goes through. */
  lemma LateIsLeftOpen(b: Busy, m: Move)
    requires IsLate(b, m)
    ensures !ClosedAsItEnds(Next(b, m))
  {
    var b' := Next(b, m);
    var d :| d in m.dependencies && d in b.stopping;
    var i :| 0 <= i < |b.stopping| && b.stopping[i] == d;
    FirstUnknownNone(b.registry, m.dependencies, d);
    var end := EndRemove(i, true);
    var r := Next(b', end).registry;
    assert m.id in r.deps && d in r.deps[m.id] && d !in r.deps;
    OneMove(b', end, []);
    assert [end] + [] == [end];
    assert OnlyEnds([end]) && After(b', [end]).registry == r;
  }

  lemma {:induction false} ClosedUnlessLate(b: Busy, run: seq<Move>)
    requires BusyInv(b) && IsRun(b, run)
    ensures StaysClosed(b, run) <==> NeverLate(b, run)
    decreases |run|
  {
    forall ends | OnlyEnds(ends) && IsRun(b, ends) ensures Closed(After(b, ends).registry) { EndsStayClosed(b, ends); }
    if run != [] {
      if IsLate(b, run[0]) {
        LateIsLeftOpen(b, run[0]);
      } else {
        MoveKeepsInv(b, run[0]);
        ClosedUnlessLate(Next(b, run[0]), run[1..]);
      }
    }
  }

  /** For every run with unregistrations in progress: every dependency is registered at every point of
      it, however the pending stops end, exactly when no accepted registration lists a module that is
      being unregistered. */
  lemma StaysClosedIff(run: seq<Move>)
    requires IsRun(Busy(Empty, []), run)
    ensures StaysClosed(Busy(Empty, []), run) <==> NeverLate(Busy(Empty, []), run)
  {
    ClosedUnlessLate(Busy(Empty, []), run);
  }

  /** "b" depends on "a", which was registered first. */
  const Pair := Registry(["a", "b"], map["a" := [], "b" := ["a"]])

  /** Such a registration is possible. */
  lemma RegisteredTooLate() returns (run: seq<Move>)
    ensures IsRun(Busy(Empty, []), run) && !Closed(After(Busy(Empty, []), run).registry)
  {
    var add, begin, late, end := Add("a", []), BeginRemove("a"), Add("b", ["a"]), EndRemove(0, true);
    var alone := Registry(["a"], map["a" := []]);
    assert Next(Busy(Empty, []), add) == Busy(alone, []);
    assert Dependents(alone, "a") == [] by { NoDependentsAlone(); }
    assert Next(Busy(alone, []), begin) == Busy(alone, ["a"]);
    assert Next(Busy(alone, ["a"]), late) == Busy(Pair, ["a"]);
    var r := Next(Busy(Pair, ["a"]), end).registry;
    assert "b" in r.deps && "a" in r.deps["b"] && "a" !in r.deps;
    OneMove(Busy(Pair, ["a"]), end, []);
    OneMove(Busy(alone, ["a"]), late, [end] + []);
    OneMove(Busy(alone, []), begin, [late] + ([end] + []));
    OneMove(Busy(Empty, []), add, [begin] + ([late] + ([end] + [])));
    run := [add] + ([begin] + ([late] + ([end] + [])));
  }

  lemma NoDependentsAlone()
    ensures Dependents(Registry(["a"], map["a" := []]), "a") == []
  {
    assert ["a"][..0] == [];
  }

  // ---- Stop order -----------------------------------------------------------------------------------

  /** Whatever is listed has all its dependents listed before it. */
  ghost predicate DependentsFirst(r: Registry, out: seq<string>) {
    forall i, y :: 0 <= i < |out| && y in r.deps && out[i] in r.deps[y] ==> y in out[..i]
  }

  /** The state of the depth-first search: visited ids, and those of them already listed. */
  ghost predicate SearchInv(r: Registry, visited: set<string>, out: seq<string>) {
    && NoRepeats(out) && DependentsFirst(r, out)
    && (forall x :: x in out ==> x in visited) && (forall x :: x in visited ==> x in r.order)
  }

  /** The modules being visited: not listed yet. */
  ghost function Stack(visited: set<string>, out: seq<string>): set<string> {
    set v | v in visited && v !in out
  }

  /** They were registered before `m`. */
  ghost predicate StackBelow(r: Registry, visited: set<string>, out: seq<string>, m: string) {
    forall v :: v in Stack(visited, out) ==> Position(r.order, v) < Position(r.order, m)
  }

  lemma BeforeGrows(s: seq<string>, last: string, x: string, y: string)
    requires Before(s, x, y) || (x in s && y == last)
    ensures Before(s + [last], x, y)
  {
    if Before(s, x, y) {
      var i, j :| 0 <= i < j < |s| && s[i] == x && s[j] == y;
      assert (s + [last])[i] == x && (s + [last])[j] == y;
    } else {
      var i :| 0 <= i < |s| && s[i] == x;
      assert (s + [last])[i] == x && (s + [last])[|s|] == y;
    }
  }

  lemma {:induction false} DependentsOrdered(
    order: seq<string>, deps: map<string, seq<string>>, id: string, i: nat, j: nat)
    requires i < j < |DependentsIn(order, deps, id)|
    ensures Before(order, DependentsIn(order, deps, id)[i], DependentsIn(order, deps, id)[j])
  {
    var front, last := order[..|order| - 1], order[|order| - 1];
    var ids, all := DependentsIn(front, deps, id), DependentsIn(order, deps, id);
    assert order == front + [last];
    if j < |ids| { DependentsOrdered(front, deps, id, i, j); } else { DependentsAre(front, deps, id, ids[i]); }
    BeforeGrows(front, last, all[i], all[j]);
  }

  method GetDependents(r: Registry, id: string) returns (dependents: seq<string>)
    ensures dependents == Dependents(r, id)
    ensures forall m :: m in dependents <==> m in r.order && m in r.deps && id in r.deps[m]
    ensures forall i, j :: 0 <= i < j < |dependents| ==> Before(r.order, dependents[i], dependents[j])
  {
    forall m ensures m in Dependents(r, id) <==> m in r.order && m in r.deps && id in r.deps[m] {
      DependentsAre(r.order, r.deps, id, m);
    }
    forall i, j | 0 <= i < j < |Dependents(r, id)| ensures Before(r.order, Dependents(r, id)[i], Dependents(r, id)[j]) {
      DependentsOrdered(r.order, r.deps, id, i, j);
    }
    dependents := [];
    for i := 0 to |r.order|
      invariant dependents == DependentsIn(r.order[..i], r.deps, id)
    {
      assert r.order[..i + 1][..i] == r.order[..i];
      if r.order[i] in r.deps && id in r.deps[r.order[i]] { dependents := dependents + [r.order[i]]; }
    }
    assert r.order[..|r.order|] == r.order;
  }

  lemma DependentsAfter(r: Registry, id: string, m: string)
    requires Inv(r) && m in Dependents(r, id)
    ensures m in r.order && Position(r.order, id) < Position(r.order, m)
  {
    DependentsAre(r.order, r.deps, id, m);
    BeforePosition(r.order, id, m);
  }

  lemma ListModule(r: Registry, visited: set<string>, out: seq<string>, m: string)
    requires Inv(r) && SearchInv(r, visited, out) && m in visited && m !in out
    requires forall d :: d in Dependents(r, m) ==> d in out
    ensures SearchInv(r, visited, out + [m])
  {
    var out' := out + [m];
    forall i, y | 0 <= i < |out'| && y in r.deps && out'[i] in r.deps[y] ensures y in out'[..i] {
      if i < |out| {
        assert out'[..i] == out[..i];
      } else {
        DependentsAre(r.order, r.deps, m, y);
        assert out'[..i] == out;
      }
    }
  }

  /** `visit`: lists `m` and everything that depends on it, dependents first. */
  method Visit(r: Registry, m: string, visited: set<string>, out: seq<string>)
    returns (visited': set<string>, out': seq<string>)
    requires Inv(r) && m in r.order && SearchInv(r, visited, out) && StackBelow(r, visited, out, m)
    ensures SearchInv(r, visited', out') && out <= out' && m in out' && visited <= visited'
    ensures Stack(visited', out') == Stack(visited, out)
    decreases (set x | x in r.order) - visited, 1
  {
    if m in visited {
      StackCloses(visited, out, m);
      return visited, out;
    }
    var dependents := GetDependents(r, m);
    StackOpens(visited, out, m);
    visited', out' := VisitDependents(r, m, dependents, visited + {m}, out);
    StackCloses(visited', out', m);
    ListModule(r, visited', out', m);
    out' := out' + [m];
  }

  lemma StackOpens(visited: set<string>, out: seq<string>, m: string)
    requires m !in visited && forall x :: x in out ==> x in visited
    ensures Stack(visited + {m}, out) == Stack(visited, out) + {m} && m !in Stack(visited, out)
  {
  }

  lemma StackCloses(visited: set<string>, out: seq<string>, m: string)
    ensures Stack(visited, out + [m]) == Stack(visited, out) - {m}
    ensures m in Stack(visited, out) <==> m in visited && m !in out
  {
  }

  /** The loop of `visit` over the dependents of `m`. */
  method VisitDependents(r: Registry, m: string, dependents: seq<string>, visited: set<string>, out: seq<string>)
    returns (visited': set<string>, out': seq<string>)
    requires Inv(r) && m in r.order && SearchInv(r, visited, out) && dependents == Dependents(r, m)
    requires forall v :: v in Stack(visited, out) ==> Position(r.order, v) <= Position(r.order, m)
    ensures SearchInv(r, visited', out') && out <= out' && visited <= visited'
    ensures Stack(visited', out') == Stack(visited, out)
    ensures forall d :: d in dependents ==> d in out'
    decreases (set x | x in r.order) - visited, 2
  {
    visited', out' := visited, out;
    for i := 0 to |dependents|
      invariant SearchInv(r, visited', out') && out <= out' && visited <= visited'
      invariant Stack(visited', out') == Stack(visited, out)
      invariant forall d :: d in dependents[..i] ==> d in out'
    {
      DependentsAfter(r, m, dependents[i]);
      ghost var before := out';
      visited', out' := Visit(r, dependents[i], visited', out');
      assert dependents[..i + 1] == dependents[..i] + [dependents[i]];
      assert forall d :: d in before ==> d in out';
    }
    assert dependents[..|dependents|] == dependents;
  }

  function Reversed(s: seq<string>): seq<string> {
    seq(|s|, i requires 0 <= i < |s| => s[|s| - 1 - i])
  }

  /** `calculateStopOrder`: every registered module once.  The search lists dependents first, and the
      final reversal turns that round: each module comes after everything it depends on. */
  method CalculateStopOrder(r: Registry) returns (order: seq<string>)
    requires Inv(r)
    ensures NoRepeats(order) && forall m :: m in order <==> m in r.order
    ensures forall m, d :: m in r.deps && d in r.deps[m] ==> Before(order, d, m)
  {
    var visited: set<string>, out := {}, [];
    for i := 0 to |r.order|
      invariant SearchInv(r, visited, out)
      invariant Stack(visited, out) == {}
      invariant forall m :: m in r.order[..i] ==> m in out
    {
      ghost var before := out;
      visited, out := Visit(r, r.order[i], visited, out);
      assert forall d :: d in before ==> d in out;
      assert r.order[..i + 1] == r.order[..i] + [r.order[i]];
    }
    assert r.order[..|r.order|] == r.order;
    order := Reversed(out);
    ReversedFacts(out);
    forall m, d | m in r.deps && d in r.deps[m] ensures Before(order, d, m) {
      assert Before(r.order, d, m);
      ReversedStopOrder(r, out, m, d);
    }
  }

  lemma ReversedFacts(s: seq<string>)
    ensures forall m :: m in Reversed(s) <==> m in s
    ensures NoRepeats(s) ==> NoRepeats(Reversed(s))
  {
    forall m | m in s ensures m in Reversed(s) {
      var i :| 0 <= i < |s| && s[i] == m;
      assert Reversed(s)[|s| - 1 - i] == m;
    }
  }

  lemma ReversedBefore(s: seq<string>, i: nat, j: nat)
    requires j < i < |s|
    ensures Before(Reversed(s), s[i], s[j])
  {
    assert Reversed(s)[|s| - 1 - i] == s[i] && Reversed(s)[|s| - 1 - j] == s[j];
  }

  lemma ReversedStopOrder(r: Registry, out: seq<string>, m: string, d: string)
    requires DependentsFirst(r, out) && m in r.deps && d in r.deps[m] && d in out
    ensures Before(Reversed(out), d, m)
  {
    var i :| 0 <= i < |out| && out[i] == d;
    assert m in out[..i];
    var j :| 0 <= j < i && out[j] == m;
    ReversedBefore(out, i, j);
  }

  /** Every module before everything it depends on: what stopping "in reverse dependency order" asks. */
  ghost predicate StopsDependentsFirst(r: Registry, order: seq<string>) {
    forall m, d :: m in r.deps && d in r.deps[m] ==> Before(order, m, d)
  }

  /** The returned order meets that exactly when no module has a dependency. */
  lemma DocumentedOrderIff(r: Registry, order: seq<string>)
    requires Inv(r) && NoRepeats(order)
    requires forall m, d :: m in r.deps && d in r.deps[m] ==> Before(order, d, m)
    ensures StopsDependentsFirst(r, order) <==> forall m :: m in r.deps ==> r.deps[m] == []
  {
    if m :| m in r.deps && r.deps[m] != [] {
      var d := r.deps[m][0];
      BeforePosition(order, d, m);
      if Before(order, m, d) { BeforePosition(order, m, d); }
      assert !Before(order, m, d);
    }
  }

  lemma PairIsReachable()
    ensures AfterRun([DoRegister("a", []), DoRegister("b", ["a"])]) == Pair
  {
    var run := [DoRegister("a", []), DoRegister("b", ["a"])];
    assert run[..1] == [DoRegister("a", [])] && run[..1][..0] == [];
    assert AfterRun(run[..1]) == Registry(["a"], map["a" := []]);
  }

  /** Two registrations are enough: whatever order the search may return for them, "a" stops first. */
  lemma DocumentedOrderFails(order: seq<string>)
    requires NoRepeats(order) && forall m :: m in order <==> m in Pair.order
    requires forall m, d :: m in Pair.deps && d in Pair.deps[m] ==> Before(order, d, m)
    ensures AfterRun([DoRegister("a", []), DoRegister("b", ["a"])]) == Pair && !StopsDependentsFirst(Pair, order)
  {
    PairIsReachable();
    RunKeepsInv([DoRegister("a", []), DoRegister("b", ["a"])]);
    assert Pair.deps["b"] != [];
    DocumentedOrderIff(Pair, order);
  }

  // ---- The registry object --------------------------------------------------------------------------

  datatype ModuleState = Running | Failed

  /** Done, or why the call throws; a module whose initialisation fails stays registered. */
  datatype Outcome = Done | NotStarted | Rejected(error: Error) | InitializationFailed

  class ApplicationRegistry {
    var isStarted: bool
    var order: seq<string>
    var dependencies: map<string, seq<string>>
    var moduleStates: map<string, ModuleState>

    ghost function State(): Registry
      reads this
    {
      Registry(order, dependencies)
    }

    ghost predicate Valid()
      reads this
    {
      Inv(State()) && moduleStates.Keys == dependencies.Keys
    }

    constructor ()
      ensures Valid() && State() == Empty && !isStarted
    {
      isStarted, order, dependencies, moduleStates := false, [], map[], map[];
    }

    /** The loop that checks the dependencies. */
    method FindUnknown(deps: seq<string>) returns (unknown: Option<string>)
      requires Valid()
      ensures unknown == FirstUnknown(State(), deps)
    {
      for i := 0 to |deps|
        invariant FirstUnknown(State(), deps) == FirstUnknown(State(), deps[i..])
      {
        if deps[i] !in dependencies { return Some(deps[i]); }
      }
      unknown := None;
    }

    /** `initializes` is false when the module's own `initialize` or `start` throws. */
    method RegisterModule(id: string, deps: seq<string>, initializes: bool) returns (outcome: Outcome)
      requires Valid()
      modifies this
      ensures Valid() && isStarted == old(isStarted)
      ensures !isStarted ==> outcome == NotStarted && State() == old(State()) && moduleStates == old(moduleStates)
      ensures isStarted ==>
        var (r, error) := Register(old(State()), id, deps);
        && State() == r
        && outcome == match error {
             case Some(e) => Rejected(e)
             case None => if initializes then Done else InitializationFailed
           }
        && moduleStates ==
             if outcome.Rejected? then old(moduleStates)
             else old(moduleStates)[id := if initializes then Running else Failed]
      ensures outcome.Rejected? <==> isStarted && (id in old(order) || !AllKnown(old(State()), deps))
    {
      RegisterIff(State(), id, deps);
      RegisterKeepsInv(State(), id, deps);
      if !isStarted { return NotStarted; }
      if id in dependencies { return Rejected(AlreadyRegistered); }
      var unknown := FindUnknown(deps);
      if unknown.Some? { return Rejected(UnknownDependency(unknown.value)); }
      order, dependencies := order + [id], dependencies[id := deps];
      if initializes {
        moduleStates := moduleStates[id := Running];
        outcome := Done;
      } else {
        moduleStates := moduleStates[id := Failed];
        outcome := InitializationFailed;
      }
    }

    method Drop(id: string)
      requires Valid() && Unneeded(State(), id)
      modifies this`order, this`dependencies, this`moduleStates
      ensures Valid() && State() == Dropped(old(State()), id) && moduleStates == old(moduleStates) - {id}
    {
      DroppedKeepsInv(State(), id);
      order, dependencies, moduleStates := Removed(order, id), dependencies - {id}, moduleStates - {id};
    }

    method UnregisterModule(id: string, stops: bool) returns (outcome: Outcome)
      requires Valid()
      modifies this
      ensures Valid() && isStarted == old(isStarted)
      ensures var stopped := stops || (id in old(moduleStates) && old(moduleStates)[id] != Running);
              var (r, error) := Unregister(old(State()), id, stopped);
              && State() == r
              && outcome == match error { case Some(e) => Rejected(e) case None => Done }
              && moduleStates == if outcome == Done then old(moduleStates) - {id} else old(moduleStates)
      ensures outcome == Done <==>
        && id in old(order) && old(Unneeded(State(), id))
        && (stops || (id in old(moduleStates) && old(moduleStates)[id] != Running))
    {
      UnregisterIff(State(), id, stops || (id in moduleStates && moduleStates[id] != Running));
      if id !in dependencies { return Rejected(NotRegistered); }
      var dependents := GetDependents(Registry(order, dependencies), id);
      if |dependents| > 0 { return Rejected(HasDependents(dependents)); }
      if moduleStates[id] == Running && !stops { return Rejected(StopFailed); }
      NoDependents(State(), id);
      Drop(id);
      outcome := Done;
    }
  }
}
