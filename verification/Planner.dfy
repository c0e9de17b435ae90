/** Planning and recording a recipe run: internal/core/apply.go. */
module Planner {
  import opened Recipes
  import TopoSort

  /** recipeHashFor, taken as given for every recipe of the VM. */
  datatype Hash = Hash(value: string) | HashFailed

  /** What the VM has recorded for a recipe that ran. */
  datatype Applied = Applied(hash: string, scriptHash: string)

  /** Everything a plan reads besides the VM's record. */
  datatype Inputs = Inputs(snapshot: Manifests, hashes: map<string, Hash>, scriptHashes: map<string, Hash>)

  datatype Reason =
    | EveryTime | NamedExplicitly | NotSelected
    | AlreadyApplied | ParamsChanged | ScriptChanged | NeverApplied
  datatype Decision = Decision(name: string, run: bool, reason: Reason)
  datatype Plan = Plan(decisions: seq<Decision>) | Refused(why: Problem)
  datatype Problem =
    | NotFound(name: string) | Cyclic(path: seq<string>) | NoHash(name: string) | Unmet(name: string, dep: string)

  function HashOf(hashes: map<string, Hash>, n: string): Hash { if n in hashes then hashes[n] else HashFailed }

  /** A recipe is due, by its run mode alone. */
  predicate Due(inp: Inputs, applied: map<string, Applied>, explicit: set<string>, n: string)
    requires n in inp.snapshot
  {
    match inp.snapshot[n].run
    case Always => true
    case Manual => n in explicit
    case Once => n !in applied || HashOf(inp.hashes, n) != Hash(applied[n].hash)
  }

  /** A recipe whose hash has to be compared but cannot be computed. */
  predicate Stuck(inp: Inputs, applied: map<string, Applied>, n: string)
    requires n in inp.snapshot
  {
    inp.snapshot[n].run == Once && n in applied && HashOf(inp.hashes, n) == HashFailed
  }

  function Only(inp: Inputs, targets: seq<string>): Manifests {
    map n | n in targets && n in inp.snapshot :: inp.snapshot[n]
  }

  predicate MetBy(applied: map<string, Applied>, running: set<string>, d: string) { d in running || d in applied }

  function DueTargets(inp: Inputs, applied: map<string, Applied>, explicit: set<string>,
                      targets: seq<string>): set<string> {
    set n | n in targets && n in inp.snapshot && Due(inp, applied, explicit, n)
  }

  /** When a run is possible, in terms that know no order: the recipes exist, do
      not depend on each other in a circle, and every dependency of one that is
      due is due itself or has been applied. */
  ghost predicate Runnable(inp: Inputs, applied: map<string, Applied>, explicit: set<string>, targets: seq<string>) {
    && (forall n | n in targets :: n in inp.snapshot && !Stuck(inp, applied, n))
    && !HasCycle(Only(inp, targets), targets)
    && var due := DueTargets(inp, applied, explicit, targets);
       forall n, d | n in due && d in inp.snapshot[n].depends :: MetBy(applied, due, d)
  }

  function Decide(inp: Inputs, applied: map<string, Applied>, explicit: set<string>, n: string): Decision
    requires n in inp.snapshot
  {
    match inp.snapshot[n].run
    case Always => Decision(n, true, EveryTime)
    case Manual => if n in explicit then Decision(n, true, NamedExplicitly) else Decision(n, false, NotSelected)
    case Once =>
      if n !in applied then Decision(n, true, NeverApplied)
      else if HashOf(inp.hashes, n) == Hash(applied[n].hash) then Decision(n, false, AlreadyApplied)
      else if applied[n].scriptHash != "" && HashOf(inp.scriptHashes, n) == Hash(applied[n].scriptHash)
        then Decision(n, true, ParamsChanged)
      else Decision(n, true, ScriptChanged)
  }

  lemma DecideIsDue(inp: Inputs, applied: map<string, Applied>, explicit: set<string>, n: string)
    requires n in inp.snapshot
    ensures Decide(inp, applied, explicit, n).run == Due(inp, applied, explicit, n)
    ensures Decide(inp, applied, explicit, n).name == n
  {
  }

  function NamesOf(ds: seq<Decision>): seq<string> {
    seq(|ds|, i requires 0 <= i < |ds| => ds[i].name)
  }

  /** filterByRunMode: the names that run, in run order. */
  function Kept(ds: seq<Decision>): seq<string> {
    if ds == [] then []
    else Kept(ds[..|ds| - 1]) + (if ds[|ds| - 1].run then [ds[|ds| - 1].name] else [])
  }

  lemma {:induction false} KeptHolds(ds: seq<Decision>, n: string)
    ensures n in Kept(ds) <==> exists i :: 0 <= i < |ds| && ds[i].name == n && ds[i].run
    decreases |ds|
  {
    if ds != [] {
      KeptHolds(ds[..|ds| - 1], n);
      var last := ds[|ds| - 1];
      if i :| 0 <= i < |ds| && ds[i].name == n && ds[i].run {
        if i < |ds| - 1 { assert ds[..|ds| - 1][i] == ds[i]; }
      }
      if n in Kept(ds[..|ds| - 1]) {
        var i :| 0 <= i < |ds| - 1 && ds[..|ds| - 1][i].name == n && ds[..|ds| - 1][i].run;
        assert ds[i].name == n && ds[i].run;
      }
    }
  }

  /** What a refusal says is so. */
  ghost predicate Blames(inp: Inputs, applied: map<string, Applied>, explicit: set<string>, targets: seq<string>,
                         why: Problem) {
    match why
    case NotFound(n) => n in targets && n !in inp.snapshot
    case Cyclic(path) => IsCycle(Only(inp, targets), path) && Reachable(Only(inp, targets), targets, path[0])
    case NoHash(n) => n in targets && n in inp.snapshot && Stuck(inp, applied, n)
    case Unmet(n, d) =>
      var due := DueTargets(inp, applied, explicit, targets);
      n in due && d in inp.snapshot[n].depends && !MetBy(applied, due, d)
  }

  /** Each target once, dependencies first. */
  ghost predicate InOrder(inp: Inputs, targets: seq<string>, order: seq<string>) {
    && NoDuplicates(order)
    && TopoSort.DependenciesFirst(Only(inp, targets), order)
    && forall n :: n in order <==> n in targets
  }

  /** What a plan says, given that there is one. */
  ghost predicate IsPlan(inp: Inputs, applied: map<string, Applied>, explicit: set<string>, targets: seq<string>,
                         ds: seq<Decision>) {
    && InOrder(inp, targets, NamesOf(ds))
    && (forall i | 0 <= i < |ds| ::
          ds[i].name in inp.snapshot
          && ds[i] == Decide(inp, applied, explicit, ds[i].name)
          && ds[i].run == Due(inp, applied, explicit, ds[i].name))
  }

  /** The reachable part of a set of targets is the targets. */
  lemma TargetsAreReachable(inp: Inputs, targets: seq<string>, n: string)
    requires forall t | t in targets :: t in inp.snapshot
    ensures Reachable(Only(inp, targets), targets, n) <==> n in targets
  {
    var ms := Only(inp, targets);
    if n in targets {
      ReachesItself(ms, targets, n);
    }
    if Reachable(ms, targets, n) {
      ClosedHoldsReachable(ms, targets, (set t | t in targets), n);
    }
  }

  lemma OrderIsTargets(inp: Inputs, targets: seq<string>, order: seq<string>)
    requires forall t | t in targets :: t in inp.snapshot
    requires TopoSort.IsOrderOf(Only(inp, targets), targets, order)
    ensures InOrder(inp, targets, order)
  {
    forall n ensures n in order <==> n in targets { TargetsAreReachable(inp, targets, n); }
  }

  /** In a topological order a dependency that is met at all is met by the
      recipes before its dependent. */
  lemma MetInOrder(inp: Inputs, applied: map<string, Applied>, explicit: set<string>, targets: seq<string>,
                   order: seq<string>, i: nat, d: string)
    requires forall t | t in targets :: t in inp.snapshot
    requires InOrder(inp, targets, order)
    requires i < |order| && d in inp.snapshot[order[i]].depends
    ensures
      var due := DueTargets(inp, applied, explicit, targets);
      var before := set n | n in order[..i] && n in due;
      MetBy(applied, due, d) <==> MetBy(applied, before, d)
  {
    var due := DueTargets(inp, applied, explicit, targets);
    assert order[i] in order;
    if d in due {
      assert Edge(Only(inp, targets), order[i], d);
    }
  }

  /** The dependency check of planRecipes for one recipe that runs. */
  method DependenciesMet(depends: seq<string>, applied: map<string, Applied>,
                         keptSet: set<string>) returns (met: bool, dep: string)
    ensures met <==> forall d | d in depends :: MetBy(applied, keptSet, d)
    ensures !met ==> dep in depends && !MetBy(applied, keptSet, dep)
  {
    for k := 0 to |depends|
      invariant forall d | d in depends[..k] :: MetBy(applied, keptSet, d)
    {
      if !MetBy(applied, keptSet, depends[k]) { return false, depends[k]; }
    }
    assert depends[..|depends|] == depends;
    return true, "";
  }

  /** Where the walk along the order is: ds decides its first i recipes, keptSet
      holds those of them that run, and their dependencies are met. */
  ghost predicate Walked(inp: Inputs, applied: map<string, Applied>, explicit: set<string>, targets: seq<string>,
                         order: seq<string>, i: nat, ds: seq<Decision>, keptSet: set<string>) {
    var due := DueTargets(inp, applied, explicit, targets);
    && i <= |order| && NamesOf(ds) == order[..i]
    && (forall j | 0 <= j < |order| :: order[j] in inp.snapshot)
    && (forall j | 0 <= j < i ::
          ds[j] == Decide(inp, applied, explicit, order[j]) && ds[j].run == Due(inp, applied, explicit, order[j])
          && !Stuck(inp, applied, order[j]))
    && keptSet == (set n | n in order[..i] && n in due)
    && (forall n, d | n in keptSet && d in inp.snapshot[n].depends :: MetBy(applied, due, d))
  }

  ghost predicate Sorted(inp: Inputs, targets: seq<string>, order: seq<string>) {
    && (forall t | t in targets :: t in inp.snapshot)
    && InOrder(inp, targets, order)
  }

  lemma WalkStarts(inp: Inputs, applied: map<string, Applied>, explicit: set<string>, targets: seq<string>,
                   order: seq<string>)
    requires Sorted(inp, targets, order)
    ensures Walked(inp, applied, explicit, targets, order, 0, [], {})
  {
    forall j | 0 <= j < |order| ensures order[j] in inp.snapshot { assert order[j] in order; }
  }

  lemma {:induction false} WalkSteps(inp: Inputs, applied: map<string, Applied>, explicit: set<string>,
                                     targets: seq<string>,
                                     order: seq<string>, i: nat, ds: seq<Decision>, keptSet: set<string>)
    requires Walked(inp, applied, explicit, targets, order, i, ds, keptSet)
    requires Sorted(inp, targets, order) && i < |order|
    requires !Stuck(inp, applied, order[i])
    requires Decide(inp, applied, explicit, order[i]).run ==>
      forall d | d in inp.snapshot[order[i]].depends :: MetBy(applied, keptSet, d)
    ensures
      var d := Decide(inp, applied, explicit, order[i]);
      Walked(inp, applied, explicit, targets, order, i + 1, ds + [d], if d.run then keptSet + {order[i]} else keptSet)
  {
    hide Stuck, Due;
    var name := order[i];
    DecideIsDue(inp, applied, explicit, name);
    hide Decide;
    assert name in order && order[..i + 1] == order[..i] + [name];
    assert NamesOf(ds + [Decide(inp, applied, explicit, name)]) == NamesOf(ds) + [name];
  }

  lemma {:induction false} WalkBlocks(inp: Inputs, applied: map<string, Applied>, explicit: set<string>,
                                      targets: seq<string>,
                                      order: seq<string>, i: nat, ds: seq<Decision>, keptSet: set<string>, d: string)
    requires Walked(inp, applied, explicit, targets, order, i, ds, keptSet)
    requires Sorted(inp, targets, order) && i < |order|
    requires
      || Stuck(inp, applied, order[i])
      || (&& Decide(inp, applied, explicit, order[i]).run
          && d in inp.snapshot[order[i]].depends && !MetBy(applied, keptSet, d))
    ensures !Runnable(inp, applied, explicit, targets)
    ensures
      var why := if Stuck(inp, applied, order[i]) then NoHash(order[i]) else Unmet(order[i], d);
      Blames(inp, applied, explicit, targets, why)
  {
    hide HasCycle, Stuck, Due;
    var name := order[i];
    assert name in order;
    if !Stuck(inp, applied, name) {
      DecideIsDue(inp, applied, explicit, name);
      hide Decide;
      MetInOrder(inp, applied, explicit, targets, order, i, d);
    }
  }

  lemma {:induction false} WalkEnds(inp: Inputs, applied: map<string, Applied>, explicit: set<string>,
                                    targets: seq<string>,
                                    order: seq<string>, ds: seq<Decision>, keptSet: set<string>)
    requires Walked(inp, applied, explicit, targets, order, |order|, ds, keptSet) && Sorted(inp, targets, order)
    requires !HasCycle(Only(inp, targets), targets)
    ensures Runnable(inp, applied, explicit, targets) && IsPlan(inp, applied, explicit, targets, ds)
  {
    hide HasCycle, TopoSort.DependenciesFirst, Stuck, Due, Decide;
    assert order[..|order|] == order;
    forall n | n in targets ensures n in inp.snapshot && !Stuck(inp, applied, n) {
      var j :| 0 <= j < |order| && order[j] == n;
    }
    forall i | 0 <= i < |ds| ensures ds[i].name == order[i] { assert NamesOf(ds)[i] == order[i]; }
  }

  /** The decision on a recipe: an always recipe runs, a manual one when it is named,
      a once recipe when it is not recorded or its hash is another; and why. */
  ghost predicate RightDecision(inp: Inputs, applied: map<string, Applied>, explicit: set<string>, d: Decision) {
    && d.name in inp.snapshot
    && var n := d.name;
       match inp.snapshot[n].run
       case Always => d.run && d.reason == EveryTime
       case Manual => d.run == (n in explicit) && d.reason == if n in explicit then NamedExplicitly else NotSelected
       case Once =>
         var same := n in applied && n in inp.hashes && inp.hashes[n] == Hash(applied[n].hash);
         var sameScript := n in applied && applied[n].scriptHash != "" &&
                           n in inp.scriptHashes && inp.scriptHashes[n] == Hash(applied[n].scriptHash);
         && d.run == !same
         && d.reason == if n !in applied then NeverApplied
                        else if same then AlreadyApplied
                        else if sameScript then ParamsChanged
                        else ScriptChanged
  }

  lemma PlanIsRight(inp: Inputs, applied: map<string, Applied>, explicit: set<string>, targets: seq<string>,
                    ds: seq<Decision>)
    requires IsPlan(inp, applied, explicit, targets, ds) && Runnable(inp, applied, explicit, targets)
    ensures forall i | 0 <= i < |ds| :: RightDecision(inp, applied, explicit, ds[i])
    ensures forall n :: n in targets <==> exists i :: 0 <= i < |ds| && ds[i].name == n
    ensures forall i, j | 0 <= i < j < |ds| :: ds[i].name != ds[j].name
    ensures forall i, d | 0 <= i < |ds| && d in inp.snapshot[ds[i].name].depends && d in targets ::
      exists j :: 0 <= j < i && ds[j].name == d
    ensures forall i, d | 0 <= i < |ds| && ds[i].run && d in inp.snapshot[ds[i].name].depends ::
      d in applied || exists j :: 0 <= j < i && ds[j].name == d && ds[j].run
  {
    forall n | n in targets ensures n in inp.snapshot {}
    hide Runnable;
    DecisionsAreRight(inp, applied, explicit, targets, ds);
    NamesListed(ds);
    forall i, j | 0 <= i < j < |ds| ensures ds[i].name != ds[j].name { assert NamesOf(ds)[i] != NamesOf(ds)[j]; }
    forall i, d | 0 <= i < |ds| && d in inp.snapshot[ds[i].name].depends && d in targets
      ensures exists j :: 0 <= j < i && ds[j].name == d
    {
      DependencyBefore(inp, applied, explicit, targets, ds, i, d);
    }
    forall i, d | 0 <= i < |ds| && ds[i].run && d in inp.snapshot[ds[i].name].depends
      ensures d in applied || exists j :: 0 <= j < i && ds[j].name == d && ds[j].run
    {
      DependencyRuns(inp, applied, explicit, targets, ds, i, d);
    }
  }

  lemma NamesListed(ds: seq<Decision>)
    ensures forall n :: n in NamesOf(ds) <==> exists i :: 0 <= i < |ds| && ds[i].name == n
  {
    forall i | 0 <= i < |ds| ensures ds[i].name in NamesOf(ds) { assert NamesOf(ds)[i] == ds[i].name; }
  }

  lemma DecisionsAreRight(inp: Inputs, applied: map<string, Applied>, explicit: set<string>, targets: seq<string>,
                          ds: seq<Decision>)
    requires IsPlan(inp, applied, explicit, targets, ds)
    ensures forall i | 0 <= i < |ds| :: RightDecision(inp, applied, explicit, ds[i])
  {
    hide InOrder;
  }

  lemma DependencyBefore(inp: Inputs, applied: map<string, Applied>, explicit: set<string>, targets: seq<string>,
                         ds: seq<Decision>, i: nat, d: string)
    requires IsPlan(inp, applied, explicit, targets, ds) && i < |ds|
    requires d in inp.snapshot[ds[i].name].depends && d in targets && d in inp.snapshot
    ensures exists j :: 0 <= j < i && ds[j].name == d
  {
    hide Decide, Due;
    var order := NamesOf(ds);
    assert order[i] == ds[i].name && order[i] in order;
    assert Edge(Only(inp, targets), order[i], d);
    var j :| 0 <= j < i && order[..i][j] == d;
    assert ds[j].name == order[j];
  }

  lemma DependencyRuns(inp: Inputs, applied: map<string, Applied>, explicit: set<string>, targets: seq<string>,
                       ds: seq<Decision>, i: nat, d: string)
    requires IsPlan(inp, applied, explicit, targets, ds) && Runnable(inp, applied, explicit, targets)
    requires i < |ds| && ds[i].run && d in inp.snapshot[ds[i].name].depends
    ensures d in applied || exists j :: 0 <= j < i && ds[j].name == d && ds[j].run
  {
    hide HasCycle, Due, Decide, TopoSort.DependenciesFirst;
    NamesListed(ds);
    var due := DueTargets(inp, applied, explicit, targets);
    assert ds[i].name in due;
    assert MetBy(applied, due, d);
    if d in due {
      DependencyBefore(inp, applied, explicit, targets, ds, i, d);
      var j :| 0 <= j < i && ds[j].name == d;
      assert ds[j].run == Due(inp, applied, explicit, d);
    }
  }

  /** planRecipes: its walk along the order succeeds exactly when the run is
      possible at all. */
  method PlanRecipes(inp: Inputs, applied: map<string, Applied>, targets: seq<string>,
                     explicit: set<string>) returns (p: Plan)
    ensures p.Plan? <==> Runnable(inp, applied, explicit, targets)
    ensures p.Plan? ==> IsPlan(inp, applied, explicit, targets, p.decisions)
    ensures p.Plan? ==>
      var ds := p.decisions;
      && (forall i | 0 <= i < |ds| :: RightDecision(inp, applied, explicit, ds[i]))
      && (forall n :: n in targets <==> exists i :: 0 <= i < |ds| && ds[i].name == n)
      && (forall i, j | 0 <= i < j < |ds| :: ds[i].name != ds[j].name)
      && (forall i, d | 0 <= i < |ds| && d in inp.snapshot[ds[i].name].depends && d in targets ::
            exists j :: 0 <= j < i && ds[j].name == d)
      && (forall i, d | 0 <= i < |ds| && ds[i].run && d in inp.snapshot[ds[i].name].depends ::
            d in applied || exists j :: 0 <= j < i && ds[j].name == d && ds[j].run)
    ensures p.Refused? ==> Blames(inp, applied, explicit, targets, p.why)
    ensures p.Refused? && p.why.NoHash? ==>
      var n := p.why.name;
      && n in targets && n in inp.snapshot && inp.snapshot[n].run == Once && n in applied
      && !(n in inp.hashes && inp.hashes[n].Hash?)
    ensures p.Refused? && p.why.Unmet? ==>
      var n, d := p.why.name, p.why.dep;
      && n in targets && n in inp.snapshot && d in inp.snapshot[n].depends && d !in applied
      && (d in targets && d in inp.snapshot ==> inp.snapshot[d].run == Manual && d !in explicit)
  {
    p := PlanTargets(inp, applied, targets, explicit);
    if p.Plan? { PlanIsRight(inp, applied, explicit, targets, p.decisions); }
    hide IsPlan, Runnable, RightDecision;
  }

  method PlanTargets(inp: Inputs, applied: map<string, Applied>, targets: seq<string>,
                     explicit: set<string>) returns (p: Plan)
    ensures p.Plan? <==> Runnable(inp, applied, explicit, targets)
    ensures p.Plan? ==> IsPlan(inp, applied, explicit, targets, p.decisions)
    ensures p.Refused? ==> Blames(inp, applied, explicit, targets, p.why)
  {
    hide HasCycle, TopoSort.IsOrderOf, Reachable, Due, Stuck, IsPlan;
    for i := 0 to |targets|
      invariant forall j | 0 <= j < i :: targets[j] in inp.snapshot
    {
      if targets[i] !in inp.snapshot { return Refused(NotFound(targets[i])); }
    }
    var manifests := Only(inp, targets);
    var sorted := TopoSort.Sort(targets, manifests);
    if sorted.Cycle? { return Refused(Cyclic(sorted.path)); }
    var order := sorted.names;
    OrderIsTargets(inp, targets, order);
    p := WalkOrder(inp, applied, targets, explicit, manifests, order);
  }

  /** The loop of planRecipes. */
  method WalkOrder(inp: Inputs, applied: map<string, Applied>, targets: seq<string>, explicit: set<string>,
                   manifests: Manifests, order: seq<string>) returns (p: Plan)
    requires manifests == Only(inp, targets) && Sorted(inp, targets, order) && !HasCycle(manifests, targets)
    ensures p.Plan? <==> Runnable(inp, applied, explicit, targets)
    ensures p.Plan? ==> IsPlan(inp, applied, explicit, targets, p.decisions)
    ensures p.Refused? ==> Blames(inp, applied, explicit, targets, p.why)
  {
    WalkStarts(inp, applied, explicit, targets, order);
    hide HasCycle, TopoSort.DependenciesFirst, Stuck, Due, Decide, IsPlan, Runnable, Walked, Blames;
    var keptSet: set<string> := {};
    var ds: seq<Decision> := [];
    for i := 0 to |order|
      invariant Walked(inp, applied, explicit, targets, order, i, ds, keptSet)
    {
      var name := order[i];
      assert name in order;
      var d := Decide(inp, applied, explicit, name);
      if Stuck(inp, applied, name) {
        WalkBlocks(inp, applied, explicit, targets, order, i, ds, keptSet, "");
        return Refused(NoHash(name));
      }
      if d.run {
        var met, dep := DependenciesMet(manifests[name].depends, applied, keptSet);
        if !met {
          WalkBlocks(inp, applied, explicit, targets, order, i, ds, keptSet, dep);
          return Refused(Unmet(name, dep));
        }
      }
      WalkSteps(inp, applied, explicit, targets, order, i, ds, keptSet);
      if d.run { keptSet := keptSet + {name}; }
      ds := ds + [d];
    }
    WalkEnds(inp, applied, explicit, targets, order, ds, keptSet);
    return Plan(ds);
  }

  // ---- recording a run ------------------------------------------------------------

  predicate Hashable(inp: Inputs, n: string) { HashOf(inp.hashes, n).Hash? && HashOf(inp.scriptHashes, n).Hash? }

  /** The record after every one of the names has run. */
  function Recorded(inp: Inputs, applied: map<string, Applied>, ran: set<string>): map<string, Applied>
    requires forall n | n in ran :: Hashable(inp, n)
  {
    map n | n in applied.Keys + ran ::
      if n in ran then
        assert Hashable(inp, n);
        Applied(HashOf(inp.hashes, n).value, HashOf(inp.scriptHashes, n).value)
      else applied[n]
  }

  function ToSet(names: seq<string>): set<string> { set n | n in names }

  /** What an Apply meets outside the planner. */
  datatype Weather = Weather(
    running: bool,      // the VM is up
    discovered: bool,   // looking for cloud-init's markers ended without an error
    found: map<string, Applied>,  // what they show to have run at first boot
    works: bool,        // every script succeeds
    reboots: bool,      // the reboot, if one is asked for, comes back
    healthy: bool,      // no health check fails
    saves: bool)        // vm.toml can be written

  /** There is something to run, and all goes well up to the saving of the record. */
  ghost predicate Completes(inp: Inputs, applied: map<string, Applied>, explicit: set<string>, targets: seq<string>,
                            w: Weather) {
    var due := DueTargets(inp, applied, explicit, targets);
    && w.running && w.discovered && Runnable(inp, applied, explicit, targets)
    && due != {} && w.works && (forall n | n in due :: Hashable(inp, n)) && w.reboots && w.saves
  }

  /** There is nothing to run. */
  ghost predicate NoOp(inp: Inputs, applied: map<string, Applied>, explicit: set<string>, targets: seq<string>,
                       w: Weather) {
    && w.running
    && (targets != [] ==>
          && w.discovered && Runnable(inp, applied, explicit, targets)
          && DueTargets(inp, applied, explicit, targets) == {})
  }

  /** What the record is taken to be: what cloud-init ran, if nothing is recorded yet. */
  function Known(applied: map<string, Applied>, targets: seq<string>, w: Weather): map<string, Applied> {
    if w.running && targets != [] && w.discovered && applied == map[] then w.found else applied
  }

  predicate Has(m: map<string, Applied>, n: string, a: Applied) { n in m && m[n] == a }

  /** What is newly recorded is a target that ran, with its current hashes: a manual one
      only if it was named. */
  predicate JustRan(inp: Inputs, targets: seq<string>, explicit: set<string>, w: Weather, n: string, a: Applied) {
    && w.running && w.discovered && w.works && w.reboots && w.saves
    && n in targets && n in inp.snapshot && (inp.snapshot[n].run == Manual ==> n in explicit)
    && n in inp.hashes && inp.hashes[n] == Hash(a.hash)
    && n in inp.scriptHashes && inp.scriptHashes[n] == Hash(a.scriptHash)
  }

  /** What a success says of a target: a once recipe is recorded with its current hash,
      an always one has run just now, and a manual one if it was named. */
  predicate UpToDate(inp: Inputs, explicit: set<string>, w: Weather, applied: map<string, Applied>, n: string) {
    && w.running && w.discovered && n in inp.snapshot
    && match inp.snapshot[n].run
       case Always => n in applied && w.works && w.reboots && w.saves && w.healthy
       case Once => n in applied && n in inp.hashes && inp.hashes[n] == Hash(applied[n].hash)
       case Manual => n in explicit ==> n in applied && w.works && w.reboots && w.saves && w.healthy
  }

  lemma NewlyRecorded(inp: Inputs, known: map<string, Applied>, explicit: set<string>, targets: seq<string>, w: Weather)
    requires Completes(inp, known, explicit, targets, w)
    ensures
      var after := Recorded(inp, known, DueTargets(inp, known, explicit, targets));
      forall n | n in after && !Has(known, n, after[n]) :: JustRan(inp, targets, explicit, w, n, after[n])
  {
    hide Runnable;
    var due := DueTargets(inp, known, explicit, targets);
    forall n | n in due ensures Hashable(inp, n) {}
  }

  lemma CompletedIsUpToDate(inp: Inputs, known: map<string, Applied>, explicit: set<string>, targets: seq<string>,
                            w: Weather)
    requires Completes(inp, known, explicit, targets, w) && w.healthy
    ensures
      var after := Recorded(inp, known, DueTargets(inp, known, explicit, targets));
      forall n | n in targets :: UpToDate(inp, explicit, w, after, n)
  {
    hide HasCycle;
    var due := DueTargets(inp, known, explicit, targets);
    forall n | n in due ensures Hashable(inp, n) {}
    forall n | n in targets ensures n in inp.snapshot && (n in due <==> Due(inp, known, explicit, n)) {}
  }

  lemma NoOpIsUpToDate(inp: Inputs, known: map<string, Applied>, explicit: set<string>, targets: seq<string>,
                       w: Weather)
    requires NoOp(inp, known, explicit, targets, w)
    ensures forall n | n in targets :: UpToDate(inp, explicit, w, known, n)
  {
    hide HasCycle;
    var due := DueTargets(inp, known, explicit, targets);
    forall n | n in targets ensures n in inp.snapshot && !Due(inp, known, explicit, n) {
      assert n !in due;
    }
  }

  class Vm {
    const recipes: seq<string>
    var applied: map<string, Applied>

    constructor (recipes: seq<string>)
      ensures this.recipes == recipes && applied == map[]
    {
      this.recipes, applied := recipes, map[];
    }

    /** resolveTargets: only what the VM has may be asked for; asking for nothing
        asks for all of it. */
    method ResolveTargets(only: seq<string>) returns (ok: bool, targets: seq<string>)
      ensures ok <==> forall n | n in only :: n in recipes
      ensures ok ==> targets == if only == [] then recipes else only
    {
      if only == [] { return true, recipes; }
      for i := 0 to |only|
        invariant forall j | 0 <= j < i :: only[j] in recipes
      {
        if only[i] !in recipes { return false, []; }
      }
      return true, only;
    }

    /** The recording part of applyLocked, up to the saving: a hash that cannot be
        computed ends it with an error. */
    method Record(inp: Inputs, ran: seq<string>) returns (ok: bool, next: map<string, Applied>)
      ensures ok <==> forall n | n in ran :: Hashable(inp, n)
      ensures ok ==> next == Recorded(inp, applied, ToSet(ran))
    {
      next := applied;
      for i := 0 to |ran|
        invariant forall n | n in ran[..i] :: Hashable(inp, n)
        invariant next == Recorded(inp, applied, ToSet(ran[..i]))
      {
        var hash, scriptHash := HashOf(inp.hashes, ran[i]), HashOf(inp.scriptHashes, ran[i]);
        assert Hashable(inp, ran[i]) <==> hash.Hash? && scriptHash.Hash?;
        if hash.HashFailed? || scriptHash.HashFailed? { return false, applied; }
        assert ran[..i + 1] == ran[..i] + [ran[i]];
        next := next[ran[i] := Applied(hash.value, scriptHash.value)];
      }
      assert ran[..|ran|] == ran;
      return true, next;
    }

    /** applyLocked: discover, plan, run, record, save. A failing health check makes it
        fail only after the record has been saved. */
    method Apply(inp: Inputs, only: seq<string>, w: Weather) returns (ok: bool)
      modifies this
      ensures
        var targets := if only == [] then recipes else only;
        var resolves := forall n | n in only :: n in recipes;
        var known := if resolves then Known(old(applied), targets, w) else old(applied);
        var completes := resolves && Completes(inp, known, ToSet(only), targets, w);
        && (ok <==> resolves && (NoOp(inp, known, ToSet(only), targets, w) || (completes && w.healthy)))
        && applied == if completes then Recorded(inp, known, DueTargets(inp, known, ToSet(only), targets)) else known
      ensures !w.running ==> !ok && applied == old(applied)
      ensures
        var targets := if only == [] then recipes else only;
        var discovers := w.running && w.discovered && targets != [] && (forall n | n in targets :: n in recipes);
        && (old(applied) == map[] && discovers && !w.works ==> applied == w.found)
        && (old(applied) != map[] && !w.works ==> applied == old(applied))
      ensures forall n | n in applied && !Has(old(applied), n, applied[n]) && !Has(w.found, n, applied[n]) ::
        JustRan(inp, if only == [] then recipes else only, ToSet(only), w, n, applied[n])
      ensures ok ==>
        forall n | n in (if only == [] then recipes else only) :: UpToDate(inp, ToSet(only), w, applied, n)
    {
      hide IsPlan, Runnable, Recorded, Kept, Hashable, DueTargets, JustRan, UpToDate, Blames, RightDecision;
      if !w.running { return false; }
      var resolved, targets := ResolveTargets(only);
      if !resolved { return false; }
      if targets == [] {
        NothingDue(inp, applied, ToSet(only));
        return true;
      }
      if !w.discovered { return false; }
      if applied == map[] { applied := w.found; }
      var plan := PlanRecipes(inp, applied, targets, ToSet(only));
      if plan.Refused? { return false; }
      var ran := Kept(plan.decisions);
      KeptAreDue(inp, applied, ToSet(only), targets, plan.decisions);
      assert ran == [] <==> ToSet(ran) == {} by { if ran != [] { assert ran[0] in ToSet(ran); } }
      if ran == [] {
        NoOpIsUpToDate(inp, applied, ToSet(only), targets, w);
        return true;
      }
      if !w.works { return false; }
      var hashed, next := Record(inp, ran);
      assert hashed <==> forall n | n in ToSet(ran) :: Hashable(inp, n);
      if !hashed { return false; }
      if !w.reboots || !w.saves { return false; }
      NewlyRecorded(inp, applied, ToSet(only), targets, w);
      if w.healthy { CompletedIsUpToDate(inp, applied, ToSet(only), targets, w); }
      applied := next;
      return w.healthy;
    }
  }

  lemma NothingDue(inp: Inputs, applied: map<string, Applied>, explicit: set<string>)
    ensures DueTargets(inp, applied, explicit, []) == {}
  {
  }

  // ---- running again ----------------------------------------------------------------

  /** The recipes that a plan keeps are those that are due. */
  lemma KeptIsDue(inp: Inputs, applied: map<string, Applied>, explicit: set<string>, targets: seq<string>,
                  ds: seq<Decision>, n: string)
    requires IsPlan(inp, applied, explicit, targets, ds)
    ensures n in Kept(ds) <==> n in DueTargets(inp, applied, explicit, targets)
  {
    KeptHolds(ds, n);
    forall i | 0 <= i < |ds| && ds[i].name == n
      ensures n in targets && n in inp.snapshot && ds[i].run == Due(inp, applied, explicit, n)
    {
      assert NamesOf(ds)[i] == n;
    }
    if n in targets {
      assert n in NamesOf(ds);
      var i :| 0 <= i < |ds| && NamesOf(ds)[i] == n;
      assert ds[i].name == n;
    }
  }

  lemma KeptAreDue(inp: Inputs, applied: map<string, Applied>, explicit: set<string>, targets: seq<string>,
                   ds: seq<Decision>)
    requires IsPlan(inp, applied, explicit, targets, ds)
    ensures ToSet(Kept(ds)) == DueTargets(inp, applied, explicit, targets)
  {
    hide IsPlan, Kept, DueTargets;
    forall n ensures n in Kept(ds) <==> n in DueTargets(inp, applied, explicit, targets) {
      KeptIsDue(inp, applied, explicit, targets, ds, n);
    }
  }

  /** Which recipes are due after a recorded run: those of the first run that are
      not "once" and are still asked for. */
  lemma DueAgain(inp: Inputs, applied: map<string, Applied>, explicit: set<string>, later: set<string>,
                 targets: seq<string>, n: string)
    requires later <= explicit
    requires forall r | r in DueTargets(inp, applied, explicit, targets) :: Hashable(inp, r)
    requires n in targets && n in inp.snapshot && !Stuck(inp, applied, n)
    ensures
      var after := Recorded(inp, applied, DueTargets(inp, applied, explicit, targets));
      && !Stuck(inp, after, n)
      && (Due(inp, after, later, n) <==> inp.snapshot[n].run != Once && Due(inp, applied, later, n))
      && (Due(inp, after, later, n) ==> Due(inp, applied, explicit, n))
  {
  }

  /** After a successful run with nothing changed on disk, the same targets can be
      run again; no "once" recipe then runs, and nothing that did not run before. */
  lemma {:induction false} RunsAgain(inp: Inputs, applied: map<string, Applied>, explicit: set<string>,
                                     later: set<string>, targets: seq<string>)
    requires Runnable(inp, applied, explicit, targets) && later <= explicit
    requires forall r | r in DueTargets(inp, applied, explicit, targets) :: Hashable(inp, r)
    ensures
      var due := DueTargets(inp, applied, explicit, targets);
      var after := Recorded(inp, applied, due);
      && Runnable(inp, after, later, targets)
      && (forall n | n in DueTargets(inp, after, later, targets) :: n in due && inp.snapshot[n].run != Once)
  {
    var due := DueTargets(inp, applied, explicit, targets);
    var after := Recorded(inp, applied, due);
    var due' := DueTargets(inp, after, later, targets);
    forall n | n in targets ensures !Stuck(inp, after, n) && (n in due' ==> n in due && inp.snapshot[n].run != Once) {
      DueAgain(inp, applied, explicit, later, targets, n);
    }
    forall n, d | n in due' && d in inp.snapshot[n].depends ensures MetBy(after, due', d) {
      assert MetBy(applied, due, d);
    }
  }
}
