/** Adding missing dependencies to a recipe list: internal/core/deps.go. */
module Resolve {
  import opened Recipes
  import TopoSort

  /** What recipes.ManifestFor finds on disk for a name; no entry is no recipe. */
  datatype Lookup = Found(m: Manifest) | Unreadable
  type Catalog = map<string, Lookup>

  predicate IsRecipe(catalog: Catalog, n: string) { n in catalog && catalog[n].Found? }

  function Load(catalog: Catalog, names: seq<string>): Manifests {
    map n | n in names && IsRecipe(catalog, n) :: catalog[n].m
  }

  // ---- CheckDependencies --------------------------------------------------------

  /** The list stands on its own: recipes only, every dependency listed, no cycle. */
  ghost predicate Accepted(catalog: Catalog, names: seq<string>) {
    && (forall n | n in names :: IsRecipe(catalog, n))
    && (forall n, d | n in names && IsRecipe(catalog, n) && d in catalog[n].m.depends :: d in names)
    && !HasCycle(Load(catalog, names), names)
  }

  datatype Verdict = Fine | NoManifest(name: string) | Missing(name: string, dep: string) | Cyclic(path: seq<string>)

  /** CheckDependencies. */
  method CheckDependencies(catalog: Catalog, names: seq<string>) returns (v: Verdict)
    ensures v == Fine <==> Accepted(catalog, names)
    ensures v == Fine ==> forall n | n in names ::
      n in catalog && catalog[n].Found? && forall d | d in catalog[n].m.depends :: d in names
    ensures v.NoManifest? ==> v.name in names && !IsRecipe(catalog, v.name)
    ensures v.Missing? ==>
      v.name in names && IsRecipe(catalog, v.name) && v.dep in catalog[v.name].m.depends && v.dep !in names
    ensures v.Cyclic? ==> IsCycle(Load(catalog, names), v.path)
  {
    hide HasCycle, IsCycle, Reachable, TopoSort.IsOrderOf;
    for i := 0 to |names|
      invariant forall j | 0 <= j < i :: IsRecipe(catalog, names[j])
    {
      if !IsRecipe(catalog, names[i]) { return NoManifest(names[i]); }
    }
    var manifests := Load(catalog, names);
    for i := 0 to |names|
      invariant forall j, d | 0 <= j < i && d in manifests[names[j]].depends :: d in names
    {
      var depends := manifests[names[i]].depends;
      for k := 0 to |depends|
        invariant forall d | d in depends[..k] :: d in names
      {
        if depends[k] !in names { return Missing(names[i], depends[k]); }
      }
      assert depends[..|depends|] == depends;
    }
    var r := TopoSort.Sort(names, manifests);
    if r.Cycle? { return Cyclic(r.path); }
    return Fine;
  }

  // ---- ResolveDependencies --------------------------------------------------------

  datatype Addition = Addition(recipe: string, requiredBy: string)
  datatype Resolution = Added(list: seq<Addition>) | Failed(why: Reason)
  datatype Reason =
    | NotFound(name: string)
    | NotARecipe(name: string, dep: string)
    | DoesNotFit(name: string, dep: string)
    | InCycle(path: seq<string>)

  function AllOf(catalog: Catalog): Manifests { map n | n in catalog && catalog[n].Found? :: catalog[n].m }

  /** What a failure says is so, and the recipe it blames is one that the names lead to. */
  ghost predicate Blames(catalog: Catalog, misfits: set<string>, names: seq<string>, why: Reason) {
    match why
    case NotFound(n) => n in names && !IsRecipe(catalog, n)
    case NotARecipe(n, d) => Asks(catalog, names, n, d) && d !in names && !IsRecipe(catalog, d)
    case DoesNotFit(n, d) => Asks(catalog, names, n, d) && d !in names && IsRecipe(catalog, d) && d in misfits
    case InCycle(path) => IsCycle(AllOf(catalog), path) && Reachable(AllOf(catalog), names, path[0])
  }

  ghost predicate Asks(catalog: Catalog, names: seq<string>, n: string, d: string) {
    IsRecipe(catalog, n) && d in catalog[n].m.depends && Reachable(AllOf(catalog), names, n)
  }

  function RecipesOf(list: seq<Addition>): seq<string> {
    seq(|list|, i requires 0 <= i < |list| => list[i].recipe)
  }

  /** A list that has the names, stands on its own, and adds nothing that does not
      fit the guest. `misfits` are the recipes recipes.MatchReason turns down. */
  ghost predicate Completes(catalog: Catalog, misfits: set<string>, names: seq<string>, more: seq<string>) {
    && (forall n | n in names :: n in more)
    && Accepted(catalog, more)
    && (forall n | n in more && n !in names :: n !in misfits)
  }

  /** Every addition is new, needed by a recipe listed before it, and says by whom. */
  ghost predicate WellFounded(catalog: Catalog, names: seq<string>, list: seq<Addition>) {
    && NoDuplicates(RecipesOf(list))
    && forall i | 0 <= i < |list| ::
         && list[i].recipe !in names && IsRecipe(catalog, list[i].recipe)
         && IsRecipe(catalog, list[i].requiredBy) && list[i].recipe in catalog[list[i].requiredBy].m.depends
         && (list[i].requiredBy in names || list[i].requiredBy in RecipesOf(list)[..i])
  }

  /** The worklist: manifests have been taken care of, have is all that is wanted. */
  datatype Work = Work(have: set<string>, manifests: Manifests, added: seq<Addition>, queue: seq<string>)

  /** The state between steps, while the dependencies `todo` of the recipe `name`
      are still to be looked at. */
  ghost predicate OnTrack(catalog: Catalog, misfits: set<string>, names: seq<string>, w: Work, name: string,
                          todo: seq<string>) {
    && (forall n :: n in w.have <==> n in names || n in RecipesOf(w.added))
    && (forall n :: n in w.have <==> n in w.manifests || n in w.queue)
    && (forall n | n in w.manifests :: IsRecipe(catalog, n) && w.manifests[n] == catalog[n].m)
    && (forall n, d | n in w.manifests && d in w.manifests[n].depends :: d in w.have || (n == name && d in todo))
    && (forall n | n in w.have && n !in names :: n !in misfits)
    && WellFounded(catalog, names, w.added)
  }

  /** Whatever completes the names has everything that is wanted so far. */
  ghost predicate Needed(catalog: Catalog, misfits: set<string>, names: seq<string>, have: set<string>) {
    forall more, n | Completes(catalog, misfits, names, more) && n in have :: n in more
  }

  ghost predicate Hopeless(catalog: Catalog, misfits: set<string>, names: seq<string>) {
    forall more :: !Completes(catalog, misfits, names, more)
  }

  lemma Starts(catalog: Catalog, misfits: set<string>, names: seq<string>)
    ensures OnTrack(catalog, misfits, names, Work(set n | n in names, map[], [], names), "", [])
    ensures Needed(catalog, misfits, names, set n | n in names)
  {
  }

  lemma Skips(catalog: Catalog, misfits: set<string>, names: seq<string>, w: Work)
    requires OnTrack(catalog, misfits, names, w, "", []) && w.queue != [] && w.queue[0] in w.manifests
    ensures OnTrack(catalog, misfits, names, w.(queue := w.queue[1..]), "", [])
  {
    hide WellFounded;
    assert w.queue == [w.queue[0]] + w.queue[1..];
  }

  lemma NameFails(catalog: Catalog, misfits: set<string>, names: seq<string>, w: Work)
    requires OnTrack(catalog, misfits, names, w, "", []) && Needed(catalog, misfits, names, w.have)
    requires w.queue != [] && !IsRecipe(catalog, w.queue[0])
    ensures Hopeless(catalog, misfits, names) && w.queue[0] in names
  {
    var name := w.queue[0];
    assert name in w.have;
    AddedAreRecipes(catalog, names, w.added);
    hide WellFounded;
    forall more ensures !Completes(catalog, misfits, names, more) {
      assert Completes(catalog, misfits, names, more) ==> name in more;
    }
  }

  lemma AddedAreRecipes(catalog: Catalog, names: seq<string>, list: seq<Addition>)
    requires WellFounded(catalog, names, list)
    ensures forall n | n in RecipesOf(list) :: IsRecipe(catalog, n)
  {
  }

  /** Every addition is one that the names lead to. */
  lemma {:induction false} AddedReachable(catalog: Catalog, names: seq<string>, list: seq<Addition>, i: nat)
    requires WellFounded(catalog, names, list) && i < |list|
    ensures Reachable(AllOf(catalog), names, list[i].recipe)
  {
    hide Reachable, NoDuplicates;
    var asker := list[i].requiredBy;
    if asker in names {
      ReachesItself(AllOf(catalog), names, asker);
    } else {
      var j :| 0 <= j < i && RecipesOf(list)[j] == asker;
      AddedReachable(catalog, names, list, j);
    }
    ReachesOn(AllOf(catalog), names, asker, list[i].recipe);
  }

  lemma HaveReachable(catalog: Catalog, misfits: set<string>, names: seq<string>, w: Work, name: string,
                      todo: seq<string>)
    requires OnTrack(catalog, misfits, names, w, name, todo)
    ensures forall n | n in w.have :: Reachable(AllOf(catalog), names, n)
  {
    hide Reachable, WellFounded;
    forall n | n in w.have ensures Reachable(AllOf(catalog), names, n) {
      if n in names {
        ReachesItself(AllOf(catalog), names, n);
      } else {
        var i :| 0 <= i < |w.added| && RecipesOf(w.added)[i] == n;
        AddedReachable(catalog, names, w.added, i);
      }
    }
  }

  /** The cycle found among what was collected is one that the names lead to. */
  lemma CycleIsToBlame(catalog: Catalog, misfits: set<string>, names: seq<string>, w: Work, path: seq<string>)
    requires OnTrack(catalog, misfits, names, w, "", []) && w.queue == []
    requires IsCycle(w.manifests, path) && Reachable(w.manifests, names + RecipesOf(w.added), path[0])
    ensures Blames(catalog, misfits, names, InCycle(path))
  {
    hide Reachable, OnTrack, IsCycle, RecipesOf;
    Collected(catalog, misfits, names, w);
    HaveReachable(catalog, misfits, names, w, "", []);
    CycleStays(w.manifests, AllOf(catalog), path);
    ClosedHoldsReachable(w.manifests, names + RecipesOf(w.added), w.have, path[0]);
  }

  lemma Collected(catalog: Catalog, misfits: set<string>, names: seq<string>, w: Work)
    requires OnTrack(catalog, misfits, names, w, "", []) && w.queue == []
    ensures forall n | n in names + RecipesOf(w.added) :: n in w.have
    ensures forall a, b | a in w.have && Edge(w.manifests, a, b) :: b in w.have
    ensures forall n | n in w.manifests :: n in AllOf(catalog) && AllOf(catalog)[n] == w.manifests[n]
  {
    hide WellFounded, RecipesOf;
  }

  lemma Opens(catalog: Catalog, misfits: set<string>, names: seq<string>, w: Work, name: string)
    requires OnTrack(catalog, misfits, names, w, "", []) && w.queue != [] && name == w.queue[0]
    requires name !in w.manifests && IsRecipe(catalog, name)
    ensures
      var m := catalog[name].m;
      OnTrack(catalog, misfits, names, Work(w.have, w.manifests[name := m], w.added, w.queue[1..]), name, m.depends)
  {
    hide WellFounded;
    assert w.queue == [w.queue[0]] + w.queue[1..];
  }

  lemma {:induction false} TakesDep(catalog: Catalog, misfits: set<string>, names: seq<string>, w: Work, name: string,
                                    todo: seq<string>)
    requires OnTrack(catalog, misfits, names, w, name, todo) && Needed(catalog, misfits, names, w.have)
    requires name in w.manifests && todo != [] && (forall d | d in todo :: d in w.manifests[name].depends)
    requires todo[0] !in w.have ==> IsRecipe(catalog, todo[0]) && todo[0] !in misfits
    ensures
      var dep := todo[0];
      var added := if dep in w.have then w.added else w.added + [Addition(dep, name)];
      && OnTrack(catalog, misfits, names, Work(w.have + {dep}, w.manifests, added, w.queue + [dep]), name, todo[1..])
      && Needed(catalog, misfits, names, w.have + {dep})
  {
    var dep := todo[0];
    DepNeeded(catalog, misfits, names, w, name, dep);
    if dep in w.have {
      DepKnown(catalog, misfits, names, w, name, todo);
    } else {
      DepAdded(catalog, misfits, names, w, name, todo);
    }
  }

  lemma DepKnown(catalog: Catalog, misfits: set<string>, names: seq<string>, w: Work, name: string, todo: seq<string>)
    requires OnTrack(catalog, misfits, names, w, name, todo) && todo != [] && todo[0] in w.have
    ensures
      var dep := todo[0];
      OnTrack(catalog, misfits, names, Work(w.have + {dep}, w.manifests, w.added, w.queue + [dep]), name, todo[1..])
  {
    hide WellFounded, RecipesOf;
    assert todo == [todo[0]] + todo[1..];
    assert w.have + {todo[0]} == w.have;
  }

  lemma {:induction false} DepAdded(catalog: Catalog, misfits: set<string>, names: seq<string>, w: Work, name: string,
                                    todo: seq<string>)
    requires OnTrack(catalog, misfits, names, w, name, todo)
    requires name in w.manifests && todo != [] && todo[0] in w.manifests[name].depends
    requires todo[0] !in w.have && todo[0] !in misfits && IsRecipe(catalog, todo[0])
    ensures
      var dep := todo[0];
      var added := w.added + [Addition(dep, name)];
      OnTrack(catalog, misfits, names, Work(w.have + {dep}, w.manifests, added, w.queue + [dep]), name, todo[1..])
  {
    hide WellFounded;
    var dep := todo[0];
    var added := w.added + [Addition(dep, name)];
    assert name in w.have;
    GrowsWell(catalog, names, w.added, Addition(dep, name));
    assert RecipesOf(added) == RecipesOf(w.added) + [dep];
    hide RecipesOf;
    assert todo == [dep] + todo[1..];
  }

  lemma DepNeeded(catalog: Catalog, misfits: set<string>, names: seq<string>, w: Work, name: string, dep: string)
    requires Needed(catalog, misfits, names, w.have) && name in w.have
    requires IsRecipe(catalog, name) && dep in catalog[name].m.depends
    ensures Needed(catalog, misfits, names, w.have + {dep})
  {
  }

  lemma GrowsWell(catalog: Catalog, names: seq<string>, list: seq<Addition>, a: Addition)
    requires WellFounded(catalog, names, list)
    requires a.recipe !in names && a.recipe !in RecipesOf(list) && IsRecipe(catalog, a.recipe)
    requires IsRecipe(catalog, a.requiredBy) && a.recipe in catalog[a.requiredBy].m.depends
    requires a.requiredBy in names || a.requiredBy in RecipesOf(list)
    ensures WellFounded(catalog, names, list + [a])
  {
    var all := list + [a];
    assert RecipesOf(all) == RecipesOf(list) + [a.recipe];
    forall i | 0 <= i < |all|
      ensures all[i].requiredBy in names || all[i].requiredBy in RecipesOf(all)[..i]
    {
      assert RecipesOf(all)[..i] == RecipesOf(list)[..i];
      if i == |list| { assert RecipesOf(list)[..i] == RecipesOf(list); }
    }
  }

  lemma DepFails(catalog: Catalog, misfits: set<string>, names: seq<string>, w: Work, name: string, dep: string)
    requires Needed(catalog, misfits, names, w.have) && name in w.have
    requires IsRecipe(catalog, name) && dep in catalog[name].m.depends && dep !in names
    requires !IsRecipe(catalog, dep) || dep in misfits
    ensures Hopeless(catalog, misfits, names)
  {
    forall more ensures !Completes(catalog, misfits, names, more) {
      assert Completes(catalog, misfits, names, more) ==> name in more;
    }
  }

  lemma LoadedAll(catalog: Catalog, misfits: set<string>, names: seq<string>, w: Work)
    requires OnTrack(catalog, misfits, names, w, "", []) && w.queue == []
    ensures
      var all := names + RecipesOf(w.added);
      && w.manifests == Load(catalog, all)
      && (forall n :: n in w.have <==> n in all)
      && (forall n | n in all :: IsRecipe(catalog, n))
      && (forall n, d | n in all && d in catalog[n].m.depends :: d in all)
  {
    hide WellFounded;
  }

  lemma Finishes(catalog: Catalog, misfits: set<string>, names: seq<string>, w: Work)
    requires OnTrack(catalog, misfits, names, w, "", []) && w.queue == [] && Needed(catalog, misfits, names, w.have)
    requires !HasCycle(w.manifests, names + RecipesOf(w.added))
    ensures Completes(catalog, misfits, names, names + RecipesOf(w.added))
    ensures forall more, n | Completes(catalog, misfits, names, more) && n in RecipesOf(w.added) :: n in more
    ensures WellFounded(catalog, names, w.added)
  {
    hide WellFounded, HasCycle;
    LoadedAll(catalog, misfits, names, w);
  }

  lemma {:induction false} CycleFails(catalog: Catalog, misfits: set<string>, names: seq<string>, w: Work)
    requires OnTrack(catalog, misfits, names, w, "", []) && w.queue == [] && Needed(catalog, misfits, names, w.have)
    requires HasCycle(w.manifests, names + RecipesOf(w.added))
    ensures Hopeless(catalog, misfits, names)
  {
    LoadedAll(catalog, misfits, names, w);
    var all := names + RecipesOf(w.added);
    var c :| IsCycle(w.manifests, c) && Reachable(w.manifests, all, c[0]);
    assert Edge(w.manifests, c[0], c[1]);
    forall more ensures !Completes(catalog, misfits, names, more) {
      if Completes(catalog, misfits, names, more) {
        assert forall n | n in all :: n in more;
        CycleStays(w.manifests, Load(catalog, more), c);
        ReachesItself(Load(catalog, more), more, c[0]);
        assert HasCycle(Load(catalog, more), more);
      }
    }
  }

  lemma CycleStays(ms: Manifests, bigger: Manifests, c: seq<string>)
    requires IsCycle(ms, c)
    requires forall n | n in ms :: n in bigger && bigger[n] == ms[n]
    ensures IsCycle(bigger, c)
  {
    forall i | 0 <= i < |c| - 1 ensures Edge(bigger, c[i], c[i + 1]) { assert Edge(ms, c[i], c[i + 1]); }
  }

  predicate Adds(list: seq<Addition>, n: string) { exists i | 0 <= i < |list| :: list[i].recipe == n }

  /** An addition is new, fits the guest, and is a dependency of the recipe it names,
      which is one of the names or was added before it. */
  predicate RightAddition(catalog: Catalog, misfits: set<string>, names: seq<string>, list: seq<Addition>, i: nat)
    requires i < |list|
  {
    var a := list[i];
    && a.recipe !in names && a.recipe !in misfits && (forall j | 0 <= j < i :: list[j].recipe != a.recipe)
    && a.requiredBy in catalog && catalog[a.requiredBy].Found? && a.recipe in catalog[a.requiredBy].m.depends
    && (a.requiredBy in names || exists j | 0 <= j < i :: list[j].recipe == a.requiredBy)
  }

  lemma AdditionsAreRight(catalog: Catalog, misfits: set<string>, names: seq<string>, list: seq<Addition>)
    requires Completes(catalog, misfits, names, names + RecipesOf(list)) && WellFounded(catalog, names, list)
    ensures forall i | 0 <= i < |list| :: RightAddition(catalog, misfits, names, list, i)
    ensures forall n | n in names || Adds(list, n) ::
      n in catalog && catalog[n].Found? && forall d | d in catalog[n].m.depends :: d in names || Adds(list, d)
  {
    hide HasCycle;
    var all := names + RecipesOf(list);
    forall i | 0 <= i < |list| ensures RightAddition(catalog, misfits, names, list, i) {
      assert list[i].recipe == RecipesOf(list)[i] && RecipesOf(list)[i] in all;
      forall j | 0 <= j < i ensures list[j].recipe != list[i].recipe {
        assert RecipesOf(list)[j] != RecipesOf(list)[i];
      }
      if list[i].requiredBy !in names {
        var j :| 0 <= j < i && RecipesOf(list)[..i][j] == list[i].requiredBy;
        assert list[j].recipe == list[i].requiredBy;
      }
    }
    forall n ensures n in names || Adds(list, n) <==> n in all {
      if n in RecipesOf(list) {
        var i :| 0 <= i < |list| && RecipesOf(list)[i] == n;
        assert list[i].recipe == n;
      }
      if Adds(list, n) {
        var i :| 0 <= i < |list| && list[i].recipe == n;
        assert RecipesOf(list)[i] == n;
      }
    }
  }

  /** ResolveDependencies. It succeeds whenever the names can be completed at all,
      and then with the least completion. */
  method ResolveDependencies(catalog: Catalog, misfits: set<string>, names: seq<string>) returns (r: Resolution)
    ensures r.Added? <==> !Hopeless(catalog, misfits, names)
    ensures r.Added? ==> Completes(catalog, misfits, names, names + RecipesOf(r.list))
    ensures r.Added? ==>
      forall more, n | Completes(catalog, misfits, names, more) && n in RecipesOf(r.list) :: n in more
    ensures r.Added? ==> WellFounded(catalog, names, r.list)
    ensures r.Added? ==> forall i | 0 <= i < |r.list| :: RightAddition(catalog, misfits, names, r.list, i)
    ensures r.Added? ==> forall n | n in names || Adds(r.list, n) ::
      n in catalog && catalog[n].Found? && forall d | d in catalog[n].m.depends :: d in names || Adds(r.list, d)
    ensures r.Failed? ==> Blames(catalog, misfits, names, r.why)
  {
    hide OnTrack, Needed, Completes, WellFounded, HasCycle, Reachable, RightAddition, Adds;
    var have := set n | n in names;
    var manifests: Manifests := map[];
    var added: seq<Addition> := [];
    var queue := names;
    Starts(catalog, misfits, names);
    while queue != []
      invariant OnTrack(catalog, misfits, names, Work(have, manifests, added, queue), "", [])
      invariant Needed(catalog, misfits, names, have)
      invariant manifests.Keys <= catalog.Keys
      decreases catalog.Keys - manifests.Keys, |queue|
    {
      var name := queue[0];
      ghost var before := Work(have, manifests, added, queue);
      queue := queue[1..];
      if name in manifests {
        Skips(catalog, misfits, names, before);
        continue;
      }
      if !IsRecipe(catalog, name) {
        NameFails(catalog, misfits, names, before);
        return Failed(NotFound(name));
      }
      Opens(catalog, misfits, names, before, name);
      var m := catalog[name].m;
      assert name in catalog.Keys - manifests.Keys;
      manifests := manifests[name := m];
      assert catalog.Keys - manifests.Keys == catalog.Keys - before.manifests.Keys - {name};
      for i := 0 to |m.depends|
        invariant OnTrack(catalog, misfits, names, Work(have, manifests, added, queue), name, m.depends[i..])
        invariant Needed(catalog, misfits, names, have)
      {
        var dep := m.depends[i];
        ghost var w := Work(have, manifests, added, queue);
        Wanted(catalog, misfits, names, w, name, m.depends[i..]);
        if dep !in have {
          if !IsRecipe(catalog, dep) || dep in misfits {
            DepFails(catalog, misfits, names, w, name, dep);
            HaveReachable(catalog, misfits, names, w, name, m.depends[i..]);
            return Failed(if IsRecipe(catalog, dep) then DoesNotFit(name, dep) else NotARecipe(name, dep));
          }
          added := added + [Addition(dep, name)];
        }
        TakesDep(catalog, misfits, names, w, name, m.depends[i..]);
        have := have + {dep};
        queue := queue + [dep];
        assert m.depends[i..][1..] == m.depends[i + 1..];
      }
      Closes(catalog, misfits, names, Work(have, manifests, added, queue), name);
    }
    ghost var w := Work(have, manifests, added, queue);
    var all := names + RecipesOf(added);
    var r' := TopoSort.Sort(all, manifests);
    if r'.Cycle? {
      CycleFails(catalog, misfits, names, w);
      CycleIsToBlame(catalog, misfits, names, w, r'.path);
      return Failed(InCycle(r'.path));
    }
    Finishes(catalog, misfits, names, w);
    AdditionsAreRight(catalog, misfits, names, added);
    return Added(added);
  }

  lemma Wanted(catalog: Catalog, misfits: set<string>, names: seq<string>, w: Work, name: string, todo: seq<string>)
    requires OnTrack(catalog, misfits, names, w, name, todo)
    ensures forall n | n in names :: n in w.have
    ensures forall n | n in w.manifests :: n in w.have
  {
  }

  lemma Closes(catalog: Catalog, misfits: set<string>, names: seq<string>, w: Work, name: string)
    requires OnTrack(catalog, misfits, names, w, name, [])
    ensures OnTrack(catalog, misfits, names, w, "", [])
  {
    hide WellFounded;
  }
}
