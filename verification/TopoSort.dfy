/** The depth-first dependency sort of internal/recipes/deps.go. */
module TopoSort {
  import opened Recipes

  datatype Outcome = Order(names: seq<string>) | Cycle(path: seq<string>)

  /** Every dependency that is in the set stands before its dependent. */
  ghost predicate DependenciesFirst(ms: Manifests, order: seq<string>) {
    forall i, d | 0 <= i < |order| && Edge(ms, order[i], d) :: d in order[..i]
  }

  ghost predicate IsOrderOf(ms: Manifests, names: seq<string>, order: seq<string>) {
    && NoDuplicates(order)
    && DependenciesFirst(ms, order)
    && forall n :: n in order <==> Reachable(ms, names, n)
  }

  /** An order with dependencies first leaves no room for a cycle. */
  lemma {:induction false} PathRunsBackwards(ms: Manifests, order: seq<string>, p: seq<string>, i: nat) returns (j: nat)
    requires NoDuplicates(order) && DependenciesFirst(ms, order)
    requires IsPath(ms, p) && i < |order| && order[i] == p[0]
    ensures j <= i && order[j] == p[|p| - 1]
    ensures |p| > 1 ==> j < i
    decreases |p|
  {
    if |p| == 1 { return i; }
    assert Edge(ms, p[0], p[1]);
    var k :| 0 <= k < i && order[..i][k] == p[1];
    var q := p[1..];
    forall x | 0 <= x < |q| - 1 ensures Edge(ms, q[x], q[x + 1]) { assert Edge(ms, p[x + 1], p[x + 2]); }
    j := PathRunsBackwards(ms, order, q, k);
  }

  lemma OrderedMeansAcyclic(ms: Manifests, names: seq<string>, order: seq<string>)
    requires IsOrderOf(ms, names, order)
    ensures !HasCycle(ms, names)
  {
    if c :| IsCycle(ms, c) && Reachable(ms, names, c[0]) {
      var i :| 0 <= i < |order| && order[i] == c[0];
      var j := PathRunsBackwards(ms, order, c, i);
    }
  }

  datatype Color = Gray | Black

  /** The state of the search: white is the absence of a color. */
  datatype Search = Search(color: map<string, Color>, stack: seq<string>, order: seq<string>)

  ghost predicate Ok(ms: Manifests, names: seq<string>, s: Search) {
    && (forall n :: n in s.color <==> n in s.stack || n in s.order)
    && (forall n | n in s.stack :: s.color[n] == Gray)
    && (forall n | n in s.order :: s.color[n] == Black)
    && NoDuplicates(s.stack) && NoDuplicates(s.order)
    && (forall i | 0 <= i < |s.stack| - 1 :: Edge(ms, s.stack[i], s.stack[i + 1]))
    && DependenciesFirst(ms, s.order)
    && (forall n | n in s.color :: Reachable(ms, names, n))
  }

  lemma Enter(ms: Manifests, names: seq<string>, s: Search, n: string)
    requires Ok(ms, names, s) && n !in s.color && Reachable(ms, names, n)
    requires s.stack != [] ==> Edge(ms, s.stack[|s.stack| - 1], n)
    ensures Ok(ms, names, Search(s.color[n := Gray], s.stack + [n], s.order))
  {
  }

  lemma Leave(ms: Manifests, names: seq<string>, s: Search, rest: seq<string>, n: string)
    requires Ok(ms, names, s) && s.stack == rest + [n]
    requires forall d | Edge(ms, n, d) :: d in s.order
    ensures Ok(ms, names, Search(s.color[n := Black], rest, s.order + [n]))
  {
    var t := Search(s.color[n := Black], rest, s.order + [n]);
    assert s.stack[|rest|] == n && n in s.stack;
    forall i | 0 <= i < |rest| ensures rest[i] in s.stack && rest[i] != n {
      assert s.stack[i] == rest[i];
    }
    forall i | 0 <= i < |rest| - 1 ensures Edge(ms, rest[i], rest[i + 1]) {
      assert Edge(ms, s.stack[i], s.stack[i + 1]);
    }
    forall i, j | 0 <= i < j < |rest| ensures rest[i] != rest[j] {
      assert s.stack[i] != s.stack[j];
    }
    assert n !in s.order;
    forall x ensures x in t.color <==> x in t.stack || x in t.order {
      assert x in s.stack <==> x in rest || x == n;
    }
    forall i, d | 0 <= i < |t.order| && Edge(ms, t.order[i], d) ensures d in t.order[..i] {
      if i < |s.order| {
        assert d in s.order[..i];
        assert t.order[..i] == s.order[..i];
      } else {
        assert t.order[..i] == s.order;
      }
    }
  }

  lemma ColorMeans(ms: Manifests, names: seq<string>, s: Search, n: string)
    requires Ok(ms, names, s) && n in s.color
    ensures if s.color[n] == Gray then n in s.stack else n in s.order
    ensures Reachable(ms, names, n)
  {
  }

  lemma StackIsPath(ms: Manifests, names: seq<string>, s: Search)
    requires Ok(ms, names, s)
    ensures forall i | 0 <= i < |s.stack| - 1 :: Edge(ms, s.stack[i], s.stack[i + 1])
  {
  }

  class Sorter {
    const ms: Manifests
    ghost const names: seq<string>
    var color: map<string, Color>
    var stack: seq<string>
    var order: seq<string>

    ghost function State(): Search
      reads this
    {
      Search(color, stack, order)
    }

    constructor (ms: Manifests, ghost names: seq<string>)
      ensures this.ms == ms && this.names == names
      ensures State() == Search(map[], [], []) && Ok(ms, names, State())
    {
      this.ms, this.names := ms, names;
      color, stack, order := map[], [], [];
    }

    /** visit. On success the node and everything below it is black and the
        stack is as before; on failure the reported path is a reachable cycle. */
    method Visit(name: string) returns (cycle: seq<string>)
      requires Ok(ms, names, State()) && name !in color && Reachable(ms, names, name)
      requires stack != [] ==> Edge(ms, stack[|stack| - 1], name)
      modifies this
      ensures cycle == [] ==> Ok(ms, names, State()) && stack == old(stack) && old(order) <= order && name in order
      ensures cycle == [] ==> old(color).Keys <= color.Keys
      ensures cycle != [] ==> IsCycle(ms, cycle) && Reachable(ms, names, cycle[0])
      decreases ms.Keys - color.Keys
    {
      hide Ok, Reachable, IsCycle;
      Enter(ms, names, State(), name);
      color := color[name := Gray];
      stack := stack + [name];
      var depends := if name in ms then ms[name].depends else [];
      for i := 0 to |depends|
        invariant Ok(ms, names, State()) && stack == old(stack) + [name] && old(order) <= order
        invariant forall j | 0 <= j < i && depends[j] in ms :: depends[j] in order
        invariant old(color).Keys + {name} <= color.Keys
      {
        var dep := depends[i];
        if dep !in ms { continue; }
        assert Edge(ms, name, dep);
        if dep in color { ColorMeans(ms, names, State(), dep); }
        if dep in color && color[dep] == Gray {
          StackIsPath(ms, names, State());
          cycle := CycleFrom(ms, names, stack, dep);
          return;
        } else if dep !in color {
          ColorMeans(ms, names, State(), name) by { assert name in color; }
          ReachesOn(ms, names, name, dep);
          cycle := Visit(dep);
          if cycle != [] { return; }
        }
      }
      Leave(ms, names, State(), old(stack), name);
      assert stack[..|stack| - 1] == old(stack);
      stack := stack[..|stack| - 1];
      color := color[name := Black];
      order := order + [name];
      cycle := [];
    }
  }

  /** cycleError: the stack from the node the back edge points to, and that
      node again. */
  method CycleFrom(ms: Manifests, ghost names: seq<string>, stack: seq<string>,
                   back: string) returns (cycle: seq<string>)
    requires back in stack && Edge(ms, stack[|stack| - 1], back) && Reachable(ms, names, back)
    requires forall i | 0 <= i < |stack| - 1 :: Edge(ms, stack[i], stack[i + 1])
    ensures IsCycle(ms, cycle) && cycle[0] == back
  {
    var start := 0;
    for i := 0 to |stack|
      invariant start == 0 && back !in stack[..i]
    {
      if stack[i] == back { start := i; break; }
    }
    cycle := stack[start..] + [back];
  }

  /** TopoSort: an order exactly when nothing reachable is on a cycle. */
  method Sort(names: seq<string>, ms: Manifests) returns (r: Outcome)
    ensures r.Order? <==> !HasCycle(ms, names)
    ensures r.Order? ==> IsOrderOf(ms, names, r.names)
    ensures r.Cycle? ==> IsCycle(ms, r.path) && Reachable(ms, names, r.path[0])
    ensures r.Order? ==>
      var order := r.names;
      && (forall n | n in names :: n in order)
      && (forall i, j | 0 <= i < j < |order| :: order[i] != order[j])
      && (forall i, d | 0 <= i < |order| && order[i] in ms && d in ms && d in ms[order[i]].depends ::
            exists j :: 0 <= j < i && order[j] == d)
      && (forall n | n in order && n !in names :: exists m :: m in order && m in ms && n in ms[m].depends)
    ensures r.Cycle? ==>
      && |r.path| > 1 && r.path[0] == r.path[|r.path| - 1]
      && forall i | 0 <= i < |r.path| - 1 :: r.path[i] in ms && r.path[i + 1] in ms[r.path[i]].depends
  {
    r := SortNames(names, ms);
    if r.Order? { OrderIsRight(ms, names, r.names); }
    if r.Cycle? {
      forall i | 0 <= i < |r.path| - 1 ensures r.path[i] in ms && r.path[i + 1] in ms[r.path[i]].depends {
        assert Edge(ms, r.path[i], r.path[i + 1]);
      }
    }
  }

  /** What the order is, in terms of the manifests alone. */
  lemma OrderIsRight(ms: Manifests, names: seq<string>, order: seq<string>)
    requires IsOrderOf(ms, names, order)
    ensures forall n | n in names :: n in order
    ensures forall i, j | 0 <= i < j < |order| :: order[i] != order[j]
    ensures forall i, d | 0 <= i < |order| && order[i] in ms && d in ms && d in ms[order[i]].depends ::
      exists j :: 0 <= j < i && order[j] == d
    ensures forall n | n in order && n !in names :: exists m :: m in order && m in ms && n in ms[m].depends
  {
    forall n | n in names ensures n in order { ReachesItself(ms, names, n); }
    forall i, d | 0 <= i < |order| && order[i] in ms && d in ms && d in ms[order[i]].depends
      ensures exists j :: 0 <= j < i && order[j] == d
    {
      assert Edge(ms, order[i], d);
      var j :| 0 <= j < i && order[..i][j] == d;
    }
    forall n | n in order && n !in names ensures exists m :: m in order && m in ms && n in ms[m].depends {
      LastStep(ms, names, n);
    }
  }

  /** What is reachable, and not a name, is a dependency of something reachable. */
  lemma LastStep(ms: Manifests, names: seq<string>, n: string)
    requires Reachable(ms, names, n) && n !in names
    ensures exists m :: Reachable(ms, names, m) && m in ms && n in ms[m].depends
  {
    var r :| r in names && Reaches(ms, r, n);
    var p :| IsPath(ms, p) && p[0] == r && p[|p| - 1] == n;
    var q := p[..|p| - 1];
    assert Edge(ms, p[|p| - 2], p[|p| - 1]);
    assert IsPath(ms, q) && q[|q| - 1] == p[|p| - 2];
    assert Reaches(ms, r, p[|p| - 2]);
  }

  method SortNames(names: seq<string>, ms: Manifests) returns (r: Outcome)
    ensures r.Order? <==> !HasCycle(ms, names)
    ensures r.Order? ==> IsOrderOf(ms, names, r.names)
    ensures r.Cycle? ==> IsCycle(ms, r.path) && Reachable(ms, names, r.path[0])
  {
    var s := new Sorter(ms, names);
    for i := 0 to |names|
      invariant Ok(ms, names, s.State()) && s.ms == ms && s.names == names && s.stack == []
      invariant forall j | 0 <= j < i :: names[j] in s.order
    {
      if names[i] !in s.color {
        ReachesItself(ms, names, names[i]);
        var cycle := s.Visit(names[i]);
        if cycle != [] { return Cycle(cycle); }
      }
    }
    OrderIsComplete(ms, names, s.State());
    OrderedMeansAcyclic(ms, names, s.order);
    return Order(s.order);
  }

  lemma {:induction false} OrderIsComplete(ms: Manifests, names: seq<string>, s: Search)
    requires Ok(ms, names, s) && s.stack == []
    requires forall n | n in names :: n in s.order
    ensures IsOrderOf(ms, names, s.order)
  {
    var done := set n | n in s.order;
    forall a, b | a in done && Edge(ms, a, b) ensures b in done {
      var i :| 0 <= i < |s.order| && s.order[i] == a;
      assert b in s.order[..i];
    }
    forall n | Reachable(ms, names, n) ensures n in s.order {
      ClosedHoldsReachable(ms, names, done, n);
    }
  }
}
