/** Recipe manifests and the dependency graph they span. */
module Recipes {

  datatype RunMode = Always | Once | Manual

  datatype Manifest = Manifest(depends: seq<string>, run: RunMode)

  type Manifests = map<string, Manifest>

  /** a depends on b, and b belongs to the set under consideration. */
  predicate Edge(ms: Manifests, a: string, b: string) {
    a in ms && b in ms[a].depends && b in ms
  }

  ghost predicate IsPath(ms: Manifests, p: seq<string>) {
    p != [] && forall i | 0 <= i < |p| - 1 :: Edge(ms, p[i], p[i + 1])
  }

  ghost predicate Reaches(ms: Manifests, a: string, b: string) {
    exists p :: IsPath(ms, p) && p[0] == a && p[|p| - 1] == b
  }

  ghost predicate Reachable(ms: Manifests, names: seq<string>, n: string) {
    exists r :: r in names && Reaches(ms, r, n)
  }

  /** A path of at least one edge that comes back to where it started. */
  ghost predicate IsCycle(ms: Manifests, c: seq<string>) {
    IsPath(ms, c) && |c| > 1 && c[0] == c[|c| - 1]
  }

  ghost predicate HasCycle(ms: Manifests, names: seq<string>) {
    exists c :: IsCycle(ms, c) && Reachable(ms, names, c[0])
  }

  predicate NoDuplicates<T(==)>(s: seq<T>) {
    forall i, j | 0 <= i < j < |s| :: s[i] != s[j]
  }

  lemma ReachesItself(ms: Manifests, names: seq<string>, n: string)
    requires n in names
    ensures Reachable(ms, names, n)
  {
    assert IsPath(ms, [n]);
    assert Reaches(ms, n, n);
  }

  lemma ReachesOn(ms: Manifests, names: seq<string>, a: string, b: string)
    requires Reachable(ms, names, a) && Edge(ms, a, b)
    ensures Reachable(ms, names, b)
  {
    var r :| r in names && Reaches(ms, r, a);
    var p :| IsPath(ms, p) && p[0] == r && p[|p| - 1] == a;
    var q := p + [b];
    assert IsPath(ms, q);
    assert Reaches(ms, r, b);
  }

  /** A set with the names in it that no edge leaves holds all that is reachable. */
  lemma ClosedHoldsReachable(ms: Manifests, names: seq<string>, s: set<string>, n: string)
    requires forall r | r in names :: r in s
    requires forall a, b | a in s && Edge(ms, a, b) :: b in s
    requires Reachable(ms, names, n)
    ensures n in s
  {
    var r :| r in names && Reaches(ms, r, n);
    var p :| IsPath(ms, p) && p[0] == r && p[|p| - 1] == n;
    PathStays(ms, s, p);
  }

  lemma {:induction false} PathStays(ms: Manifests, s: set<string>, p: seq<string>)
    requires IsPath(ms, p) && p[0] in s
    requires forall a, b | a in s && Edge(ms, a, b) :: b in s
    ensures forall i | 0 <= i < |p| :: p[i] in s
    decreases |p|
  {
    if |p| > 1 {
      assert Edge(ms, p[0], p[1]);
      var q := p[1..];
      forall i | 0 <= i < |q| - 1 ensures Edge(ms, q[i], q[i + 1]) { assert Edge(ms, p[i + 1], p[i + 2]); }
      PathStays(ms, s, q);
      forall i | 0 <= i < |p| ensures p[i] in s { if i > 0 { assert p[i] == q[i - 1]; } }
    }
  }
}
