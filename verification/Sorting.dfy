/** Go's sort.Strings: the byte-wise order, and why a sorted list does not depend
    on the order in which a map was walked. */
module Sorting {

  /** Byte-wise lexicographic order. */
  predicate Leq(a: string, b: string)
    decreases |a|
  {
    a == "" || (b != "" && (a[0] < b[0] || (a[0] == b[0] && Leq(a[1..], b[1..]))))
  }

  lemma {:induction false} LeqTotal(a: string, b: string)
    ensures Leq(a, b) || Leq(b, a)
    decreases |a|
  {
    if a != "" && b != "" { LeqTotal(a[1..], b[1..]); }
  }

  lemma {:induction false} LeqAntisymmetric(a: string, b: string)
    requires Leq(a, b) && Leq(b, a)
    ensures a == b
    decreases |a|
  {
    if a != "" {
      LeqAntisymmetric(a[1..], b[1..]);
      assert a == [a[0]] + a[1..] && b == [b[0]] + b[1..];
    }
  }

  lemma {:induction false} LeqTransitive(a: string, b: string, c: string)
    requires Leq(a, b) && Leq(b, c)
    ensures Leq(a, c)
    decreases |a|
  {
    if a != "" && a[0] == b[0] == c[0] { LeqTransitive(a[1..], b[1..], c[1..]); }
  }

  /** Adjacent elements are in order. */
  predicate Ascending(s: seq<string>) {
    forall i | 0 <= i < |s| - 1 :: Leq(s[i], s[i + 1])
  }

  function Insert(s: seq<string>, x: string): seq<string> {
    if s == [] || Leq(x, s[0]) then [x] + s else [s[0]] + Insert(s[1..], x)
  }

  function Sort(s: seq<string>): seq<string> {
    if s == [] then [] else Insert(Sort(s[1..]), s[0])
  }

  lemma {:induction false} InsertAscending(s: seq<string>, x: string)
    requires Ascending(s)
    ensures Ascending(Insert(s, x)) && multiset(Insert(s, x)) == multiset(s) + multiset{x}
    ensures s != [] && !Leq(x, s[0]) ==> Insert(s, x)[0] == s[0]
  {
    if s != [] { LeqTotal(x, s[0]); }
    hide Leq;
    if s != [] && !Leq(x, s[0]) {
      var rest := s[1..];
      InsertAscending(rest, x);
      var r := Insert(rest, x);
      assert s == [s[0]] + rest;
      assert r[0] == x || r[0] == rest[0];
      forall i | 0 <= i < |r| ensures Leq(([s[0]] + r)[i], r[i]) {
        if i > 0 { assert Leq(r[i - 1], r[i]); }
        else if r[0] != x { assert Leq(s[0], s[1]); }
      }
    }
  }

  lemma {:induction false} SortSorts(s: seq<string>)
    ensures Ascending(Sort(s)) && multiset(Sort(s)) == multiset(s)
  {
    if s != [] {
      SortSorts(s[1..]);
      InsertAscending(Sort(s[1..]), s[0]);
      assert s == [s[0]] + s[1..];
    }
  }

  lemma TailAscending(s: seq<string>)
    requires s != [] && Ascending(s)
    ensures Ascending(s[1..]) && multiset(s[1..]) == multiset(s) - multiset{s[0]}
  {
    assert s == [s[0]] + s[1..];
    forall i | 0 <= i < |s[1..]| - 1 ensures Leq(s[1..][i], s[1..][i + 1]) { assert Leq(s[i + 1], s[i + 2]); }
  }

  lemma {:induction false} HeadIsLeast(s: seq<string>, x: string)
    requires Ascending(s) && x in s
    ensures Leq(s[0], x)
  {
    if s[0] == x {
      LeqTotal(x, x);
    } else {
      assert Leq(s[0], s[1]);
      TailAscending(s);
      HeadIsLeast(s[1..], x);
      LeqTransitive(s[0], s[1], x);
    }
  }

  lemma SameHead(s: seq<string>, t: seq<string>)
    requires Ascending(s) && Ascending(t) && multiset(s) == multiset(t) && s != [] && t != []
    ensures s[0] == t[0]
  {
    hide Leq, Ascending;
    assert s[0] in multiset(t) && t[0] in multiset(s);
    HeadIsLeast(s, t[0]);
    HeadIsLeast(t, s[0]);
    LeqAntisymmetric(s[0], t[0]);
  }

  /** There is only one way to have the same elements in order. */
  lemma {:induction false} AscendingUnique(s: seq<string>, t: seq<string>)
    requires Ascending(s) && Ascending(t) && multiset(s) == multiset(t)
    ensures s == t
  {
    hide Leq, Ascending;
    assert |s| == |multiset(s)| == |multiset(t)| == |t|;
    if s != [] {
      SameHead(s, t);
      TailAscending(s);
      TailAscending(t);
      AscendingUnique(s[1..], t[1..]);
      assert s == [s[0]] + s[1..] && t == [t[0]] + t[1..];
    }
  }

  lemma SortIsCanonical(s: seq<string>, t: seq<string>)
    ensures multiset(s) == multiset(t) <==> Sort(s) == Sort(t)
  {
    SortSorts(s);
    SortSorts(t);
    if multiset(s) == multiset(t) { AscendingUnique(Sort(s), Sort(t)); }
  }

  lemma InsertIntoBag(rest: seq<string>, x: string, b: multiset<string>)
    requires x in b && Ascending(rest) && multiset(rest) == b - multiset{x}
    ensures Ascending(Insert(rest, x)) && multiset(Insert(rest, x)) == b
  {
    hide Ascending, Insert;
    InsertAscending(rest, x);
  }

  /** The elements of a bag, in order. */
  ghost function SortedBag(b: multiset<string>): (r: seq<string>)
    ensures Ascending(r) && multiset(r) == b
  {
    if b == multiset{} then []
    else
      var x :| x in b;
      var rest := SortedBag(b - multiset{x});
      InsertIntoBag(rest, x, b);
      Insert(rest, x)
  }

  ghost function SortedSet(s: set<string>): seq<string> { SortedBag(multiset(s)) }

  /** Collecting in any order and sorting gives SortedBag. */
  lemma {:induction false} SortOfBag(list: seq<string>, b: multiset<string>)
    requires multiset(list) == b
    ensures Sort(list) == SortedBag(b)
  {
    SortSorts(list);
    AscendingUnique(Sort(list), SortedBag(b));
  }

  /** Ranging over a map's keys: some order, each key once. */
  method Keys<V>(m: map<string, V>) returns (keys: seq<string>)
    ensures multiset(keys) == multiset(m.Keys)
  {
    keys := [];
    var left := m.Keys;
    while left != {}
      invariant left <= m.Keys
      invariant multiset(keys) == multiset(m.Keys - left)
      decreases left
    {
      var k :| k in left;
      assert m.Keys - (left - {k}) == (m.Keys - left) + {k};
      assert multiset((m.Keys - left) + {k}) == multiset(m.Keys - left) + multiset{k};
      left := left - {k};
      keys := keys + [k];
    }
    assert m.Keys - {} == m.Keys;
  }
}
