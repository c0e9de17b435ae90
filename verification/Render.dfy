/** The comparable text of a parameter table: renderParams of
    internal/core/project.go. */
module Render {
  import opened Text
  import opened Sorting

  type Params = map<string, map<string, string>>

  datatype Value = Unset | Set(value: string)

  function Get(m: Params, recipe: string, name: string): Value {
    if recipe in m && name in m[recipe] then Set(m[recipe][name]) else Unset
  }

  ghost predicate SameParams(a: Params, b: Params) {
    forall r, n :: Get(a, r, n) == Get(b, r, n)
  }

  datatype Entry = Entry(recipe: string, name: string, value: string)

  function EntriesOf(recipe: string, values: map<string, string>): set<Entry> {
    set n | n in values :: Entry(recipe, n, values[n])
  }

  ghost function Entries(m: Params): set<Entry> {
    set r, n | r in m && n in m[r] :: Entry(r, n, m[r][n])
  }

  function Part(e: Entry): string { e.recipe + "." + e.name + "=" + e.value }

  /** The parts of a set of entries, as many times as they occur. */
  ghost function Parts(es: set<Entry>): multiset<string> {
    if es == {} then multiset{} else var e :| e in es; Parts(es - {e}) + multiset{Part(e)}
  }

  lemma {:induction false} PartsAdd(es: set<Entry>, e: Entry)
    requires e !in es
    ensures Parts(es + {e}) == Parts(es) + multiset{Part(e)}
    decreases es
  {
    var all := es + {e};
    var x :| x in all && Parts(all) == Parts(all - {x}) + multiset{Part(x)};
    if x == e {
      assert all - {e} == es;
    } else {
      assert all - {x} == (es - {x}) + {e};
      PartsAdd(es - {x}, e);
      PartsAdd(es - {x}, x);
      assert (es - {x}) + {x} == es;
    }
  }

  lemma {:induction false} PartsHolds(es: set<Entry>, s: string)
    ensures s in Parts(es) <==> exists e :: e in es && Part(e) == s
    decreases es
  {
    if es != {} {
      var x :| x in es && Parts(es) == Parts(es - {x}) + multiset{Part(x)};
      PartsHolds(es - {x}, s);
    }
  }

  ghost function Rendered(m: Params): string { Join(SortedBag(Parts(Entries(m))), ",") }

  /** renderParams, ranging over the maps in any order. */
  method RenderParams(m: Params) returns (s: string)
    ensures s == Rendered(m)
  {
    hide Parts, Join, Sort;
    var parts: seq<string> := [];
    var left := m.Keys;
    ghost var done: set<Entry> := {};
    assert multiset(parts) == Parts(done) by { NoParts(); }
    while left != {}
      invariant left <= m.Keys
      invariant forall e :: e in done <==> e in Entries(m) && e.recipe !in left
      invariant multiset(parts) == Parts(done)
      decreases left
    {
      var recipe :| recipe in left;
      left := left - {recipe};
      parts := PartsOf(recipe, m[recipe], parts, done);
      done := done + EntriesOf(recipe, m[recipe]);
    }
    assert done == Entries(m);
    SortOfBag(parts, Parts(done));
    s := Join(Sort(parts), ",");
  }

  lemma NoParts()
    ensures Parts({}) == multiset{}
  {
  }

  /** The inner loop: the parts of one recipe. */
  method PartsOf(recipe: string, values: map<string, string>, before: seq<string>,
                 ghost done: set<Entry>) returns (parts: seq<string>)
    requires multiset(before) == Parts(done) && forall e | e in done :: e.recipe != recipe
    ensures multiset(parts) == Parts(done + EntriesOf(recipe, values))
  {
    hide Parts;
    parts := before;
    var names := values.Keys;
    ghost var all := done;
    while names != {}
      invariant names <= values.Keys
      invariant forall e :: e in all <==> e in done || (e in EntriesOf(recipe, values) && e.name !in names)
      invariant multiset(parts) == Parts(all)
      decreases names
    {
      var name :| name in names;
      names := names - {name};
      var e := Entry(recipe, name, values[name]);
      PartsAdd(all, e);
      parts := parts + [Part(e)];
      all := all + {e};
    }
    assert all == done + EntriesOf(recipe, values);
  }

  // ---- when the text tells the table ----------------------------------------------

  /** The names and values stay clear of the characters the rendering is made of. */
  predicate CleanEntry(e: Entry) {
    && Without(e.recipe, '.') && Without(e.recipe, ',')
    && Without(e.name, '=') && Without(e.name, ',')
    && Without(e.value, ',')
  }

  ghost predicate CleanParams(m: Params) { forall e | e in Entries(m) :: CleanEntry(e) }

  lemma PartInjective(e: Entry, f: Entry)
    requires CleanEntry(e) && CleanEntry(f) && Part(e) == Part(f)
    ensures e == f
  {
    var x, y := e.name + "=" + e.value, f.name + "=" + f.value;
    assert Part(e) == e.recipe + ['.'] + x && Part(f) == f.recipe + ['.'] + y;
    SplitUnique(e.recipe, x, f.recipe, y, '.');
    SplitUnique(e.name, e.value, f.name, f.value, '=');
  }

  predicate Listable(a: seq<string>) { forall i | 0 <= i < |a| :: a[i] != "" && Without(a[i], ',') }

  /** Joining with commas loses nothing when no element has one or is empty. */
  lemma {:induction false} JoinInjective(a: seq<string>, b: seq<string>)
    requires Listable(a) && Listable(b)
    requires Join(a, ",") == Join(b, ",")
    ensures a == b
    decreases |a|
  {
    if a == [] || b == [] {
      JoinEmpty(a);
      JoinEmpty(b);
    } else {
      var x, y := Join(a[1..], ","), Join(b[1..], ",");
      if |a| == 1 || |b| == 1 {
        if |a| > 1 { HasMark(a[0], x, ','); }
        if |b| > 1 { HasMark(b[0], y, ','); }
      } else {
        SplitUnique(a[0], x, b[0], y, ',');
        JoinInjective(a[1..], b[1..]);
        assert a == [a[0]] + a[1..] && b == [b[0]] + b[1..];
      }
    }
  }

  lemma JoinEmpty(a: seq<string>)
    requires forall i | 0 <= i < |a| :: a[i] != ""
    ensures Join(a, ",") == "" <==> a == []
  {
  }

  lemma HasMark(a: string, b: string, c: char)
    ensures !Without(a + [c] + b, c)
  {
    assert (a + [c] + b)[|a|] == c;
  }

  lemma PartClean(e: Entry)
    requires CleanEntry(e)
    ensures Part(e) != "" && Without(Part(e), ',')
  {
  }

  lemma {:induction false} PartsAreClean(m: Params)
    requires CleanParams(m)
    ensures Listable(SortedBag(Parts(Entries(m))))
  {
    hide SortedBag, Parts, Part, CleanEntry, Without, Entries;
    var ps := SortedBag(Parts(Entries(m)));
    forall i | 0 <= i < |ps| ensures ps[i] != "" && Without(ps[i], ',') {
      assert ps[i] in multiset(ps);
      PartsHolds(Entries(m), ps[i]);
      var e :| e in Entries(m) && Part(e) == ps[i];
      PartClean(e);
    }
  }

  lemma OneWay(a: Params, b: Params)
    requires CleanParams(a) && CleanParams(b) && Parts(Entries(a)) == Parts(Entries(b))
    ensures Entries(a) <= Entries(b)
  {
    forall e | e in Entries(a) ensures e in Entries(b) {
      PartsHolds(Entries(a), Part(e));
      PartsHolds(Entries(b), Part(e));
      var f :| f in Entries(b) && Part(f) == Part(e);
      PartInjective(e, f);
    }
  }

  lemma SameEntries(a: Params, b: Params)
    ensures Entries(a) == Entries(b) <==> SameParams(a, b)
  {
    if Entries(a) == Entries(b) {
      forall r, n ensures Get(a, r, n) == Get(b, r, n) {
        if Get(a, r, n).Set? { assert Entry(r, n, a[r][n]) in Entries(b); }
        if Get(b, r, n).Set? { assert Entry(r, n, b[r][n]) in Entries(a); }
      }
    } else if SameParams(a, b) {
      forall e ensures e in Entries(a) <==> e in Entries(b) {
        assert Get(a, e.recipe, e.name) == Get(b, e.recipe, e.name);
      }
    }
  }

  /** Two clean tables render alike exactly when they say the same. */
  lemma RenderedExact(a: Params, b: Params)
    requires CleanParams(a) && CleanParams(b)
    ensures Rendered(a) == Rendered(b) <==> SameParams(a, b)
  {
    hide Parts, SortedBag, Join, Entries, CleanParams, SameParams, Listable;
    SameEntries(a, b);
    if Rendered(a) == Rendered(b) {
      PartsAreClean(a);
      PartsAreClean(b);
      JoinInjective(SortedBag(Parts(Entries(a))), SortedBag(Parts(Entries(b))));
      OneWay(a, b);
      OneWay(b, a);
    }
  }

  /** The same entries always render alike. */
  lemma SameRendered(a: Params, b: Params)
    requires SameParams(a, b)
    ensures Rendered(a) == Rendered(b)
  {
    SameEntries(a, b);
  }

  lemma EntriesOfOne(m: Params, values: map<string, string>)
    requires m == map["r" := values]
    ensures Entries(m) == EntriesOf("r", values)
  {
    forall e ensures e in Entries(m) <==> e in EntriesOf("r", values) {
      if e in EntriesOf("r", values) {
        assert e.name in m["r"];
      }
    }
  }

  lemma EntriesListed(values: map<string, string>, es: set<Entry>)
    requires forall e | e in es :: e.recipe == "r" && e.name in values && values[e.name] == e.value
    requires forall n | n in values :: Entry("r", n, values[n]) in es
    ensures EntriesOf("r", values) == es
  {
  }

  lemma PartsOfOne(e: Entry)
    ensures SortedBag(Parts({e})) == [Part(e)]
  {
    hide Part, SortedBag, Parts;
    NoParts();
    PartsAdd({}, e);
    assert {} + {e} == {e};
    AscendingUnique([Part(e)], SortedBag(Parts({e})));
  }

  lemma PartsOfTwo(f: Entry, g: Entry)
    requires f != g && Leq(Part(f), Part(g))
    ensures SortedBag(Parts({f, g})) == [Part(f), Part(g)]
  {
    hide Part, SortedBag, Parts, Leq;
    NoParts();
    PartsAdd({}, f);
    PartsAdd({f}, g);
    assert {} + {f} == {f} && {f} + {g} == {f, g};
    AscendingUnique([Part(f), Part(g)], SortedBag(Parts({f, g})));
  }

  /** With a comma in a value, two tables can render alike and differ. */
  lemma SeparatorsNeeded()
    ensures
      var a, b := map["r" := map["x" := "1,r.y=2"]], map["r" := map["x" := "1", "y" := "2"]];
      !SameParams(a, b) && Rendered(a) == Rendered(b)
  {
    hide Parts, SortedBag, Entries;
    var x, y := map["x" := "1,r.y=2"], map["x" := "1", "y" := "2"];
    var e, f, g := Entry("r", "x", "1,r.y=2"), Entry("r", "x", "1"), Entry("r", "y", "2");
    assert Get(map["r" := x], "r", "y") != Get(map["r" := y], "r", "y");
    EntriesOfOne(map["r" := x], x);
    EntriesOfOne(map["r" := y], y);
    EntriesListed(x, {e});
    EntriesListed(y, {f, g});
    PartsOfOne(e);
    XBeforeY(f, g);
    PartsOfTwo(f, g);
    assert Join([Part(f), Part(g)], ",") == Part(f) + "," + Part(g) by { assert [Part(f), Part(g)][1..] == [Part(g)]; }
    assert Part(e) == Part(f) + "," + Part(g);
  }

  lemma XBeforeY(f: Entry, g: Entry)
    requires f == Entry("r", "x", "1") && g == Entry("r", "y", "2")
    ensures Leq(Part(f), Part(g))
  {
    assert Part(f)[1..][1..] == "x=1" && Part(g)[1..][1..] == "y=2";
    assert Leq(Part(f)[1..], Part(g)[1..]);
  }
}
