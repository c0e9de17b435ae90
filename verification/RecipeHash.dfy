/** What RecipeHash of internal/recipes/params.go digests. The digest itself is
    taken to be collision-free; what matters is that its input tells everything. */
module RecipeHash {
  import opened Text
  import opened Sorting

  const BREAK: string := "\n\0"

  function ParamSegment(name: string, value: string): string { "param " + name + "=" + value }
  function SecretSegment(name: string): string { "secret " + name }

  function ParamSegments(names: seq<string>, params: map<string, string>): seq<string>
    requires forall n | n in names :: n in params
  {
    seq(|names|, i requires 0 <= i < |names| => ParamSegment(names[i], params[names[i]]))
  }

  function SecretSegments(names: seq<string>): seq<string> {
    seq(|names|, i requires 0 <= i < |names| => SecretSegment(names[i]))
  }

  /** A body and what is appended to it, each part behind a break. */
  function Encode(body: string, segments: seq<string>): string
    decreases |segments|
  {
    if segments == [] then body else Encode(body, segments[..|segments| - 1]) + BREAK + segments[|segments| - 1]
  }

  ghost function Segments(params: map<string, string>, secretNames: seq<string>): seq<string> {
    InSet(params.Keys);
    ParamSegments(SortedSet(params.Keys), params) + SecretSegments(Sort(secretNames))
  }

  lemma InSet(s: set<string>)
    ensures forall n :: n in SortedSet(s) <==> n in s
  {
    forall n ensures n in SortedSet(s) <==> n in s {
      assert multiset(SortedSet(s)) == multiset(s);
      assert n in SortedSet(s) <==> n in multiset(SortedSet(s));
      assert n in multiset(s) <==> n in s;
    }
  }

  /** The byte string that is hashed. */
  ghost function Preimage(body: string, params: map<string, string>, secretNames: seq<string>): string {
    Encode(body, Segments(params, secretNames))
  }

  lemma {:induction false} EncodeMore(body: string, p: seq<string>, q: seq<string>)
    ensures Encode(Encode(body, p), q) == Encode(body, p + q)
    decreases |q|
  {
    if q == [] {
      assert p + q == p;
    } else {
      EncodeMore(body, p, q[..|q| - 1]);
      assert (p + q)[..|p + q| - 1] == p + q[..|q| - 1];
    }
  }

  method Append(body: string, segments: seq<string>) returns (b: string)
    ensures b == Encode(body, segments)
  {
    b := body;
    for i := 0 to |segments|
      invariant b == Encode(body, segments[..i])
    {
      assert segments[..i + 1][..i] == segments[..i];
      b := b + BREAK + segments[i];
    }
    assert segments[..|segments|] == segments;
  }

  /** RecipeHash up to the call of the digest. Go walks `params` in any order;
      the result does not show in which. */
  method HashInput(body: string, params: map<string, string>, secretNames: seq<string>) returns (b: string)
    ensures b == Preimage(body, params, secretNames)
  {
    if |params| == 0 && |secretNames| == 0 {
      assert params.Keys == {};
      assert Segments(params, secretNames) == [];
      return body;
    }
    var keys := Keys(params);
    SortOfBag(keys, multiset(params.Keys));
    InSet(params.Keys);
    hide SortedSet, Sort, Encode;
    var paramSegments := ParamSegments(Sort(keys), params);
    var secretSegments := SecretSegments(Sort(secretNames));
    b := Append(body, paramSegments);
    b := Append(b, secretSegments);
    EncodeMore(body, paramSegments, secretSegments);
  }

  /** What is hashed for a recipe with two parameters and two secrets, as it is written. */
  lemma PreimageText(body: string, params: map<string, string>)
    requires params == map["b" := "2", "a" := "1"]
    ensures Preimage(body, params, ["t", "s"]) ==
      body + "\n\0" + "param a=1" + "\n\0" + "param b=2" + "\n\0" + "secret s" + "\n\0" + "secret t"
  {
    hide Encode;
    TwoAndTwo(params);
    FourSegments(body, Segments(params, ["t", "s"]));
  }

  lemma TwoAndTwo(params: map<string, string>)
    requires params == map["b" := "2", "a" := "1"]
    ensures Segments(params, ["t", "s"]) == ["param a=1", "param b=2", "secret s", "secret t"]
  {
    hide Sort, SortedSet, ParamSegment, SecretSegment;
    SortedTwo(params);
    SegmentTexts();
    TwoParams(params);
    TwoSecrets();
  }

  lemma TwoParams(params: map<string, string>)
    requires params == map["b" := "2", "a" := "1"]
    ensures ParamSegments(["a", "b"], params) == [ParamSegment("a", "1"), ParamSegment("b", "2")]
  {
    hide ParamSegment;
  }

  lemma TwoSecrets()
    ensures SecretSegments(["s", "t"]) == [SecretSegment("s"), SecretSegment("t")]
  {
    hide SecretSegment;
  }

  lemma SegmentTexts()
    ensures ParamSegment("a", "1") == "param a=1" && ParamSegment("b", "2") == "param b=2"
    ensures SecretSegment("s") == "secret s" && SecretSegment("t") == "secret t"
  {
  }

  lemma SortedTwo(params: map<string, string>)
    requires params == map["b" := "2", "a" := "1"]
    ensures SortedSet(params.Keys) == ["a", "b"] && Sort(["t", "s"]) == ["s", "t"]
  {
    hide Sort;
    InOrder("a", "b");
    InOrder("s", "t");
    assert params.Keys == {"a", "b"};
    AscendingUnique(SortedSet(params.Keys), ["a", "b"]);
    SortSorts(["t", "s"]);
    AscendingUnique(Sort(["t", "s"]), ["s", "t"]);
  }

  lemma InOrder(a: string, b: string)
    requires |a| == |b| == 1 && a[0] < b[0]
    ensures Ascending([a, b]) && multiset([a, b]) == multiset({a, b}) && multiset([b, a]) == multiset([a, b])
  {
  }

  lemma FourSegments(body: string, s: seq<string>)
    requires |s| == 4
    ensures Encode(body, s) == body + BREAK + s[0] + BREAK + s[1] + BREAK + s[2] + BREAK + s[3]
  {
    assert s[..3][..2] == s[..2] && s[..2][..1] == s[..1] && s[..1][..0] == [];
    assert Encode(body, s[..1]) == body + BREAK + s[0];
    assert Encode(body, s[..2]) == Encode(body, s[..1]) + BREAK + s[1];
    assert Encode(body, s[..3]) == Encode(body, s[..2]) + BREAK + s[2];
  }

  // ---- it can be read back ----------------------------------------------------

  predicate AllNoNul(ss: seq<string>) { forall i | 0 <= i < |ss| :: Without(ss[i], '\0') }

  lemma NulPlaces(a: string, s: string)
    requires Without(s, '\0')
    ensures (a + BREAK + s)[|a| + 1] == '\0'
    ensures forall i | |a| + 1 < i < |a + BREAK + s| :: (a + BREAK + s)[i] != '\0'
  {
  }

  /** The last break is where the last NUL is, so the parts can be peeled off. */
  lemma LastBreak(a: string, s: string, b: string, t: string)
    requires Without(s, '\0') && Without(t, '\0') && a + BREAK + s == b + BREAK + t
    ensures a == b && s == t
  {
    var x, y := a + BREAK + s, b + BREAK + t;
    NulPlaces(a, s);
    NulPlaces(b, t);
    assert |a| == |b|;
    assert x[..|a|] == a && y[..|b|] == b && x[|a| + 2..] == s && y[|b| + 2..] == t;
  }

  lemma {:induction false} EncodeUnique(body: string, p: seq<string>, body': string, p': seq<string>)
    requires Without(body, '\0') && Without(body', '\0') && AllNoNul(p) && AllNoNul(p')
    requires Encode(body, p) == Encode(body', p')
    ensures body == body' && p == p'
    decreases |p| + |p'|
  {
    if p == [] || p' == [] {
      if p != [] { BreakShows(Encode(body, p[..|p| - 1]), p[|p| - 1], body'); }
      if p' != [] { BreakShows(Encode(body', p'[..|p'| - 1]), p'[|p'| - 1], body); }
    } else {
      var q, q' := p[..|p| - 1], p'[..|p'| - 1];
      LastBreak(Encode(body, q), p[|p| - 1], Encode(body', q'), p'[|p'| - 1]);
      EncodeUnique(body, q, body', q');
      assert p == q + [p[|p| - 1]] && p' == q' + [p'[|p'| - 1]];
    }
  }

  lemma BreakShows(a: string, s: string, body: string)
    requires Without(body, '\0')
    ensures a + BREAK + s != body
  {
    assert (a + BREAK + s)[|a| + 1] == '\0';
  }

  lemma ParamSegmentUnique(n: string, v: string, n': string, v': string)
    requires Without(n, '=') && Without(n', '=') && ParamSegment(n, v) == ParamSegment(n', v')
    ensures n == n' && v == v'
  {
    var s, s' := n + ['='] + v, n' + ['='] + v';
    assert ParamSegment(n, v) == "param " + s && ParamSegment(n', v') == "param " + s';
    assert ("param " + s)[6..] == s && ("param " + s')[6..] == s';
    SplitUnique(n, v, n', v', '=');
  }

  lemma KindsDiffer(n: string, v: string, secret: string)
    ensures ParamSegment(n, v) != SecretSegment(secret)
  {
    assert ParamSegment(n, v)[0] == 'p' && SecretSegment(secret)[0] == 's';
  }

  ghost predicate WellNamed(body: string, params: map<string, string>, secretNames: seq<string>) {
    && Without(body, '\0')
    && (forall n | n in params :: Without(n, '\0') && Without(n, '=') && Without(params[n], '\0'))
    && AllNoNul(secretNames)
  }

  lemma SegmentClean(n: string, v: string)
    requires Without(n, '\0')
    ensures Without(v, '\0') ==> Without(ParamSegment(n, v), '\0')
    ensures Without(SecretSegment(n), '\0')
  {
  }

  lemma SegmentsClean(body: string, params: map<string, string>, secretNames: seq<string>)
    requires WellNamed(body, params, secretNames)
    ensures AllNoNul(Segments(params, secretNames))
  {
    InSet(params.Keys);
    SortSorts(secretNames);
    hide Sort, SortedSet, Without, ParamSegment, SecretSegment, Ascending;
    var names, secrets, all := SortedSet(params.Keys), Sort(secretNames), Segments(params, secretNames);
    forall i | 0 <= i < |all| ensures Without(all[i], '\0') {
      if i < |names| {
        assert names[i] in names;
        SegmentClean(names[i], params[names[i]]);
      } else {
        var s := secrets[i - |names|];
        assert s in multiset(secrets);
        assert s in multiset(secretNames);
        var j :| 0 <= j < |secretNames| && secretNames[j] == s;
        SegmentClean(s, "");
      }
    }
  }

  lemma SegmentCount(params: map<string, string>, secrets: seq<string>)
    ensures |SortedSet(params.Keys)| == |params| && |Sort(secrets)| == |secrets|
    ensures |Segments(params, secrets)| == |params| + |secrets|
  {
    hide Sort, SortedBag, ParamSegment, SecretSegment;
    SortSorts(secrets);
    assert |multiset(Sort(secrets))| == |multiset(secrets)|;
    assert |multiset(SortedSet(params.Keys))| == |multiset(params.Keys)| == |params.Keys|;
  }

  lemma SegmentAt(params: map<string, string>, secrets: seq<string>, i: nat)
    requires i < |Segments(params, secrets)|
    ensures |SortedSet(params.Keys)| == |params| && |Sort(secrets)| == |secrets|
    ensures |Segments(params, secrets)| == |params| + |secrets|
    ensures i < |params| ==>
      var n := SortedSet(params.Keys)[i]; n in params && Segments(params, secrets)[i] == ParamSegment(n, params[n])
    ensures i >= |params| ==> Segments(params, secrets)[i] == SecretSegment(Sort(secrets)[i - |params|])
  {
    hide Sort, SortedSet, ParamSegment, SecretSegment;
    InSet(params.Keys);
    SegmentCount(params, secrets);
  }

  lemma SameParams(params: map<string, string>, secrets: seq<string>, params': map<string, string>,
                   secrets': seq<string>)
    requires forall n | n in params :: Without(n, '=')
    requires forall n | n in params' :: Without(n, '=')
    requires Segments(params, secrets) == Segments(params', secrets')
    ensures forall n | n in params :: n in params' && params'[n] == params[n]
  {
    hide Sort, SortedSet, Segments, Without, ParamSegment, SecretSegment;
    InSet(params.Keys);
    var names, names' := SortedSet(params.Keys), SortedSet(params'.Keys);
    SegmentCount(params, secrets);
    forall n | n in params ensures n in params' && params'[n] == params[n] {
      var i :| 0 <= i < |names| && names[i] == n;
      SegmentAt(params, secrets, i);
      SegmentAt(params', secrets', i);
      if i < |params'| {
        ParamSegmentUnique(n, params[n], names'[i], params'[names'[i]]);
      } else {
        KindsDiffer(n, params[n], Sort(secrets')[i - |params'|]);
      }
    }
  }

  lemma SecretSegmentsUnique(a: seq<string>, b: seq<string>)
    requires SecretSegments(a) == SecretSegments(b)
    ensures a == b
  {
    assert |a| == |SecretSegments(a)| == |b|;
    forall i | 0 <= i < |a| ensures a[i] == b[i] {
      assert SecretSegments(a)[i] == SecretSegments(b)[i];
      assert SecretSegment(a[i])[7..] == a[i] && SecretSegment(b[i])[7..] == b[i];
    }
  }

  lemma SameSegments(params: map<string, string>, secrets: seq<string>, params': map<string, string>,
                     secrets': seq<string>)
    requires forall n | n in params :: Without(n, '=')
    requires forall n | n in params' :: Without(n, '=')
    requires Segments(params, secrets) == Segments(params', secrets')
    ensures params == params' && multiset(secrets) == multiset(secrets')
  {
    SameParams(params, secrets, params', secrets');
    SameParams(params', secrets', params, secrets);
    SortIsCanonical(secrets, secrets');
    hide Sort, SortedSet, Without, ParamSegment, SecretSegment, SecretSegments;
    assert params == params';
    InSet(params.Keys);
    var k := |SortedSet(params.Keys)|;
    assert Segments(params, secrets)[k..] == SecretSegments(Sort(secrets));
    assert Segments(params, secrets')[k..] == SecretSegments(Sort(secrets'));
    SecretSegmentsUnique(Sort(secrets), Sort(secrets'));
  }

  /** The hashed bytes are the same exactly when script, parameters and the names
      of the set secrets are. */
  lemma PreimageExact(body: string, params: map<string, string>, secrets: seq<string>,
                      body': string, params': map<string, string>, secrets': seq<string>)
    requires WellNamed(body, params, secrets) && WellNamed(body', params', secrets')
    ensures Preimage(body, params, secrets) == Preimage(body', params', secrets') <==>
      body == body' && params == params' && multiset(secrets) == multiset(secrets')
  {
    hide Sort, SortedSet, Encode, Without, AllNoNul, ParamSegment, SecretSegment;
    if Preimage(body, params, secrets) == Preimage(body', params', secrets') {
      SegmentsClean(body, params, secrets);
      SegmentsClean(body', params', secrets');
      EncodeUnique(body, Segments(params, secrets), body', Segments(params', secrets'));
      SameSegments(params, secrets, params', secrets');
    } else {
      SortIsCanonical(secrets, secrets');
    }
  }

  /** Both provisos are needed: an '=' in a parameter name, and a NUL in a script,
      let two different inputs hash alike. */
  lemma ProvisosNeeded(body: string)
    ensures Encode(body, [ParamSegment("a=b", "c")]) == Encode(body, [ParamSegment("a", "b=c")])
    ensures Encode(body + BREAK + "secret s", []) == Encode(body, [SecretSegment("s")])
  {
    var one: seq<string> := [SecretSegment("s")];
    assert one[..0] == [];
  }
}
