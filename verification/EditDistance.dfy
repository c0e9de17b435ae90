/** The typo suggestions of internal/coreerr/coreerr.go: the two-row edit
    distance and what it is the distance of. */
module EditDistance {
  import opened Text

  function Min(a: int, b: int): int { if a <= b then a else b }
  function Cost(c: char, d: char): nat { if c == d then 0 else 1 }

  function Front(s: string): string requires s != "" { s[..|s| - 1] }
  function Last(s: string): char requires s != "" { s[|s| - 1] }

  /** The textbook recursion, on last letters. */
  function Lev(a: string, b: string): nat
    decreases |a| + |b|
  {
    if a == "" then |b|
    else if b == "" then |a|
    else Min(Min(Lev(Front(a), b) + 1, Lev(a, Front(b)) + 1), Lev(Front(a), Front(b)) + Cost(Last(a), Last(b)))
  }

  /** editDistance: one row of the table at a time. */
  method EditDistance(a: string, b: string) returns (d: int)
    ensures d == Lev(a, b)
  {
    var prev := new int[|b| + 1];
    for j := 0 to |b| + 1
      invariant forall k | 0 <= k < j :: prev[k] == k
    {
      prev[j] := j;
    }
    FirstRow(b);
    for i := 1 to |a| + 1
      invariant IsRow(prev, a[..i - 1], b)
    {
      prev := NextRow(prev, a, b, i);
    }
    assert a[..|a|] == a && b[..|b|] == b;
    return prev[|b|];
  }

  /** The row of the table for a: its distances to every front of b. */
  ghost predicate IsRow(row: array<int>, a: string, b: string)
    reads row
  {
    row.Length == |b| + 1 && forall k {:trigger row[k]} | 0 <= k <= |b| :: row[k] == Lev(a, b[..k])
  }

  /** The body of editDistance's outer loop. */
  method NextRow(prev: array<int>, a: string, b: string, i: int) returns (cur: array<int>)
    requires 1 <= i <= |a| && IsRow(prev, a[..i - 1], b)
    ensures fresh(cur) && IsRow(cur, a[..i], b)
  {
    hide Lev;
    cur := new int[|b| + 1];
    cur[0] := i;
    ghost var above, here := a[..i - 1], a[..i];
    FirstCell(here, b);
    for j := 1 to |b| + 1
      invariant forall k {:trigger cur[k]} | 0 <= k < j :: cur[k] == Lev(here, b[..k])
      invariant IsRow(prev, above, b)
    {
      var cost := 1;
      if a[i - 1] == b[j - 1] { cost := 0; }
      TableCell(a, b, i, j);
      assert prev[j] == Lev(above, b[..j]) && prev[j - 1] == Lev(above, b[..j - 1]);
      cur[j] := Min(Min(prev[j] + 1, cur[j - 1] + 1), prev[j - 1] + cost);
    }
  }

  lemma FirstCell(a: string, b: string)
    ensures Lev(a, b[..0]) == |a|
  {
  }

  lemma TableCell(a: string, b: string, i: int, j: int)
    requires 1 <= i <= |a| && 1 <= j <= |b|
    ensures Lev(a[..i], b[..j]) ==
      Min(Min(Lev(a[..i - 1], b[..j]) + 1, Lev(a[..i], b[..j - 1]) + 1),
          Lev(a[..i - 1], b[..j - 1]) + Cost(a[i - 1], b[j - 1]))
  {
    hide Lev, Min, Cost;
    var s, t := a[..i], b[..j];
    assert Front(s) == a[..i - 1] && Front(t) == b[..j - 1] && Last(s) == a[i - 1] && Last(t) == b[j - 1];
    LastLetters(s, t);
  }

  /** The recursion of Lev, once. */
  lemma LastLetters(a: string, b: string)
    requires a != "" && b != ""
    ensures Lev(a, b) ==
      Min(Min(Lev(Front(a), b) + 1, Lev(a, Front(b)) + 1), Lev(Front(a), Front(b)) + Cost(Last(a), Last(b)))
  {
    hide Front, Last, Min, Cost;
  }

  lemma FirstRow(b: string)
    ensures forall k | 0 <= k <= |b| :: Lev("", b[..k]) == k
  {
  }

  // ---- what it is the distance of --------------------------------------------

  /** t comes from s by inserting, deleting or replacing one letter. */
  ghost predicate OneEdit(s: string, t: string) {
    || (exists i, c :: Inserts(s, t, i, c))
    || (exists i, c :: Inserts(t, s, i, c))
    || (exists i, c :: Replaces(s, t, i, c))
  }

  predicate Inserts(s: string, t: string, i: int, c: char) {
    0 <= i <= |s| && t == s[..i] + [c] + s[i..]
  }

  predicate Replaces(s: string, t: string, i: int, c: char) {
    0 <= i < |s| && t == s[..i] + [c] + s[i + 1..]
  }

  /** A way of turning a into b, one edit after another. */
  ghost predicate IsScript(p: seq<string>, a: string, b: string) {
    && p != [] && p[0] == a && p[|p| - 1] == b
    && forall i | 0 <= i < |p| - 1 :: OneEdit(p[i], p[i + 1])
  }

  // ---- it is a metric ----------------------------------------------------------

  lemma {:induction false} ZeroIffEqual(a: string, b: string)
    ensures Lev(a, b) == 0 <==> a == b
    decreases |a| + |b|
  {
    if a != "" && b != "" {
      ZeroIffEqual(Front(a), Front(b));
      assert a == Front(a) + [Last(a)] && b == Front(b) + [Last(b)];
    }
  }

  lemma {:induction false} Symmetric(a: string, b: string)
    ensures Lev(a, b) == Lev(b, a)
    decreases |a| + |b|
  {
    if a != "" && b != "" {
      Symmetric(Front(a), b);
      Symmetric(a, Front(b));
      Symmetric(Front(a), Front(b));
    }
  }

  /** No more edits than the longer of the two has letters: replacing one is one edit. */
  lemma {:induction false} LevAtMostLonger(a: string, b: string)
    ensures Lev(a, b) <= if |a| >= |b| then |a| else |b|
    decreases |a| + |b|
  {
    if a != "" && b != "" {
      LevAtMostLonger(Front(a), Front(b));
    }
  }

  lemma {:induction false} LengthGap(a: string, b: string)
    ensures |a| - |b| <= Lev(a, b)
    ensures |b| - |a| <= Lev(a, b)
    decreases |a| + |b|
  {
    if a != "" && b != "" {
      LengthGap(Front(a), b);
      LengthGap(a, Front(b));
      LengthGap(Front(a), Front(b));
    }
  }

  /** Which of the three moves the recursion takes. */
  datatype Move = Delete | Insert | Replace

  ghost predicate Takes(a: string, b: string, m: Move) {
    match m
    case Delete => a != "" && Lev(a, b) == Lev(Front(a), b) + 1
    case Insert => b != "" && Lev(a, b) == Lev(a, Front(b)) + 1
    case Replace => a != "" && b != "" && Lev(a, b) == Lev(Front(a), Front(b)) + Cost(Last(a), Last(b))
  }

  lemma SomeMove(a: string, b: string) returns (m: Move)
    requires a != "" || b != ""
    ensures Takes(a, b, m)
  {
    if a == "" { m := Insert; }
    else if b == "" || Lev(a, b) == Lev(Front(a), b) + 1 { m := Delete; }
    else if Lev(a, b) == Lev(a, Front(b)) + 1 { m := Insert; }
    else { m := Replace; }
  }

  /** Every move is an upper bound. */
  lemma NoMoveIsBetter(a: string, b: string)
    ensures a != "" ==> Lev(a, b) <= Lev(Front(a), b) + 1
    ensures b != "" ==> Lev(a, b) <= Lev(a, Front(b)) + 1
    ensures a != "" && b != "" ==> Lev(a, b) <= Lev(Front(a), Front(b)) + Cost(Last(a), Last(b))
  {
  }

  lemma {:induction false} Triangle(a: string, b: string, c: string)
    ensures Lev(a, c) <= Lev(a, b) + Lev(b, c)
    decreases |a| + |b| + |c|
  {
    if b == "" {
      LevAtMost(a, c);
    } else if a == "" || c == "" {
      LengthGap(a, b);
      LengthGap(b, c);
    } else {
      var m := SomeMove(a, b);
      var n := SomeMove(b, c);
      NoMoveIsBetter(a, c);
      if m == Delete {
        Triangle(Front(a), b, c);
      } else if n == Insert {
        Triangle(a, b, Front(c));
      } else if m == Insert && n == Delete {
        Triangle(a, Front(b), c);
      } else if m == Insert {
        Triangle(a, Front(b), Front(c));
      } else if n == Delete {
        Triangle(Front(a), Front(b), c);
      } else {
        Triangle(Front(a), Front(b), Front(c));
      }
    }
  }

  lemma {:induction false} LevAtMost(a: string, c: string)
    ensures Lev(a, c) <= |a| + |c|
    decreases |a| + |c|
  {
    if a != "" && c != "" { LevAtMost(Front(a), c); }
  }

  // ---- it is the least number of edits -------------------------------------------

  lemma InsertCosts(s: string, t: string, i: int, c: char)
    requires Inserts(s, t, i, c)
    ensures Lev(s, t) <= 1
    decreases |s|
  {
    if i == |s| {
      assert Front(t) == s;
      ZeroIffEqual(s, s);
      if s != "" { assert Lev(s, t) <= Lev(s, Front(t)) + 1; }
    } else {
      assert Front(t) == Front(s)[..i] + [c] + Front(s)[i..];
      assert Last(t) == Last(s);
      InsertCosts(Front(s), Front(t), i, c);
    }
  }

  lemma ReplaceCosts(s: string, t: string, i: int, c: char)
    requires Replaces(s, t, i, c)
    ensures Lev(s, t) <= 1
    decreases |s|
  {
    if i == |s| - 1 {
      assert Front(t) == Front(s);
      ZeroIffEqual(Front(s), Front(s));
    } else {
      assert Front(t) == Front(s)[..i] + [c] + Front(s)[i + 1..];
      assert Last(t) == Last(s);
      ReplaceCosts(Front(s), Front(t), i, c);
    }
  }

  lemma OneEditCosts(s: string, t: string)
    requires OneEdit(s, t)
    ensures Lev(s, t) <= 1
  {
    if i, c :| Inserts(s, t, i, c) {
      InsertCosts(s, t, i, c);
    } else if i, c :| Inserts(t, s, i, c) {
      InsertCosts(t, s, i, c);
      Symmetric(s, t);
    } else {
      var i, c :| Replaces(s, t, i, c);
      ReplaceCosts(s, t, i, c);
    }
  }

  /** No script is shorter than the distance ... */
  lemma {:induction false} NoScriptIsShorter(p: seq<string>, a: string, b: string)
    requires IsScript(p, a, b)
    ensures Lev(a, b) <= |p| - 1
    decreases |p|
  {
    if |p| == 1 {
      ZeroIffEqual(a, b);
    } else {
      assert OneEdit(p[0], p[1]);
      OneEditCosts(p[0], p[1]);
      NoScriptIsShorter(p[1..], p[1], b);
      Triangle(a, p[1], b);
    }
  }

  /** ... and one script is that short. */
  lemma {:induction false} SomeScriptIsThatShort(a: string, b: string) returns (p: seq<string>)
    ensures IsScript(p, a, b) && |p| - 1 == Lev(a, b)
    decreases |a| + |b|
  {
    if a == "" && b == "" {
      return [a];
    }
    hide Lev, IsScript, OneEdit, Last, Cost;
    var m := SomeMove(a, b);
    match m
    case Delete =>
      p := SomeScriptIsThatShort(Front(a), b);
      LastLetterEdits(a);
      p := Prepend(a, p, Front(a), b);
    case Insert =>
      p := SomeScriptIsThatShort(a, Front(b));
      LastLetterEdits(b);
      p := Append(p, a, Front(b), b);
    case Replace =>
      p := SomeScriptIsThatShort(Front(a), Front(b));
      p := TurnLast(p, a, b);
  }

  lemma TurnLast(p: seq<string>, a: string, b: string) returns (q: seq<string>)
    requires a != "" && b != "" && IsScript(p, Front(a), Front(b))
    ensures IsScript(q, a, b) && |q| == |p| + Cost(Last(a), Last(b))
  {
    hide IsScript, OneEdit;
    q := Extend(p, Front(a), Front(b), Last(a));
    assert Front(a) + [Last(a)] == a && Front(b) + [Last(b)] == b;
    if Last(a) != Last(b) {
      LastLetterReplaced(b, Last(a));
      q := Append(q, a, Front(b) + [Last(a)], b);
    }
  }

  lemma LastLetterEdits(s: string)
    requires s != ""
    ensures OneEdit(s, Front(s)) && OneEdit(Front(s), s)
  {
    assert Inserts(Front(s), s, |s| - 1, Last(s));
  }

  lemma LastLetterReplaced(s: string, z: char)
    requires s != ""
    ensures OneEdit(Front(s) + [z], s)
  {
    assert Replaces(Front(s) + [z], s, |s| - 1, Last(s));
  }

  lemma Prepend(a: string, p: seq<string>, a': string, b: string) returns (q: seq<string>)
    requires IsScript(p, a', b) && OneEdit(a, a')
    ensures IsScript(q, a, b) && |q| == |p| + 1
  {
    q := [a] + p;
    forall i | 0 <= i < |q| - 1 ensures OneEdit(q[i], q[i + 1]) {
      if i > 0 { assert OneEdit(p[i - 1], p[i]); }
    }
  }

  lemma Append(p: seq<string>, a: string, b': string, b: string) returns (q: seq<string>)
    requires IsScript(p, a, b') && OneEdit(b', b)
    ensures IsScript(q, a, b) && |q| == |p| + 1
  {
    q := p + [b];
    forall i | 0 <= i < |q| - 1 ensures OneEdit(q[i], q[i + 1]) {
      if i < |p| - 1 { assert OneEdit(p[i], p[i + 1]); }
    }
  }

  /** A script still works with the same letter written behind every string. */
  lemma Extend(p: seq<string>, a: string, b: string, z: char) returns (q: seq<string>)
    requires IsScript(p, a, b)
    ensures IsScript(q, a + [z], b + [z]) && |q| == |p|
  {
    q := seq(|p|, i requires 0 <= i < |p| => p[i] + [z]);
    forall i | 0 <= i < |p| - 1 ensures OneEdit(q[i], q[i + 1]) {
      OneEditExtends(p[i], p[i + 1], z);
    }
  }

  lemma OneEditExtends(s: string, t: string, z: char)
    requires OneEdit(s, t)
    ensures OneEdit(s + [z], t + [z])
  {
    if i, c :| Inserts(s, t, i, c) {
      assert Inserts(s + [z], t + [z], i, c);
    } else if i, c :| Inserts(t, s, i, c) {
      assert Inserts(t + [z], s + [z], i, c);
    } else {
      var i, c :| Replaces(s, t, i, c);
      assert Replaces(s + [z], t + [z], i, c);
    }
  }

  // ---- Suggest ------------------------------------------------------------------

  predicate Contains(s: string, sub: string) { exists i | 0 <= i <= |s| :: OccursAt(s, sub, i) }

  /** How far a candidate is taken to be: one that contains the name counts as
      one edit away, however long it is, and even when it is the name. `lower` is
      strings.ToLower. */
  function Distance(lower: string -> string, name: string, candidate: string): nat {
    if name != "" && Contains(lower(candidate), lower(name)) then 1 else Lev(lower(name), lower(candidate))
  }

  ghost predicate Nearest(lower: string -> string, name: string, candidates: seq<string>, bound: int, i: int) {
    && 0 <= i < |candidates| && Distance(lower, name, candidates[i]) < bound
    && var d := Distance(lower, name, candidates[i]);
       && (forall j | 0 <= j < |candidates| :: Distance(lower, name, candidates[j]) >= d)
       && (forall j | 0 <= j < i :: Distance(lower, name, candidates[j]) > d)
  }

  /** The first of the nearest candidates, if any is near enough. */
  method Suggest(lower: string -> string, name: string, candidates: seq<string>) returns (best: string)
    ensures
      var bound := |name| / 3 + 2;
      || (best == "" && forall j | 0 <= j < |candidates| :: Distance(lower, name, candidates[j]) >= bound)
      || exists i :: Nearest(lower, name, candidates, bound, i) && best == candidates[i]
    ensures best != "" ==>
      && best in candidates
      && (|| (name != "" && Index(lower(best), lower(name)) >= 0)
          || Lev(lower(name), lower(best)) < |name| / 3 + 2)
    ensures best != "" ==> forall c | c in candidates ::
      || (name != "" && (Index(lower(best), lower(name)) >= 0 || Index(lower(c), lower(name)) >= 0))
      || Lev(lower(name), lower(best)) <= Lev(lower(name), lower(c))
    ensures best != "" ==> forall c | c in candidates && name != "" && Index(lower(c), lower(name)) >= 0 ::
      Index(lower(best), lower(name)) >= 0 || Lev(lower(name), lower(best)) <= 1
    ensures best == "" && "" !in candidates ==> forall c | c in candidates ::
      && (name == "" || Index(lower(c), lower(name)) < 0)
      && Lev(lower(name), lower(c)) >= |name| / 3 + 2
  {
    hide Lev;
    var bound := |name| / 3 + 2;
    var bestDist := bound;
    best := "";
    ghost var at := -1;
    for n := 0 to |candidates|
      invariant bestDist <= bound
      invariant forall j | 0 <= j < n :: Distance(lower, name, candidates[j]) >= bestDist
      invariant at == -1 ==> best == "" && bestDist == bound
      invariant at != -1 ==> 0 <= at < n && best == candidates[at] && bestDist == Distance(lower, name, best) < bound
      invariant forall j | 0 <= j < at :: Distance(lower, name, candidates[j]) > bestDist
    {
      var c := candidates[n];
      var d := EditDistance(lower(name), lower(c));
      if Index(lower(c), lower(name)) >= 0 && name != "" { d := 1; }
      assert d == Distance(lower, name, c);
      if d < bestDist { best, bestDist, at := c, d, n; }
    }
    assert at != -1 ==> Nearest(lower, name, candidates, bound, at);
  }
}
