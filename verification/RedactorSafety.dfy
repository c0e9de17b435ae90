/** What the redactor is for: no secret is shown, and nothing else is touched. */
module RedactorSafety {
  import opened Text
  import opened Redactor

  /** sub is nowhere in the text. */
  ghost predicate Absent(text: string, sub: string) { forall i :: !OccursAt(text, sub, i) }

  /** A secret that cannot be pieced together from a mark and its surroundings. */
  ghost predicate Markless(s: string) { Inert(s) && Absent(MARK, s) }

  // ---- no secret is shown ---------------------------------------------------------

  /** Nothing starts within a mark. */
  lemma NothingInMark(s: string, rest: string, i: int)
    requires Markless(s) && s != "" && 0 <= i < |MARK|
    ensures !OccursAt(MARK + rest, s, i)
  {
    var t := MARK + rest;
    if OccursAt(t, s, i) {
      forall k: nat | k < |s| ensures t[i + k] == s[k] { LetterAt(t, s, i, k); }
      if i + |s| <= |MARK| {
        OccursHere(MARK, s, i);
      } else if i == 0 {
        OccursHere(s, MARK, 0);
      } else {
        EndsAsBegins(MARK, s, |MARK| - i);
      }
    }
  }

  /** Nothing runs from the text before a mark into it. */
  lemma NothingIntoMark(s: string, x: string, y: string)
    requires Markless(s) && |s| > |x| > 0
    ensures !OccursAt(x + MARK + y, s, 0)
  {
    var t := x + MARK + y;
    if OccursAt(t, s, 0) {
      forall k: nat | k < |s| ensures t[k] == s[k] { LetterAt(t, s, 0, k); }
      if |s| - |x| < |MARK| {
        EndsAsBegins(s, MARK, |s| - |x|);
      } else {
        OccursHere(s, MARK, |x|);
      }
    }
  }

  /** Where s starts in a longer text, and not at its beginning. */
  lemma LaterOccurrence(a: string, b: string, s: string, i: int)
    requires i >= |a|
    ensures OccursAt(a + b, s, i) <==> OccursAt(b, s, i - |a|)
  {
    if i + |s| <= |a + b| { assert (a + b)[i..i + |s|] == b[i - |a|..i - |a| + |s|]; }
  }

  /** Replacing t, be it s itself or another secret, leaves no s in a text that has
      none but what goes. */
  lemma {:induction false} StaysAbsent(text: string, t: string, s: string)
    requires t != "" && s != "" && Markless(s) && (s == t || Absent(text, s))
    ensures Absent(ReplaceAll(text, t, MARK), s)
    decreases |text|
  {
    hide Markless, ReplaceAll;
    ReplaceAllOnce(text, t);
    var out := ReplaceAll(text, t, MARK);
    if |text| < |t| {
    } else if text[..|t|] == t {
      var rest := text[|t|..];
      RestAbsent(text, |t|, t, s);
      StaysAbsent(rest, t, s);
      forall i ensures !OccursAt(out, s, i) {
        if 0 <= i < |MARK| {
          NothingInMark(s, ReplaceAll(rest, t, MARK), i);
        } else if i >= |MARK| {
          LaterOccurrence(MARK, ReplaceAll(rest, t, MARK), s, i);
        }
      }
    } else {
      var rest := text[1..];
      RestAbsent(text, 1, t, s);
      StaysAbsent(rest, t, s);
      NotFirst(text, t, s);
      forall i ensures !OccursAt(out, s, i) {
        if i >= 1 { LaterOccurrence([text[0]], ReplaceAll(rest, t, MARK), s, i); }
      }
    }
  }

  lemma RestAbsent(text: string, k: nat, t: string, s: string)
    requires k <= |text| && (s == t || Absent(text, s))
    ensures s == t || Absent(text[k..], s)
  {
    if s != t {
      assert text[..k] + text[k..] == text;
      forall i ensures !OccursAt(text[k..], s, i) {
        if i >= 0 { LaterOccurrence(text[..k], text[k..], s, i + k); }
      }
    }
  }

  lemma NotFirst(text: string, t: string, s: string)
    requires 0 < |t| <= |text| && text[..|t|] != t && s != "" && Markless(s) && (s == t || Absent(text, s))
    ensures !OccursAt([text[0]] + ReplaceAll(text[1..], t, MARK), s, 0)
  {
    hide Markless, ReplaceAll, OccursAt;
    NotAtStart(text, t, s);
    var x, y := FirstMark(text[1..], t);
    if ReplaceAll(text[1..], t, MARK) == text[1..] {
      assert [text[0]] + text[1..] == text;
    } else {
      FrontOf(text, x);
      NotBeforeMark(text, [text[0]] + x, y, s);
      assert [text[0]] + (x + MARK + y) == [text[0]] + x + MARK + y;
    }
  }

  lemma FrontOf(text: string, x: string)
    requires text != "" && |x| < |text| && x == text[1..][..|x|]
    ensures [text[0]] + x == text[..1 + |x|]
  {
  }

  lemma NotBeforeMark(text: string, front: string, y: string, s: string)
    requires s != "" && Markless(s) && !OccursAt(text, s, 0)
    requires 0 < |front| <= |text| && front == text[..|front|]
    ensures !OccursAt(front + MARK + y, s, 0)
  {
    hide Markless, OccursAt;
    if |s| <= |front| {
      assert front + text[|front|..] == text && front + (MARK + y) == front + MARK + y;
      SameFront(front, MARK + y, text[|front|..], s);
    } else {
      NothingIntoMark(s, front, y);
    }
  }

  lemma NotAtStart(text: string, t: string, s: string)
    requires 0 < |t| <= |text| && text[..|t|] != t && (s == t || Absent(text, s))
    ensures !OccursAt(text, s, 0)
  {
    if s == t { assert text[0..|t|] == text[..|t|]; }
  }

  lemma SameFront(front: string, a: string, b: string, s: string)
    requires |s| <= |front|
    ensures OccursAt(front + a, s, 0) <==> OccursAt(front + b, s, 0)
  {
    assert (front + a)[0..|s|] == front[..|s|] == (front + b)[0..|s|];
  }

  lemma {:induction false} StaysHidden(values: seq<string>, text: string, s: string)
    requires (forall i | 0 <= i < |values| :: values[i] != "") && s != "" && Markless(s) && Absent(text, s)
    ensures Absent(Redact(values, text), s)
    decreases |values|
  {
    hide Markless, ReplaceAll, Absent;
    if values != [] {
      StaysAbsent(text, values[0], s);
      StaysHidden(values[1..], ReplaceAll(text, values[0], MARK), s);
    }
  }

  /** Whatever the other secrets are, one that has nothing to do with marks is nowhere
      in what is written for a text. */
  lemma {:induction false} NoSecretIsShown(values: seq<string>, text: string, s: string)
    requires (forall i | 0 <= i < |values| :: values[i] != "") && s in values && Markless(s)
    ensures Absent(Redact(values, text), s)
    decreases |values|
  {
    hide Markless, ReplaceAll, Absent;
    var after := ReplaceAll(text, values[0], MARK);
    if s == values[0] {
      StaysAbsent(text, s, s);
      StaysHidden(values[1..], after, s);
    } else {
      NoSecretIsShown(values[1..], after, s);
    }
  }

  /** Nor is it anywhere in all that is shown for a log, however it was chunked. */
  lemma NoSecretIsEverShown(values: seq<string>, chunks: seq<string>, s: string)
    requires (forall i | 0 <= i < |values| :: values[i] != "") && CutsClean(values) && LaterInert(values)
    requires s in values && Markless(s)
    ensures Absent(Shown(values, chunks), s)
  {
    hide Markless, Absent, Shown, Redact, CutsClean, LaterInert;
    CleanCutsShowWhole(values, chunks);
    NoSecretIsShown(values, Flatten(chunks), s);
  }

  // ---- which secrets that are ------------------------------------------------------

  /** A secret that does not overlap itself, in the midst of less than itself on
      either side, is the only one there. */
  lemma OnlyThere(s: string, u: string, v: string, i: int)
    requires s != "" && !Overlaps(s, s) && |u| < |s| && |v| < |s|
    ensures OccursAt(u + s + v, s, i) <==> i == |u|
  {
    hide OccursAt, Overlaps;
    var t := u + s + v;
    assert forall k: nat | k < |s| :: t[|u| + k] == s[k];
    OccursHere(t, s, |u|);
    if OccursAt(t, s, i) && i != |u| {
      LetterAt(t, s, i, 0);
      forall k: nat | k < |s| ensures t[i + k] == s[k] { LetterAt(t, s, i, k); }
      if i < |u| { RunsOver(t, s, i, |u|); } else { RunsOver(t, s, |u|, i); }
    }
  }

  lemma RunsOver(t: string, s: string, i: nat, j: nat)
    requires i < j < i + |s| && j + |s| <= |t|
    requires forall k: nat | k < |s| :: t[i + k] == s[k] && t[j + k] == s[k]
    ensures Overlaps(s, s)
  {
    var k := i + |s| - j;
    forall m | 0 <= m < k ensures s[|s| - k + m] == s[m] { assert t[i + (|s| - k + m)] == t[j + m]; }
    EndsAsBegins(s, s, k);
  }

  lemma NothingAcross(s: string, u: string, v: string)
    requires s != "" && !Overlaps(s, s) && |u| < |s| && |v| < |s|
    ensures forall i :: !Straddles(u + (s + v), s, i, |u|)
  {
    hide OccursAt, Overlaps;
    assert u + s + v == u + (s + v);
    forall i ensures !Straddles(u + (s + v), s, i, |u|) { OnlyThere(s, u, v, i); }
  }

  lemma Sandwich(s: string, u: string, v: string)
    requires s != "" && !Overlaps(s, s) && |u| < |s| && |v| < |s|
    ensures ReplaceAll(u + s + v, s, MARK) == u + MARK + v
  {
    hide ReplaceAll, Straddles, Overlaps;
    assert u + s + v == u + (s + v);
    NothingAcross(s, u, v);
    ReplaceAllSplits(u, s + v, s);
    FirstGoes(s, v);
    ShortTextKept(u, s);
    assert u + (MARK + v) == u + MARK + v;
  }

  lemma FirstGoes(s: string, v: string)
    requires s != "" && |v| < |s|
    ensures ReplaceAll(s + v, s, MARK) == MARK + v
  {
    hide ReplaceAll, OccursAt;
    OccursHere(s + v, s, 0);
    LeadingSecretGoes(s + v, s);
    assert (s + v)[|s|..] == v;
    ShortTextKept(v, s);
  }

  lemma ShownAfterAll(s: string, u: string, v: string, i: nat)
    requires s != "" && !Overlaps(s, s) && |u| < |s| && |v| < |s| && OccursAt(u + MARK + v, s, i)
    ensures exists text :: !Absent(Redact([s], text), s)
  {
    hide ReplaceAll, OccursAt, Overlaps, Redact;
    var text := u + s + v;
    Sandwich(s, u, v);
    RedactOne(s, text);
    assert !Absent(Redact([s], text), s);
  }

  /** One secret that does not overlap itself is hidden in every text exactly when it
      has nothing to do with marks. */
  lemma HiddenExact(s: string)
    requires s != "" && !Overlaps(s, s)
    ensures (forall text :: Absent(Redact([s], text), s)) <==> Markless(s)
  {
    hide Absent, Redact, ReplaceAll;
    if Markless(s) {
      forall text ensures Absent(Redact([s], text), s) { NoSecretIsShown([s], text, s); }
    } else {
      MarkedIsShown(s);
    }
  }

  lemma MarkedIsShown(s: string)
    requires s != "" && !Overlaps(s, s) && !Markless(s)
    ensures exists text :: !Absent(Redact([s], text), s)
  {
    hide Redact, ReplaceAll, OccursAt, Absent;
    if i :| OccursAt(MARK, s, i) {
      InMark(s, i);
    } else if k :| 0 < k < |MARK| && k < |s| && MARK[|MARK| - k..] == s[..k] {
      AfterMark(s, k);
    } else if k :| 0 < k < |s| && k < |MARK| && s[|s| - k..] == MARK[..k] {
      BeforeMark(s, k);
    } else {
      NotMarkless(s);
      var i :| OccursAt(s, MARK, i);
      AroundMark(s, i);
    }
  }

  lemma NotMarkless(s: string)
    requires !Markless(s)
    requires forall i :: !OccursAt(MARK, s, i)
    requires forall k | 0 < k < |MARK| && k < |s| :: MARK[|MARK| - k..] != s[..k]
    requires forall k | 0 < k < |s| && k < |MARK| :: s[|s| - k..] != MARK[..k]
    ensures exists i :: OccursAt(s, MARK, i)
  {
  }

  lemma InMark(s: string, i: int)
    requires s != "" && !Overlaps(s, s) && OccursAt(MARK, s, i)
    ensures exists text :: !Absent(Redact([s], text), s)
  {
    assert "" + MARK + "" == MARK;
    ShownAfterAll(s, "", "", i);
  }

  lemma AroundMark(s: string, i: int)
    requires s != "" && !Overlaps(s, s) && OccursAt(s, MARK, i)
    ensures exists text :: !Absent(Redact([s], text), s)
  {
    hide Redact, Absent, Overlaps;
    assert s[..i] + MARK + s[i + |MARK|..] == s;
    OccursHere(s, s, 0);
    ShownAfterAll(s, s[..i], s[i + |MARK|..], 0);
  }

  lemma AfterMark(s: string, k: nat)
    requires 0 < k < |MARK| && k < |s| && MARK[|MARK| - k..] == s[..k] && !Overlaps(s, s)
    ensures exists text :: !Absent(Redact([s], text), s)
  {
    var t, m := "" + MARK + s[k..], |MARK| - k;
    forall j: nat | j < |s| ensures t[m + j] == s[j] {
      if j < k { assert MARK[m..][j] == s[..k][j]; }
    }
    OccursHere(t, s, m);
    ShownAfterAll(s, "", s[k..], m);
  }

  lemma BeforeMark(s: string, k: nat)
    requires 0 < k < |s| && k < |MARK| && s[|s| - k..] == MARK[..k] && !Overlaps(s, s)
    ensures exists text :: !Absent(Redact([s], text), s)
  {
    var u := s[..|s| - k];
    var t := u + MARK + "";
    forall j: nat | j < |s| ensures t[j] == s[j] {
      if j >= |u| { assert s[|u|..][j - |u|] == MARK[..k][j - |u|]; }
    }
    OccursHere(t, s, 0);
    ShownAfterAll(s, u, "", 0);
  }

  // ---- nothing else is touched -----------------------------------------------------

  lemma {:induction false} NothingToRedact(values: seq<string>, text: string)
    requires forall i | 0 <= i < |values| :: values[i] != "" && Absent(text, values[i])
    ensures Redact(values, text) == text
    decreases |values|
  {
    hide ReplaceAll;
    if values != [] {
      NothingToReplace(text, values[0]);
      NothingToRedact(values[1..], text);
    }
  }

  lemma EarlierOccurrence(a: string, b: string, s: string, i: int)
    ensures OccursAt(a, s, i) ==> OccursAt(a + b, s, i)
  {
    if OccursAt(a, s, i) { assert (a + b)[i..i + |s|] == a[i..i + |s|]; }
  }

  lemma PartAbsent(a: string, b: string, s: string)
    requires Absent(a + b, s)
    ensures Absent(a, s) && Absent(b, s)
  {
    forall i ensures !OccursAt(a, s, i) { EarlierOccurrence(a, b, s, i); }
    forall i ensures !OccursAt(b, s, i) {
      if i >= 0 { LaterOccurrence(a, b, s, i + |a|); }
    }
  }

  lemma {:induction false} PiecesUntouched(values: seq<string>, pieces: seq<string>)
    requires forall i | 0 <= i < |values| :: values[i] != "" && Absent(Flatten(pieces), values[i])
    ensures RedactPieces(values, pieces) == Flatten(pieces)
    decreases |pieces|
  {
    hide Absent, Redact;
    if pieces != [] {
      var front, last := pieces[..|pieces| - 1], pieces[|pieces| - 1];
      forall i | 0 <= i < |values| ensures Absent(Flatten(front), values[i]) && Absent(last, values[i]) {
        PartAbsent(Flatten(front), last, values[i]);
      }
      PiecesUntouched(values, front);
      NothingToRedact(values, last);
    }
  }

  /** A log without secrets is shown as it is, however it was chunked and whatever the
      secrets are. */
  lemma CleanLogIsShown(values: seq<string>, chunks: seq<string>)
    requires forall i | 0 <= i < |values| :: values[i] != "" && Absent(Flatten(chunks), values[i])
    ensures Shown(values, chunks) == Flatten(chunks)
  {
    hide Absent, Redact, FeedAll, Flatten;
    var f := FeedAll(values, chunks);
    PiecesPartition(values, chunks);
    forall i | 0 <= i < |values| ensures Absent(Flatten(f.pieces), values[i]) && Absent(f.pending, values[i]) {
      PartAbsent(Flatten(f.pieces), f.pending, values[i]);
    }
    PiecesUntouched(values, f.pieces);
    NothingToRedact(values, f.pending);
  }
}
