/** Inputs that show what the conditions on several secrets are for. */
module RedactorLimits {
  import opened Text
  import opened Redactor

  /** All letters of the text differ, so a secret starts where its first letter is. */
  predicate AllDiffer(text: string) { forall i, j | 0 <= i < j < |text| :: text[i] != text[j] }

  lemma OccursOnce(text: string, s: string, at: nat, i: int)
    requires AllDiffer(text) && s != "" && OccursAt(text, s, at)
    ensures OccursAt(text, s, i) <==> i == at
  {
    if OccursAt(text, s, i) { assert text[i] == text[i..i + |s|][0] == s[0] == text[at..at + |s|][0] == text[at]; }
  }

  /** How a cut moves over a secret that occurs once. */
  lemma ShiftOnce(text: string, s: string, at: nat, cut: nat)
    requires AllDiffer(text) && s != "" && OccursAt(text, s, at)
    ensures Shift(text, s, cut, 0) == if at < cut < at + |s| then at else cut
  {
    forall i ensures OccursAt(text, s, i) <==> i == at { OccursOnce(text, s, at, i); }
    ShiftIsFirst(text, s, cut, if at < cut < at + |s| then at else cut);
  }

  lemma Absent(text: string, s: string, k: nat)
    requires k < |s| && Without(text, s[k])
    ensures forall i :: !OccursAt(text, s, i)
    ensures ReplaceAll(text, s, MARK) == text
    ensures forall cut: nat :: Shift(text, s, cut, 0) == cut
  {
    hide Shift, ReplaceAll;
    forall i ensures !OccursAt(text, s, i) { LetterAt(text, s, i, k); }
    NothingToReplace(text, s);
    forall cut: nat ensures Shift(text, s, cut, 0) == cut { ShiftIsFirst(text, s, cut, cut); }
  }

  lemma LongestOfTwo(s: string, t: string)
    requires |s| >= |t|
    ensures Longest([s, t]) == |s|
  {
    LongestOfFront([s, t]);
    LongestOfFront([s]);
    assert [s, t][..1] == [s] && [s][..0] == [];
  }

  lemma ShiftAllSnoc(text: string, front: seq<string>, s: string, cut: nat)
    ensures ShiftAll(text, front + [s], cut) == Shift(text, s, ShiftAll(text, front, cut), 0)
  {
    hide Shift;
    assert (front + [s])[..|front|] == front;
  }

  lemma ShiftAllOne(text: string, s: string, cut: nat)
    ensures ShiftAll(text, [s], cut) == Shift(text, s, cut, 0)
  {
    hide Shift;
    ShiftAllSnoc(text, [], s, cut);
    assert [] + [s] == [s];
  }

  lemma CutOfTwo(s: string, t: string, text: string)
    requires |s| >= |t| && |s| < |text|
    ensures CutPoint([s, t], text) == Shift(text, t, Shift(text, s, |text| - |s|, 0), 0)
  {
    hide Shift, Longest, ShiftAll;
    var cut := |text| - |s|;
    LongestOfTwo(s, t);
    ShiftAllOne(text, s, cut);
    ShiftAllSnoc(text, [s], t, cut);
    assert [s] + [t] == [s, t];
  }

  lemma ShownInOne(values: seq<string>, text: string)
    requires forall i | 0 <= i < |values| :: values[i] != ""
    ensures
      var c := CutPoint(values, text);
      Shown(values, [text]) == Redact(values, text[..c]) + Redact(values, text[c..])
  {
    OneChunk(values, text);
    RedactOnePiece(values, text[..CutPoint(values, text)]);
  }

  lemma RedactTwo(s: string, t: string, text: string)
    requires s != "" && t != ""
    ensures Redact([s, t], text) == ReplaceAll(ReplaceAll(text, s, MARK), t, MARK)
  {
    RedactOne(t, ReplaceAll(text, s, MARK));
    assert [s, t][1..] == [t];
  }

  lemma NoOverlap(s: string, t: string)
    requires s != "" && t != "" && Without(s[1..], t[0])
    ensures !Overlaps(s, t)
  {
    forall k | 0 < k < |s| && k < |t| ensures s[|s| - k..] != t[..k] {
      assert s[|s| - k..][0] == s[1..][|s| - k - 1];
    }
  }

  /** A secret with neither end of the mark in it has nothing to do with marks. */
  lemma InertWithout(t: string)
    requires t != "" && Without(t, '<') && Without(t, '>')
    ensures Inert(t)
  {
    NoOverlap(t, MARK);
    forall k | 0 < k < |MARK| && k < |t| ensures MARK[|MARK| - k..] != t[..k] {
      assert MARK[|MARK| - k..][k - 1] == '>' && t[..k][k - 1] == t[k - 1];
    }
    Absent(t, MARK, 0);
  }

  /** Two secrets that overlap: the cut moves to the front of the second, inside the
      first, and the start of the first is shown. */
  lemma OverlapShows()
    ensures
      var values, text := ["xab", "bcd"], "xabcd-";
      && Prepared(values) && LaterInert(values) && !Separable(values)
      && Shown(values, [text]) != Redact(values, text)
  {
    hide Redact, Shown, ReplaceAll, CutPoint, Inert, OccursAt, Shift, Overlaps;
    var s, t, text := "xab", "bcd", "xabcd-";
    var values := [s, t];
    InertWithout(t);
    EndsAsBegins(s, t, 1);
    StartIsShown(s, t, text);
    StartIsReplaced(s, t, text);
  }

  lemma StartIsShown(s: string, t: string, text: string)
    requires s == "xab" && t == "bcd" && text == "xabcd-"
    ensures Shown([s, t], [text]) != "" && Shown([s, t], [text])[0] == 'x'
  {
    hide Redact, Shown, ReplaceAll, CutPoint, OccursAt;
    CutInside(s, t, text);
    ShownInOne([s, t], text);
    assert text[..2] == "xa" && text[2..] == "bcd-";
    RedactTwo(s, t, "xa");
    ShortTextKept("xa", s);
    ShortTextKept("xa", t);
  }

  lemma StartIsReplaced(s: string, t: string, text: string)
    requires s == "xab" && t == "bcd" && text == "xabcd-"
    ensures Redact([s, t], text) != "" && Redact([s, t], text)[0] == '<'
  {
    hide Redact, ReplaceAll, OccursAt;
    OccursHere(text, s, 0);
    RedactTwo(s, t, text);
    LeadingSecretGoes(text, s);
    assert text[3..] == "cd-";
    ShortTextKept("cd-", s);
    Absent(MARK + "cd-", t, 0);
  }

  lemma CutInside(s: string, t: string, text: string)
    requires s == "xab" && t == "bcd" && text == "xabcd-"
    ensures CutPoint([s, t], text) == 2
  {
    hide CutPoint, OccursAt, Shift;
    OccursHere(text, s, 0);
    OccursHere(text, t, 2);
    CutOfTwo(s, t, text);
    ShiftOnce(text, s, 0, 3);
    ShiftOnce(text, t, 2, 3);
  }

  /** A secret that can grow out of a mark: the whole text has one occurrence of it
      after the first secret is replaced, the pieces have none. */
  lemma MarkFeedsSecret()
    ensures
      var values, text := ["wxyz", "d>a"], "wxyzabcd";
      && Prepared(values) && Separable(values) && !LaterInert(values)
      && Shown(values, [text]) != Redact(values, text)
  {
    hide Redact, Shown, ReplaceAll, CutPoint, OccursAt, Shift, Overlaps;
    var s, t, text := "wxyz", "d>a", "wxyzabcd";
    FedByMark(s, t);
    InPieces(s, t, text);
    InWhole(s, t, text);
    assert (MARK + Redact([s, t], "abcd"))[8] == 'd' && Redact([s, t], text)[8] == '<';
  }

  lemma FedByMark(s: string, t: string)
    requires s == "wxyz" && t == "d>a"
    ensures Prepared([s, t]) && Separable([s, t]) && !LaterInert([s, t])
  {
    hide Overlaps, OccursAt;
    NoOverlap(s, s);
    NoOverlap(s, t);
    NoOverlap(t, t);
    EndsAsBegins(MARK, t, 2);
    assert [s, t][1] == t && !Inert(t);
  }

  lemma InPieces(s: string, t: string, text: string)
    requires s == "wxyz" && t == "d>a" && text == s + "abcd"
    ensures Shown([s, t], [text]) == MARK + Redact([s, t], "abcd")
  {
    hide Redact, Shown, ReplaceAll, CutPoint, OccursAt, Shift;
    CutAfterFirst(s, t, text);
    ShownInOne([s, t], text);
    assert text[..4] == s && text[4..] == "abcd";
    OnlyMark(s, t);
  }

  lemma Letters(text: string)
    requires text == "wxyz" + "abcd"
    ensures text == "wxyzabcd" && AllDiffer(text) && Without(text, '>')
  {
  }

  lemma CutAfterFirst(s: string, t: string, text: string)
    requires s == "wxyz" && t == "d>a" && text == s + "abcd"
    ensures CutPoint([s, t], text) == 4
  {
    hide CutPoint, OccursAt, Shift;
    Letters(text);
    OccursHere(text, s, 0);
    CutOfTwo(s, t, text);
    ShiftOnce(text, s, 0, 4);
    Absent(text, t, 1);
  }

  lemma OnlyMark(s: string, t: string)
    requires s == "wxyz" && t == "d>a"
    ensures Redact([s, t], s) == MARK
  {
    hide Redact, ReplaceAll, OccursAt;
    RedactTwo(s, t, s);
    OccursHere(s, s, 0);
    LeadingSecretGoes(s, s);
    ShortTextKept("", s);
    assert s[4..] == "" && MARK + "" == MARK;
    assert forall j | 0 <= j < |MARK| - 1 :: MARK[j] != '>';
    forall i ensures !OccursAt(MARK, t, i) {
      LetterAt(MARK, t, i, 1);
      LetterAt(MARK, t, i, 2);
    }
    NothingToReplace(MARK, t);
  }

  lemma InWhole(s: string, t: string, text: string)
    requires s == "wxyz" && t == "d>a" && text == s + "abcd"
    ensures Redact([s, t], text) == "<redacte" + MARK + "bcd"
  {
    hide Redact, ReplaceAll, OccursAt;
    RedactTwo(s, t, text);
    OccursHere(text, s, 0);
    LeadingSecretGoes(text, s);
    assert text[4..] == "abcd";
    ShortTextKept("abcd", s);
    var a, b := "<redacte", "d>abcd";
    assert MARK + "abcd" == a + b;
    forall i ensures !Straddles(a + b, t, i, |a|) {
      LetterAt(a + b, t, i, 1);
    }
    ReplaceAllSplits(a, b, t);
    Absent(a, t, 1);
    OccursHere(b, t, 0);
    LeadingSecretGoes(b, t);
    assert b[3..] == "bcd";
    Absent("bcd", t, 1);
  }

  /** Secrets that overlap in a chain can hold back three times the longest and more. */
  lemma PendingCanGrow()
    ensures
      var values, text := ["efg", "cde", "abc"], "abcdefghi";
      && Prepared(values) && !NonOverlapping(values)
      && |FeedAll(values, [text]).pending| == 3 * Longest(values)
  {
    hide FeedAll, ReplaceAll, CutPoint, OccursAt, Shift, Longest, Overlaps;
    var r, s, t, text := "efg", "cde", "abc", "abcdefghi";
    EndsAsBegins(t, s, 1);
    OccursHere(text, r, 4);
    OccursHere(text, s, 2);
    OccursHere(text, t, 0);
    ShiftOnce(text, r, 4, 6);
    ShiftOnce(text, s, 2, 4);
    ShiftOnce(text, t, 0, 2);
    LongestOfThree(r, s, t);
    CutOfThree(r, s, t, text, 4, 2, 0);
    OneChunk([r, s, t], text);
  }

  lemma LongestOfThree(r: string, s: string, t: string)
    requires |r| == |s| == |t|
    ensures Longest([r, s, t]) == |r|
  {
    hide Longest;
    LongestOfTwo(r, s);
    LongestOfFront([r, s, t]);
    assert [r, s, t][..2] == [r, s];
  }

  lemma CutOfThree(r: string, s: string, t: string, text: string, a: nat, b: nat, c: nat)
    requires |r| == |s| == |t| < |text| && a <= |text| - |r| && b <= a
    requires Shift(text, r, |text| - |r|, 0) == a && Shift(text, s, a, 0) == b && Shift(text, t, b, 0) == c
    ensures CutPoint([r, s, t], text) == c
  {
    hide Shift, Longest, ShiftAll;
    var cut := |text| - |r|;
    LongestOfThree(r, s, t);
    ShiftAllOne(text, r, cut);
    ShiftAllSnoc(text, [r], s, cut);
    assert [r] + [s] == [r, s];
    ShiftAllSnoc(text, [r, s], t, cut);
    assert [r, s] + [t] == [r, s, t];
    assert ShiftAll(text, [r, s, t], cut) == c;
  }

  /** No chunking splits a secret exactly when no text in one chunk does. */
  lemma CleanExact(values: seq<string>)
    ensures
      (forall chunks :: CleanPieces(values, FeedAll(values, chunks).pieces, Flatten(chunks))) <==> CutsClean(values)
  {
    hide FeedAll, CutPoint, Flatten, CleanPieces, CleanAt;
    if CutsClean(values) {
      forall chunks ensures CleanPieces(values, FeedAll(values, chunks).pieces, Flatten(chunks)) {
        CleanCutsMakeCleanPieces(values, chunks);
      }
    } else {
      var data :| !CleanAt(data, values, CutPoint(values, data));
      OneChunkShows(values, data);
      assert !CleanPieces(values, FeedAll(values, [data]).pieces, Flatten([data]));
    }
  }

  lemma OneChunkShows(values: seq<string>, data: string)
    requires !CleanAt(data, values, CutPoint(values, data))
    ensures !CleanPieces(values, FeedAll(values, [data]).pieces, Flatten([data]))
  {
    hide FeedAll, CutPoint, CleanAt;
    var c := CutPoint(values, data);
    OneChunk(values, data);
    BoundariesAfter([], data[..c]);
    var pieces := FeedAll(values, [data]).pieces;
    assert pieces == [] + [data[..c]];
    assert Boundary(pieces, 1) == c;
  }

  /** A secret is across a place only where that place has one of its later letters. */
  lemma LaterLetter(data: string, w: string, i: int, x: int)
    ensures Straddles(data, w, i, x) ==> 0 < x - i < |w| && 0 <= x < |data| && data[x] == w[x - i]
  {
    if Straddles(data, w, i, x) { LetterAt(data, w, i, x - i); }
  }

  /** Where a place has the first letter of "abc" no secret of the three is across. */
  lemma NothingAcrossFirst(data: string, x: int)
    requires 0 <= x < |data| && data[x] == 'a'
    ensures forall i ::
      !Straddles(data, "abcd", i, x) && !Straddles(data, "cdef", i, x) && !Straddles(data, "abc", i, x)
  {
    hide Straddles;
    forall i ensures !Straddles(data, "abcd", i, x) && !Straddles(data, "cdef", i, x) && !Straddles(data, "abc", i, x) {
      LaterLetter(data, "abcd", i, x);
      LaterLetter(data, "cdef", i, x);
      LaterLetter(data, "abc", i, x);
    }
  }

  /** Where "cdef" starts, only "abcd" can be across, and then "abc" is too. */
  lemma AcrossMiddle(data: string, x: int)
    requires OccursAt(data, "cdef", x) && forall i :: !Straddles(data, "abc", i, x)
    ensures forall i :: !Straddles(data, "abcd", i, x) && !Straddles(data, "cdef", i, x)
  {
    LetterAt(data, "cdef", x, 0);
    forall i ensures !Straddles(data, "abcd", i, x) && !Straddles(data, "cdef", i, x) {
      LaterLetter(data, "abcd", i, x);
      LaterLetter(data, "cdef", i, x);
      ShorterToo(data, i, x);
      assert !Straddles(data, "abc", i, x);
    }
  }

  lemma ShorterToo(data: string, i: int, x: int)
    ensures Straddles(data, "abcd", i, x) && x - i == 2 ==> Straddles(data, "abc", i, x)
  {
    if Straddles(data, "abcd", i, x) { assert data[i..i + 3] == data[i..i + 4][..3] == "abcd"[..3]; }
  }

  /** A third secret can take a cut back that two overlapping ones would leave inside
      the first: no chunking splits any of these. */
  lemma ThirdSecretRepairs()
    ensures
      var values := ["abcd", "cdef", "abc"];
      Prepared(values) && !Separable(values) && CutsClean(values)
  {
    hide CutPoint, Overlaps, Shift, Straddles, OccursAt;
    var values := ["abcd", "cdef", "abc"];
    EndsAsBegins("abcd", "cdef", 2);
    forall data ensures CleanAt(data, values, CutPoint(values, data)) { RepairedCut(data, values); }
  }

  lemma RepairedCut(data: string, values: seq<string>)
    requires values == ["abcd", "cdef", "abc"]
    ensures CleanAt(data, values, CutPoint(values, data))
  {
    hide Shift, OccursAt, Longest, ShiftAll;
    var cut := |data| - Longest(values);
    NoneAtStart(data);
    if cut > 0 {
      var c1 := Shift(data, "abcd", cut, 0);
      var c2 := Shift(data, "cdef", c1, 0);
      var c3 := Shift(data, "abc", c2, 0);
      ShiftAllOne(data, "abcd", cut);
      ShiftAllSnoc(data, ["abcd"], "cdef", cut);
      assert ["abcd"] + ["cdef"] == ["abcd", "cdef"];
      ShiftAllSnoc(data, ["abcd", "cdef"], "abc", cut);
      assert ["abcd", "cdef"] + ["abc"] == values;
      assert CutPoint(values, data) == c3;
      RepairedClean(data, cut, c1, c2, c3);
    }
  }

  lemma RepairedClean(data: string, cut: nat, c1: nat, c2: nat, c3: nat)
    requires c1 == Shift(data, "abcd", cut, 0) && c2 == Shift(data, "cdef", c1, 0) && c3 == Shift(data, "abc", c2, 0)
    ensures forall i ::
      !Straddles(data, "abcd", i, c3) && !Straddles(data, "cdef", i, c3) && !Straddles(data, "abc", i, c3)
  {
    hide Shift, OccursAt;
    ShiftFindsFirst(data, "abcd", cut, 0);
    ShiftFindsFirst(data, "cdef", c1, 0);
    ShiftFindsFirst(data, "abc", c2, 0);
    NoneBefore(data);
    if c3 < c2 {
      LetterAt(data, "abc", c3, 0);
      NothingAcrossFirst(data, c3);
    } else if c2 < c1 {
      AcrossMiddle(data, c2);
    } else if c1 < cut {
      LetterAt(data, "abcd", c1, 0);
      NothingAcrossFirst(data, c1);
    }
  }

  lemma NoneAtStart(data: string)
    ensures forall w, i :: !Straddles(data, w, i, 0)
  {
  }

  lemma NoneBefore(data: string)
    ensures forall w, i, x | i < 0 :: !Straddles(data, w, i, x)
  {
  }
}
