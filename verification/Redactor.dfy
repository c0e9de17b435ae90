/** The streaming secret redactor of internal/cli/run_access.go. */
module Redactor {
  import opened Text

  const MARK: string := "<redacted>"

  /** An occurrence of secret in text has a boundary strictly inside it. */
  predicate Straddles(text: string, secret: string, start: int, boundary: int) {
    OccursAt(text, secret, start) && start < boundary < start + |secret|
  }

  ghost predicate CleanAt(text: string, values: seq<string>, boundary: int) {
    forall s, i | s in values :: !Straddles(text, s, i, boundary)
  }

  /** A proper suffix of s is a proper prefix of t. */
  ghost predicate Overlaps(s: string, t: string) {
    exists k :: 0 < k < |s| && k < |t| && s[|s| - k..] == t[..k]
  }

  /** What newSecretRedactor leaves in `values`. */
  ghost predicate Prepared(values: seq<string>) {
    && (forall i | 0 <= i < |values| :: values[i] != "")
    && (forall i, j | 0 <= i < j < |values| :: |values[i]| >= |values[j]|)
  }

  /** No secret runs over the front of another that is no longer than itself. */
  ghost predicate Separable(values: seq<string>) {
    forall s, t | s in values && t in values && |s| >= |t| :: !Overlaps(s, t)
  }

  /** No secret runs over the front of another at all; nesting is allowed. */
  ghost predicate NonOverlapping(values: seq<string>) {
    forall s, t | s in values && t in values :: !Overlaps(s, t)
  }

  function Longest(values: seq<string>): nat {
    if values == [] then 0
    else
      var rest := Longest(values[1..]);
      if |values[0]| > rest then |values[0]| else rest
  }

  lemma {:induction false} LongestIsOne(values: seq<string>)
    requires values != []
    ensures exists s :: s in values && |s| == Longest(values)
  {
    if |values| == 1 || Longest(values) == |values[0]| {
      assert Longest(values[1..]) >= 0;
      assert values[0] in values;
    } else {
      LongestIsOne(values[1..]);
      var s :| s in values[1..] && |s| == Longest(values[1..]);
      assert s in values;
    }
  }

  lemma {:induction false} LongestBounds(values: seq<string>, s: string)
    requires s in values
    ensures |s| <= Longest(values)
  {
    if s != values[0] { LongestBounds(values[1..], s); }
  }

  /** Where one secret's scan leaves the cut: the first occurrence that the cut
      splits, looking at offsets from `from` on. */
  function Shift(data: string, secret: string, cut: nat, from: nat): (c: nat)
    requires from <= cut
    ensures from <= c <= cut
    decreases cut - from
  {
    if from == cut then cut
    else if Straddles(data, secret, from, cut) then from
    else Shift(data, secret, cut, from + 1)
  }

  lemma {:induction false} ShiftFindsFirst(data: string, secret: string, cut: nat, from: nat)
    requires from <= cut
    ensures
      var c := Shift(data, secret, cut, from);
      && (c < cut ==> Straddles(data, secret, c, cut))
      && forall i | from <= i && (i < c || c == cut) :: !Straddles(data, secret, i, cut)
    decreases cut - from
  {
    if from < cut && !Straddles(data, secret, from, cut) { ShiftFindsFirst(data, secret, cut, from + 1); }
  }

  function ShiftAll(data: string, values: seq<string>, cut: nat): (c: nat)
    ensures c <= cut
  {
    if values == [] then cut
    else
      var front := ShiftAll(data, values[..|values| - 1], cut);
      Shift(data, values[|values| - 1], front, 0)
  }

  function CutPoint(values: seq<string>, data: string): (c: nat)
    ensures c <= |data|
  {
    var cut := |data| - Longest(values);
    if cut <= 0 then 0 else ShiftAll(data, values, cut)
  }

  /** The pieces handed to writeRedacted so far, and what is held back. */
  datatype Feed = Feed(pieces: seq<string>, pending: string)

  function Push(values: seq<string>, f: Feed, chunk: string): Feed {
    var data := f.pending + chunk;
    var cut := CutPoint(values, data);
    Feed(f.pieces + [data[..cut]], data[cut..])
  }

  function FeedAll(values: seq<string>, chunks: seq<string>): Feed {
    if chunks == [] then Feed([], "")
    else Push(values, FeedAll(values, chunks[..|chunks| - 1]), chunks[|chunks| - 1])
  }

  /** writeRedacted: every secret in turn, over the whole piece. */
  function Redact(values: seq<string>, text: string): string
    requires forall i | 0 <= i < |values| :: values[i] != ""
  {
    if values == [] then text
    else Redact(values[1..], ReplaceAll(text, values[0], MARK))
  }

  function RedactPieces(values: seq<string>, pieces: seq<string>): string
    requires forall i | 0 <= i < |values| :: values[i] != ""
  {
    if pieces == [] then ""
    else RedactPieces(values, pieces[..|pieces| - 1]) + Redact(values, pieces[|pieces| - 1])
  }

  // ---- occurrences, letter by letter ------------------------------------------

  lemma LetterAt(text: string, s: string, i: int, k: nat)
    requires k < |s|
    ensures OccursAt(text, s, i) ==> 0 <= i < i + |s| <= |text| && text[i + k] == s[k]
  {
    if OccursAt(text, s, i) { assert text[i + k] == text[i..i + |s|][k]; }
  }

  lemma OccursHere(text: string, s: string, i: nat)
    requires i + |s| <= |text| && forall k | 0 <= k < |s| :: text[i + k] == s[k]
    ensures OccursAt(text, s, i)
  {
  }

  lemma EndsAsBegins(s: string, t: string, k: nat)
    requires 0 < k < |s| && k < |t| && forall i | 0 <= i < k :: s[|s| - k + i] == t[i]
    ensures Overlaps(s, t)
  {
    assert s[|s| - k..] == t[..k];
  }

  lemma {:induction false} NothingToReplace(text: string, s: string)
    requires s != "" && forall i :: !OccursAt(text, s, i)
    ensures ReplaceAll(text, s, MARK) == text
  {
    if |text| >= |s| {
      assert !OccursAt(text, s, 0);
      forall i ensures !OccursAt(text[1..], s, i) {
        if OccursAt(text[1..], s, i) {
          assert text[1..][i..i + |s|] == text[i + 1..i + 1 + |s|];
          assert OccursAt(text, s, i + 1);
        }
      }
      NothingToReplace(text[1..], s);
      assert [text[0]] + text[1..] == text;
    }
  }

  // ---- the cut point -------------------------------------------------------

  /** Two occurrences that run into each other without nesting. */
  lemma RunsInto(data: string, s: string, t: string, i: int, c: int)
    requires OccursAt(data, s, i) && OccursAt(data, t, c)
    requires i < c < i + |s| < c + |t|
    ensures Overlaps(s, t)
  {
    var k := i + |s| - c;
    assert s[|s| - k..] == data[c..c + k] == t[..k];
  }

  /** Longest-first order is what makes one pass enough: moving the cut back to
      the start of t cannot split an occurrence of a secret handled before t. */
  lemma ShiftKeepsClean(data: string, s: string, t: string, cut: nat)
    requires |s| >= |t| && !Overlaps(s, t)
    requires forall i :: !Straddles(data, s, i, cut)
    ensures forall i :: !Straddles(data, s, i, Shift(data, t, cut, 0))
  {
    var c := Shift(data, t, cut, 0);
    ShiftFindsFirst(data, t, cut, 0);
    if c < cut {
      forall i ensures !Straddles(data, s, i, c) {
        assert !Straddles(data, s, i, cut);
        if Straddles(data, s, i, c) { RunsInto(data, s, t, i, c); }
      }
    }
  }

  lemma ShiftCleansItself(data: string, t: string, cut: nat)
    requires !Overlaps(t, t)
    ensures forall i :: !Straddles(data, t, i, Shift(data, t, cut, 0))
  {
    var c := Shift(data, t, cut, 0);
    ShiftFindsFirst(data, t, cut, 0);
    if c < cut {
      forall i ensures !Straddles(data, t, i, c) {
        if Straddles(data, t, i, c) { RunsInto(data, t, t, i, c); }
      }
    }
  }

  lemma {:induction false} ShiftAllClean(data: string, values: seq<string>, cut: nat)
    requires Prepared(values) && Separable(values)
    ensures CleanAt(data, values, ShiftAll(data, values, cut))
  {
    if values != [] {
      var front, t := values[..|values| - 1], values[|values| - 1];
      ShiftAllClean(data, front, cut);
      var mid := ShiftAll(data, front, cut);
      ShiftCleansItself(data, t, mid);
      forall s, i | s in values ensures !Straddles(data, s, i, ShiftAll(data, values, cut)) {
        if s in front {
          ShiftKeepsClean(data, s, t, mid);
        }
      }
    }
  }

  // ---- boundaries over a whole stream --------------------------------------

  function Boundary(pieces: seq<string>, k: nat): nat
    requires k <= |pieces|
  {
    |Flatten(pieces[..k])|
  }

  /** No secret occurrence of the whole text has a piece boundary inside it. */
  ghost predicate CleanPieces(values: seq<string>, pieces: seq<string>, text: string) {
    forall k | 0 <= k <= |pieces| :: CleanAt(text, values, Boundary(pieces, k))
  }

  /** Nothing is emitted until `keep` more bytes are known. */
  ghost predicate Lagging(values: seq<string>, pieces: seq<string>, text: string) {
    forall k | 0 <= k <= |pieces| ::
      Boundary(pieces, k) == 0 || Boundary(pieces, k) + Longest(values) <= |text|
  }

  lemma FlattenSnoc(pieces: seq<string>, last: string)
    ensures Flatten(pieces + [last]) == Flatten(pieces) + last
  {
    assert (pieces + [last])[..|pieces|] == pieces;
  }

  lemma PushLosesNothing(values: seq<string>, f: Feed, chunk: string)
    ensures
      var g := Push(values, f, chunk);
      Flatten(g.pieces) + g.pending == Flatten(f.pieces) + f.pending + chunk
  {
    hide CutPoint, Flatten;
    var data := f.pending + chunk;
    var cut := CutPoint(values, data);
    FlattenSnoc(f.pieces, data[..cut]);
    assert data[..cut] + data[cut..] == data;
  }

  /** Nothing is lost, added or reordered by the buffering. */
  lemma {:induction false} PiecesPartition(values: seq<string>, chunks: seq<string>)
    ensures Flatten(FeedAll(values, chunks).pieces) + FeedAll(values, chunks).pending == Flatten(chunks)
  {
    if chunks != [] {
      var n := |chunks| - 1;
      PiecesPartition(values, chunks[..n]);
      PushLosesNothing(values, FeedAll(values, chunks[..n]), chunks[n]);
    }
  }

  /** An occurrence in the longer text that touches an old boundary lies in the
      old text already, because every old boundary lags behind its end. */
  lemma OldBoundariesStayClean(values: seq<string>, pieces: seq<string>, text: string, chunk: string)
    requires CleanPieces(values, pieces, text) && Lagging(values, pieces, text)
    ensures CleanPieces(values, pieces, text + chunk) && Lagging(values, pieces, text + chunk)
  {
    forall k, s, i | 0 <= k <= |pieces| && s in values
      ensures !Straddles(text + chunk, s, i, Boundary(pieces, k))
    {
      var b := Boundary(pieces, k);
      LongestBounds(values, s);
      assert CleanAt(text, values, b);
      assert !Straddles(text, s, i, b);
      if i + |s| <= |text| && 0 <= i {
        assert (text + chunk)[i..i + |s|] == text[i..i + |s|];
      }
    }
  }

  /** A boundary inside the data at hand is as clean for the whole text, once
      the boundary in front of that data is clean. */
  lemma BoundaryCarriesOver(values: seq<string>, emitted: string, data: string, cut: nat)
    requires cut <= |data|
    requires CleanAt(emitted + data, values, |emitted|)
    requires cut == 0 || CleanAt(data, values, cut)
    ensures CleanAt(emitted + data, values, |emitted| + cut)
  {
    var text, off := emitted + data, |emitted|;
    var b := off + cut;
    forall s, i | s in values ensures !Straddles(text, s, i, b) {
      assert !Straddles(text, s, i, off);
      if off <= i && i + |s| <= |text| && cut > 0 {
        assert !Straddles(data, s, i - off, cut);
        assert text[i..i + |s|] == data[i - off..i - off + |s|];
      }
    }
  }

  lemma CutIsClean(values: seq<string>, data: string)
    requires Prepared(values) && Separable(values)
    ensures CutPoint(values, data) == 0 || CleanAt(data, values, CutPoint(values, data))
    ensures CutPoint(values, data) == 0 || CutPoint(values, data) + Longest(values) <= |data|
  {
    if |data| > Longest(values) { ShiftAllClean(data, values, |data| - Longest(values)); }
  }

  lemma BoundariesAfter(pieces: seq<string>, last: string)
    ensures forall k | 0 <= k <= |pieces| :: Boundary(pieces + [last], k) == Boundary(pieces, k)
    ensures Boundary(pieces, |pieces|) == |Flatten(pieces)|
    ensures Boundary(pieces + [last], |pieces| + 1) == |Flatten(pieces)| + |last|
  {
    var all := pieces + [last];
    forall k | 0 <= k <= |pieces| ensures Boundary(all, k) == Boundary(pieces, k) {
      assert all[..k] == pieces[..k];
    }
    assert pieces[..|pieces|] == pieces && all[..|pieces| + 1] == all && all[..|pieces|] == pieces;
  }

  lemma BoundariesGrow(values: seq<string>, pieces: seq<string>, last: string, text: string)
    requires CleanPieces(values, pieces, text) && Lagging(values, pieces, text)
    requires CleanAt(text, values, |Flatten(pieces)| + |last|)
    requires last == "" || |Flatten(pieces)| + |last| + Longest(values) <= |text|
    ensures CleanPieces(values, pieces + [last], text) && Lagging(values, pieces + [last], text)
  {
    var n, all := |pieces|, pieces + [last];
    BoundariesAfter(pieces, last);
    forall k | 0 <= k <= n + 1
      ensures CleanAt(text, values, Boundary(all, k))
      ensures Boundary(all, k) == 0 || Boundary(all, k) + Longest(values) <= |text|
    {
      var j := if k <= n then k else n;
      assert Boundary(all, j) == Boundary(pieces, j);
      assert CleanAt(text, values, Boundary(pieces, j));
    }
  }

  lemma CutKeepsClean(values: seq<string>, pieces: seq<string>, data: string, cut: nat, text: string)
    requires cut <= |data| && text == Flatten(pieces) + data
    requires cut == 0 || (CleanAt(data, values, cut) && cut + Longest(values) <= |data|)
    requires CleanPieces(values, pieces, text) && Lagging(values, pieces, text)
    ensures CleanPieces(values, pieces + [data[..cut]], text)
    ensures Lagging(values, pieces + [data[..cut]], text)
  {
    assert CleanAt(text, values, |Flatten(pieces)|) by { BoundariesAfter(pieces, ""); }
    BoundaryCarriesOver(values, Flatten(pieces), data, cut);
    BoundariesGrow(values, pieces, data[..cut], text);
  }

  /** One pass over the secrets leaves none across the cut, whatever the data. */
  ghost predicate CutsClean(values: seq<string>) {
    forall data :: CleanAt(data, values, CutPoint(values, data))
  }

  lemma CutLags(values: seq<string>, data: string)
    ensures CutPoint(values, data) == 0 || CutPoint(values, data) + Longest(values) <= |data|
  {
  }

  /** If each cut is clean when it is made, no piece ever ends inside a secret. */
  lemma {:induction false} CleanCutsMakeCleanPieces(values: seq<string>, chunks: seq<string>)
    requires CutsClean(values)
    ensures
      var f := FeedAll(values, chunks);
      CleanPieces(values, f.pieces, Flatten(chunks)) && Lagging(values, f.pieces, Flatten(chunks))
  {
    if chunks != [] {
      var n := |chunks| - 1;
      CleanCutsMakeCleanPieces(values, chunks[..n]);
      PiecesPartition(values, chunks[..n]);
      var f := FeedAll(values, chunks[..n]);
      OldBoundariesStayClean(values, f.pieces, Flatten(chunks[..n]), chunks[n]);
      var data := f.pending + chunks[n];
      CutLags(values, data);
      CutKeepsClean(values, f.pieces, data, CutPoint(values, data), Flatten(chunks));
    }
  }

  /** However the stream is cut into chunks, no secret of the whole stream is
      split between two pieces, nor between the last piece and what is pending. */
  lemma FeedIsClean(values: seq<string>, chunks: seq<string>)
    requires Prepared(values) && Separable(values)
    ensures
      var f := FeedAll(values, chunks);
      CleanPieces(values, f.pieces, Flatten(chunks)) && Lagging(values, f.pieces, Flatten(chunks))
  {
    hide FeedAll, Flatten, CutPoint, CleanPieces, Lagging;
    forall data ensures CleanAt(data, values, CutPoint(values, data)) { CutIsClean(values, data); }
    CleanCutsMakeCleanPieces(values, chunks);
  }

  /** With secrets that never run into each other the cut moves at most once. */
  lemma {:induction false} CutMovesOnce(data: string, values: seq<string>, cut: nat)
    requires Prepared(values) && NonOverlapping(values)
    ensures
      var c := ShiftAll(data, values, cut);
      c == cut || exists t :: t in values && Straddles(data, t, c, cut)
  {
    if values != [] {
      var front, t := values[..|values| - 1], values[|values| - 1];
      CutMovesOnce(data, front, cut);
      var mid, c := ShiftAll(data, front, cut), ShiftAll(data, values, cut);
      assert t in values;
      ShiftFindsFirst(data, t, mid, 0);
      if mid < cut {
        var s :| s in front && Straddles(data, s, mid, cut);
        assert s in values && !Overlaps(t, s);
        if c < mid { RunsInto(data, t, s, c, mid); }
      }
    }
  }

  /** What is held back stays shorter than twice the longest secret. */
  lemma {:induction false} PendingBound(values: seq<string>, chunks: seq<string>)
    requires Prepared(values) && NonOverlapping(values)
    ensures
      var f := FeedAll(values, chunks);
      f.pending == "" || |f.pending| < 2 * Longest(values)
  {
    if chunks != [] {
      var n := |chunks| - 1;
      var data := FeedAll(values, chunks[..n]).pending + chunks[n];
      var cut := |data| - Longest(values);
      if cut > 0 {
        CutMovesOnce(data, values, cut);
        var c := ShiftAll(data, values, cut);
        if c < cut {
          var t :| t in values && Straddles(data, t, c, cut);
          LongestBounds(values, t);
        }
      }
    }
  }

  /** For one secret the condition is exact: some chunking splits an occurrence
      of it precisely when the secret runs into itself. */
  lemma SingleSecretExact(s: string)
    requires s != ""
    ensures (forall chunks :: CleanPieces([s], FeedAll([s], chunks).pieces, Flatten(chunks))) <==> !Overlaps(s, s)
  {
    if Overlaps(s, s) {
      var k :| 0 < k < |s| && k < |s| && s[|s| - k..] == s[..k];
      SelfOverlapSplits(s, k);
    } else {
      forall chunks ensures CleanPieces([s], FeedAll([s], chunks).pieces, Flatten(chunks)) {
        FeedIsClean([s], chunks);
      }
    }
  }

  lemma SingleCut(s: string, stream: string)
    requires |stream| == 2 * |s| && s != ""
    ensures CutPoint([s], stream) == Shift(stream, s, |s|, 0)
  {
    var none: seq<string> := [];
    assert [s][..0] == none && [s][1..] == none;
    assert Longest([s]) == |s| && ShiftAll(stream, none, |s|) == |s|;
  }

  /** The stream that gives the secret away: it once, then again from its
      border on, then enough of anything to put the cut at the first one's end. */
  lemma SelfOverlapCut(s: string, k: nat, pad: string)
    requires 0 < k < |s| && s[|s| - k..] == s[..k] && |pad| == k
    ensures
      var stream := s + s[k..] + pad;
      var c := CutPoint([s], stream);
      0 < c < |s| && OccursAt(stream, s, 0) && OccursAt(stream, s, c)
  {
    var stream := s + s[k..] + pad;
    var p := |s| - k;
    assert stream[p..p + |s|] == s[|s| - k..] + s[k..] == s;
    assert Straddles(stream, s, p, |s|);
    SingleCut(s, stream);
    ShiftFindsFirst(stream, s, |s|, 0);
    assert stream[0..|s|] == s;
  }

  lemma OneChunk(values: seq<string>, stream: string)
    ensures
      var c := CutPoint(values, stream);
      FeedAll(values, [stream]) == Feed([stream[..c]], stream[c..]) && Flatten([stream]) == stream
  {
    var chunks: seq<string> := [stream];
    assert chunks[..0] == [] && "" + stream == stream;
  }

  lemma SelfOverlapSplits(s: string, k: nat)
    requires 0 < k < |s| && s[|s| - k..] == s[..k]
    ensures exists chunks :: !CleanPieces([s], FeedAll([s], chunks).pieces, Flatten(chunks))
  {
    var stream := s + s[k..] + s[..k];
    SelfOverlapCut(s, k, s[..k]);
    OneChunk([s], stream);
    var c := CutPoint([s], stream);
    BoundariesAfter([], stream[..c]);
    var pieces := FeedAll([s], [stream]).pieces;
    assert pieces == [] + [stream[..c]];
    assert Boundary(pieces, 1) == c;
    assert Straddles(stream, s, 0, c);
    assert !CleanAt(Flatten([stream]), [s], Boundary(pieces, 1));
  }

  // ---- redacting piece by piece --------------------------------------------

  lemma DroppingStaysClean(a: string, b: string, s: string, step: nat)
    requires step <= |a|
    requires forall i :: !Straddles(a + b, s, i, |a|)
    ensures a[step..] + b == (a + b)[step..]
    ensures forall i :: !Straddles(a[step..] + b, s, i, |a[step..]|)
  {
    var t, rest := a + b, a[step..];
    assert rest + b == t[step..];
    forall i ensures !Straddles(rest + b, s, i, |rest|) {
      assert !Straddles(t, s, i + step, |a|);
      if 0 <= i && i + |s| <= |t| - step { assert (rest + b)[i..i + |s|] == t[i + step..i + step + |s|]; }
    }
  }

  lemma {:induction false} ReplaceAllSplits(a: string, b: string, s: string)
    requires s != ""
    requires forall i :: !Straddles(a + b, s, i, |a|)
    ensures ReplaceAll(a + b, s, MARK) == ReplaceAll(a, s, MARK) + ReplaceAll(b, s, MARK)
    decreases |a|
  {
    var t := a + b;
    if a == "" {
      assert t == b;
    } else if |s| <= |t| && t[..|s|] == s {
      assert OccursAt(t, s, 0) by { assert t[0..|s|] == t[..|s|]; }
      assert !Straddles(t, s, 0, |a|);
      assert a[..|s|] == t[..|s|];
      DroppingStaysClean(a, b, s, |s|);
      ReplaceAllSplits(a[|s|..], b, s);
    } else if |s| <= |t| {
      DroppingStaysClean(a, b, s, 1);
      ReplaceAllSplits(a[1..], b, s);
      if |s| <= |a| { assert a[..|s|] == t[..|s|]; }
    }
  }

  /** The secret neither contains the mark nor runs into it on either side; a
      secret that lies inside the mark is still allowed. */
  ghost predicate Inert(t: string) {
    !Overlaps(MARK, t) && !Overlaps(t, MARK) && forall i :: !OccursAt(t, MARK, i)
  }

  lemma ReplaceAllOnce(a: string, s: string)
    requires s != ""
    ensures ReplaceAll(a, s, MARK) ==
      if |a| < |s| then a
      else if a[..|s|] == s then MARK + ReplaceAll(a[|s|..], s, MARK)
      else [a[0]] + ReplaceAll(a[1..], s, MARK)
  {
  }

  lemma EndOfEnd(a: string, k: nat, n: nat)
    requires k + n <= |a|
    ensures a[k..][|a[k..]| - n..] == a[|a| - n..]
  {
  }

  lemma PutBefore(z: string, x: string, y: string)
    ensures z + (x + MARK + y) == (z + x) + MARK + y
  {
  }

  /** Replacing either changes nothing, or the text after its last mark is the
      end of the original. */
  lemma {:induction false} LastMark(a: string, s: string) returns (x: string, y: string)
    requires s != ""
    ensures |y| <= |a| && y == a[|a| - |y|..]
    ensures ReplaceAll(a, s, MARK) == a || ReplaceAll(a, s, MARK) == x + MARK + y
    decreases |a|
  {
    hide ReplaceAll;
    ReplaceAllOnce(a, s);
    if |a| < |s| {
      x, y := "", "";
    } else if a[..|s|] == s {
      x, y := LastMark(a[|s|..], s);
      x, y := StepBack(a, |s|, ReplaceAll(a[|s|..], s, MARK), x, y);
    } else {
      x, y := LastMark(a[1..], s);
      if ReplaceAll(a[1..], s, MARK) == a[1..] {
        assert [a[0]] + a[1..] == a;
        x, y := "", "";
      } else {
        PutBefore([a[0]], x, y);
        EndOfEnd(a, 1, |y|);
        x := [a[0]] + x;
      }
    }
  }

  /** From the last mark of what follows the first k bytes, which became a mark, to
      that of the whole. */
  lemma StepBack(a: string, k: nat, replaced: string, x: string, y: string) returns (x': string, y': string)
    requires k <= |a| && |y| <= |a| - k && y == a[k..][|a[k..]| - |y|..]
    requires replaced == a[k..] || replaced == x + MARK + y
    ensures |y'| <= |a| && y' == a[|a| - |y'|..] && MARK + replaced == x' + MARK + y'
  {
    if replaced == a[k..] {
      x', y' := "", a[k..];
      assert MARK + replaced == "" + MARK + a[k..];
    } else {
      PutBefore(MARK, x, y);
      EndOfEnd(a, k, |y|);
      x', y' := MARK + x, y;
    }
  }

  /** ... and the text before its first mark is the front of the original. */
  lemma {:induction false} FirstMark(b: string, s: string) returns (x: string, y: string)
    requires s != ""
    ensures |x| <= |b| && x == b[..|x|]
    ensures ReplaceAll(b, s, MARK) == b || ReplaceAll(b, s, MARK) == x + MARK + y
    decreases |b|
  {
    if |b| < |s| {
      x, y := "", "";
    } else if b[..|s|] == s {
      x, y := "", ReplaceAll(b[|s|..], s, MARK);
      assert MARK + y == "" + MARK + y;
    } else {
      var rest := b[1..];
      x, y := FirstMark(rest, s);
      if ReplaceAll(rest, s, MARK) == rest {
        x := "";
        assert [b[0]] + rest == b;
      } else {
        assert [b[0]] + (x + MARK + y) == ([b[0]] + x) + MARK + y;
        x := [b[0]] + x;
      }
    }
  }

  /** A text that starts inside or before the mark of x + MARK + y and ends with
      y, as a proper front of t, gives t away. */
  lemma FrontMeetsMark(x: string, y: string, t: string, l: nat)
    requires |y| < l < |t| && l <= |x + MARK + y|
    requires (x + MARK + y)[|x + MARK + y| - l..] == t[..l]
    ensures !Inert(t)
  {
    var r := x + MARK + y;
    var q := l - |y|;
    var from := |r| - l;
    if q < |MARK| {
      forall j | 0 <= j < q ensures MARK[|MARK| - q..][j] == t[..q][j] {
        assert t[..l][j] == r[from..][j] == r[from + j];
      }
      assert MARK[|MARK| - q..] == t[..q];
    } else {
      var p := q - |MARK|;
      forall j | 0 <= j < |MARK| ensures t[p..p + |MARK|][j] == MARK[j] {
        assert t[..l][p + j] == r[from..][p + j] == r[from + p + j];
      }
      assert OccursAt(t, MARK, p);
    }
  }

  lemma BackMeetsMark(x: string, y: string, t: string, l: nat)
    requires |x| < l < |t| && l <= |x + MARK + y|
    requires (x + MARK + y)[..l] == t[|t| - l..]
    ensures !Inert(t)
  {
    var r := x + MARK + y;
    var q := l - |x|;
    var from := |t| - l;
    if q < |MARK| {
      forall j | 0 <= j < q ensures t[|t| - q..][j] == MARK[..q][j] {
        assert r[..l][|x| + j] == t[from..][|x| + j] == t[from + |x| + j];
      }
      assert t[|t| - q..] == MARK[..q];
    } else {
      var p := from + |x|;
      forall j | 0 <= j < |MARK| ensures t[p..p + |MARK|][j] == MARK[j] {
        assert r[..l][|x| + j] == t[from..][|x| + j] == t[p + j];
      }
      assert OccursAt(t, MARK, p);
    }
  }

  lemma FrontIsLiteral(a: string, s: string, t: string, l: nat)
    requires s != "" && Inert(t) && 0 < l < |t|
    requires var r := ReplaceAll(a, s, MARK); l <= |r| && r[|r| - l..] == t[..l]
    ensures l <= |a| && a[|a| - l..] == t[..l]
  {
    var x, y := LastMark(a, s);
    if ReplaceAll(a, s, MARK) != a {
      if |y| < l { FrontMeetsMark(x, y, t, l); }
      var r := x + MARK + y;
      assert r[|r| - l..] == y[|y| - l..] == a[|a| - l..];
    }
  }

  lemma BackIsLiteral(b: string, s: string, t: string, l: nat)
    requires s != "" && Inert(t) && 0 < l < |t|
    requires var r := ReplaceAll(b, s, MARK); l <= |r| && r[..l] == t[|t| - l..]
    ensures l <= |b| && b[..l] == t[|t| - l..]
  {
    var x, y := FirstMark(b, s);
    if ReplaceAll(b, s, MARK) != b {
      if |x| < l { BackMeetsMark(x, y, t, l); }
      var r := x + MARK + y;
      assert r[..l] == x[..l] == b[..l];
    }
  }

  /** t is split so that a ends with its first l bytes and b starts with the rest. */
  predicate SplitAcross(a: string, b: string, t: string, l: int) {
    0 < l < |t| && l <= |a| && |t| - l <= |b| && a[|a| - l..] == t[..l] && b[..|t| - l] == t[l..]
  }

  lemma StraddlesIsSplit(a: string, b: string, t: string, l: int)
    ensures Straddles(a + b, t, |a| - l, |a|) <==> SplitAcross(a, b, t, l)
  {
    if 0 < l < |t| && l <= |a| && |t| - l <= |b| {
      var mid := (a + b)[|a| - l..|a| - l + |t|];
      assert mid == a[|a| - l..] + b[..|t| - l];
      assert t == t[..l] + t[l..];
      assert mid[..l] == a[|a| - l..] && mid[l..] == b[..|t| - l];
    }
  }

  /** Replacing one secret on both sides of a boundary cannot make another one
      straddle it. */
  lemma ReplacingStaysClean(a: string, b: string, s: string, t: string)
    requires s != "" && Inert(t)
    requires forall i :: !Straddles(a + b, t, i, |a|)
    ensures
      var a', b' := ReplaceAll(a, s, MARK), ReplaceAll(b, s, MARK);
      forall i :: !Straddles(a' + b', t, i, |a'|)
  {
    var a', b' := ReplaceAll(a, s, MARK), ReplaceAll(b, s, MARK);
    forall i ensures !Straddles(a' + b', t, i, |a'|) {
      var l := |a'| - i;
      StraddlesIsSplit(a', b', t, l);
      StraddlesIsSplit(a, b, t, l);
      assert !Straddles(a + b, t, |a| - l, |a|);
      if SplitAcross(a', b', t, l) {
        FrontIsLiteral(a, s, t, l);
        BackIsLiteral(b, s, t, |t| - l);
      }
    }
  }

  /** The first secret is replaced before any mark exists; the others must not
      interact with marks. One secret alone is under no condition here. */
  ghost predicate LaterInert(values: seq<string>) {
    forall j | 1 <= j < |values| :: Inert(values[j])
  }

  /** Redacting two halves separately is redacting the whole, when no secret
      straddles the seam and no later secret can interact with a mark. */
  lemma {:induction false} RedactSplits(values: seq<string>, a: string, b: string)
    requires forall i | 0 <= i < |values| :: values[i] != ""
    requires CleanAt(a + b, values, |a|)
    requires LaterInert(values)
    ensures Redact(values, a + b) == Redact(values, a) + Redact(values, b)
  {
    if values != [] {
      var s, rest := values[0], values[1..];
      var a', b' := ReplaceAll(a, s, MARK), ReplaceAll(b, s, MARK);
      assert forall i :: !Straddles(a + b, s, i, |a|);
      ReplaceAllSplits(a, b, s);
      forall t | t in rest ensures forall i :: !Straddles(a' + b', t, i, |a'|) {
        assert forall i :: !Straddles(a + b, t, i, |a|);
        ReplacingStaysClean(a, b, s, t);
      }
      RedactSplits(rest, a', b');
    }
  }

  lemma {:induction false} RedactPiecesIsWhole(values: seq<string>, pieces: seq<string>)
    requires forall i | 0 <= i < |values| :: values[i] != ""
    requires CleanPieces(values, pieces, Flatten(pieces))
    requires LaterInert(values)
    ensures RedactPieces(values, pieces) == Redact(values, Flatten(pieces))
  {
    if pieces == [] {
      RedactEmpty(values);
    } else {
      var n := |pieces| - 1;
      var front, last := pieces[..n], pieces[n];
      assert front + [last] == pieces;
      FrontStaysClean(values, front, last);
      RedactPiecesIsWhole(values, front);
      assert Boundary(pieces, n) == |Flatten(front)|;
      RedactSplits(values, Flatten(front), last);
    }
  }

  lemma {:induction false} RedactEmpty(values: seq<string>)
    requires forall i | 0 <= i < |values| :: values[i] != ""
    ensures Redact(values, "") == ""
  {
    if values != [] { RedactEmpty(values[1..]); }
  }

  lemma FrontStaysClean(values: seq<string>, front: seq<string>, last: string)
    requires CleanPieces(values, front + [last], Flatten(front + [last]))
    ensures CleanPieces(values, front, Flatten(front))
    ensures Flatten(front + [last]) == Flatten(front) + last
  {
    BoundariesAfter(front, last);
    var text, all := Flatten(front), front + [last];
    assert all[..|front|] == front;
    assert Flatten(all) == text + last;
    forall k, s, i | 0 <= k <= |front| && s in values ensures !Straddles(text, s, i, Boundary(front, k)) {
      assert CleanAt(text + last, values, Boundary(all, k));
      assert !Straddles(text + last, s, i, Boundary(front, k));
      if 0 <= i && i + |s| <= |text| { assert (text + last)[i..i + |s|] == text[i..i + |s|]; }
    }
  }

  /** Everything the reader sees after Flush. */
  function Shown(values: seq<string>, chunks: seq<string>): string
    requires forall i | 0 <= i < |values| :: values[i] != ""
  {
    var f := FeedAll(values, chunks);
    RedactPieces(values, f.pieces) + Redact(values, f.pending)
  }

  /** The output is the redaction of the whole stream, so how the log happened
      to be chunked cannot be seen in it. */
  lemma {:induction false} StreamingIsWholeText(values: seq<string>, chunks: seq<string>)
    requires Prepared(values) && Separable(values)
    requires LaterInert(values)
    ensures Shown(values, chunks) == Redact(values, Flatten(chunks))
  {
    hide FeedAll, Shown, Redact, CutPoint, Flatten, LaterInert;
    forall data ensures CleanAt(data, values, CutPoint(values, data)) { CutIsClean(values, data); }
    CleanCutsShowWhole(values, chunks);
  }

  /** The same for any secrets whose cuts are clean. */
  lemma {:induction false} CleanCutsShowWhole(values: seq<string>, chunks: seq<string>)
    requires (forall i | 0 <= i < |values| :: values[i] != "") && CutsClean(values)
    requires LaterInert(values)
    ensures Shown(values, chunks) == Redact(values, Flatten(chunks))
  {
    var f := FeedAll(values, chunks);
    PiecesPartition(values, chunks);
    CleanCutsMakeCleanPieces(values, chunks);
    PendingIsLastPiece(values, f.pieces, f.pending);
    RedactPiecesIsWhole(values, f.pieces + [f.pending]);
    assert (f.pieces + [f.pending])[..|f.pieces|] == f.pieces;
  }

  lemma PendingIsLastPiece(values: seq<string>, pieces: seq<string>, pending: string)
    requires CleanPieces(values, pieces, Flatten(pieces) + pending)
    ensures Flatten(pieces + [pending]) == Flatten(pieces) + pending
    ensures CleanPieces(values, pieces + [pending], Flatten(pieces + [pending]))
  {
    var n, all, text := |pieces|, pieces + [pending], Flatten(pieces) + pending;
    assert all[..n] == pieces;
    BoundariesAfter(pieces, pending);
    forall k | 0 <= k <= n + 1 ensures CleanAt(text, values, Boundary(all, k)) {
      if k <= n {
        assert CleanAt(text, values, Boundary(pieces, k));
      } else {
        assert Boundary(all, k) == |text|;
      }
    }
  }

  // ---- exactness for one secret --------------------------------------------

  lemma SelfOverlapShows(s: string, k: nat)
    requires 0 < k < |s| && s[|s| - k..] == s[..k]
    requires !OccursAt(s, MARK, 0)
    ensures exists chunks :: Shown([s], chunks) != Redact([s], Flatten(chunks))
  {
    var last := if s[|s| - 1] == 'a' then 'b' else 'a';
    var pad := seq(k, _ => last);
    var stream := s + s[k..] + pad;
    assert stream[|s|..][|s| - 1] == last;
    SelfOverlapCut(s, k, pad);
    EarlyCutShows(s, stream);
    OneChunk([s], stream);
  }

  lemma {:induction false} EarlyCutShows(s: string, stream: string)
    requires s != "" && |stream| == 2 * |s| && !OccursAt(s, MARK, 0)
    requires stream[|s|..] != s && OccursAt(stream, s, 0)
    requires var c := CutPoint([s], stream); 0 < c < |s| && OccursAt(stream, s, c)
    ensures Shown([s], [stream]) != Redact([s], stream)
  {
    var c := CutPoint([s], stream);
    RedactOne(s, stream);
    OnePieceShown(s, stream);
    OnlyFirstGoes(s, stream);
    CutFront(s, stream, c);
    CutBack(s, stream, c);
    MarkNotShifted(s, c, stream[c + |s|..], stream[|s|..]);
  }

  lemma {:induction false} OnlyFirstGoes(s: string, stream: string)
    requires s != "" && OccursAt(stream, s, 0) && |stream| <= 2 * |s|
    requires stream[|s|..] != s
    ensures ReplaceAll(stream, s, MARK) == MARK + stream[|s|..]
  {
    LeadingSecretGoes(stream, s);
    ShortTextKept(stream[|s|..], s);
  }

  lemma CutFront(s: string, stream: string, c: nat)
    requires 0 < c < |s| && OccursAt(stream, s, 0)
    ensures ReplaceAll(stream[..c], s, MARK) == s[..c]
  {
    ShortTextKept(stream[..c], s);
    assert stream[0..|s|][..c] == stream[..c];
  }

  lemma CutBack(s: string, stream: string, c: nat)
    requires 0 < c < |s| && |stream| == 2 * |s| && OccursAt(stream, s, c)
    ensures ReplaceAll(stream[c..], s, MARK) == MARK + stream[c + |s|..]
  {
    var back := stream[c..];
    assert back[0..|s|] == stream[c..c + |s|];
    OnlyFirstGoes(s, back);
    assert back[|s|..] == stream[c + |s|..];
  }

  lemma LeadingSecretGoes(text: string, s: string)
    requires s != "" && OccursAt(text, s, 0)
    ensures ReplaceAll(text, s, MARK) == MARK + ReplaceAll(text[|s|..], s, MARK)
  {
    assert text[..|s|] == text[0..|s|];
  }

  lemma MarkNotShifted(s: string, c: nat, rest: string, tail: string)
    requires 0 < c < |s| && !OccursAt(s, MARK, 0)
    ensures s[..c] + (MARK + rest) != MARK + tail
  {
    var shown, whole := s[..c] + (MARK + rest), MARK + tail;
    if c < |MARK| {
      MarkStartsOnce(c);
      assert shown[c] == MARK[0] && whole[c] == MARK[c];
    } else {
      var i :| 0 <= i < |MARK| && s[0..|MARK|][i] != MARK[i];
      assert shown[i] == s[i] && whole[i] == MARK[i];
    }
  }

  lemma MarkStartsOnce(i: nat)
    requires 0 < i < |MARK|
    ensures MARK[i] != '<'
  {
  }

  lemma ShortTextKept(text: string, s: string)
    requires s != "" && |text| <= |s| && text != s
    ensures ReplaceAll(text, s, MARK) == text
  {
    if |text| == |s| {
      assert text[..|s|] == text && [text[0]] + text[1..] == text;
    }
  }

  lemma {:induction false} OnePieceShown(s: string, stream: string)
    requires s != ""
    ensures
      var c := CutPoint([s], stream);
      Shown([s], [stream]) == ReplaceAll(stream[..c], s, MARK) + ReplaceAll(stream[c..], s, MARK)
  {
    OneChunk([s], stream);
    var c := CutPoint([s], stream);
    RedactOne(s, stream[..c]);
    RedactOne(s, stream[c..]);
    RedactOnePiece([s], stream[..c]);
  }

  lemma RedactOnePiece(values: seq<string>, piece: string)
    requires forall i | 0 <= i < |values| :: values[i] != ""
    ensures RedactPieces(values, [piece]) == Redact(values, piece)
  {
    var pieces: seq<string> := [piece];
    assert pieces[..0] == [] && "" + Redact(values, piece) == Redact(values, piece);
  }

  lemma RedactOne(s: string, text: string)
    requires s != ""
    ensures Redact([s], text) == ReplaceAll(text, s, MARK)
  {
    assert [s][1..] == [];
  }

  /** For one secret that does not begin with the mark, the output is independent
      of the chunking exactly when the secret never runs into itself. */
  lemma SingleSecretStreamingExact(s: string)
    requires s != "" && !OccursAt(s, MARK, 0)
    ensures (forall chunks :: Shown([s], chunks) == Redact([s], Flatten(chunks))) <==> !Overlaps(s, s)
  {
    if Overlaps(s, s) {
      var k :| 0 < k < |s| && k < |s| && s[|s| - k..] == s[..k];
      SelfOverlapShows(s, k);
    } else {
      forall chunks ensures Shown([s], chunks) == Redact([s], Flatten(chunks)) {
        StreamingIsWholeText([s], chunks);
      }
    }
  }

  // ---- the object itself ---------------------------------------------------

  ghost predicate Descending(values: seq<string>) {
    forall i, j | 0 <= i < j < |values| :: |values[i]| >= |values[j]|
  }

  function InsertByLength(values: seq<string>, v: string): seq<string> {
    if values == [] then [v]
    else if |v| > |values[0]| then [v] + values
    else [values[0]] + InsertByLength(values[1..], v)
  }

  lemma {:induction false} InsertKeepsOrder(values: seq<string>, v: string)
    requires Descending(values)
    ensures Descending(InsertByLength(values, v))
    ensures forall x :: x in InsertByLength(values, v) <==> x in values || x == v
  {
    if values != [] && |v| <= |values[0]| {
      InsertKeepsOrder(values[1..], v);
      var r := InsertByLength(values, v);
      forall i, j | 0 <= i < j < |r| ensures |r[i]| >= |r[j]| {
        assert r[j] in InsertByLength(values[1..], v);
      }
    }
  }

  /** What the underlying writer does with a text: take it all, or fail after some. */
  datatype Answer = All | FailsAfter(n: nat)

  function Taken(text: string, answer: Answer): string {
    if answer.All? || answer.n >= |text| then text else text[..answer.n]
  }

  class SecretRedactor {
    var values: seq<string>
    var pending: string
    var keep: nat
    var out: string                 // what the underlying writer has received
    ghost var chunks: seq<string>   // every chunk taken so far

    ghost predicate Valid()
      reads this
    {
      && Prepared(values)
      && keep == Longest(values)
      && pending == FeedAll(values, chunks).pending
    }

    /** No write has failed half way. */
    ghost predicate Intact()
      requires Valid()
      reads this
    {
      out == RedactPieces(values, FeedAll(values, chunks).pieces)
    }

    /** newSecretRedactor, given the stored secret values in whatever order the
        maps were walked: empty ones are dropped, the longest come first. */
    constructor (stored: seq<string>)
      ensures Valid() && Intact() && chunks == [] && pending == "" && out == ""
      ensures forall v :: v in values <==> v in stored && v != ""
    {
      var vs := NonEmptyByLength(stored);
      var k := LongestOf(vs);
      values, pending, keep, out, chunks := vs, "", k, "", [];
    }

    static method NonEmptyByLength(stored: seq<string>) returns (vs: seq<string>)
      ensures Prepared(vs)
      ensures forall v :: v in vs <==> v in stored && v != ""
    {
      vs := [];
      for i := 0 to |stored|
        invariant Descending(vs)
        invariant forall v :: v in vs <==> v in stored[..i] && v != ""
      {
        if stored[i] != "" {
          InsertKeepsOrder(vs, stored[i]);
          vs := InsertByLength(vs, stored[i]);
        }
      }
      assert stored[..|stored|] == stored;
      forall j | 0 <= j < |vs| ensures vs[j] != "" { assert vs[j] in vs; }
    }

    static method LongestOf(vs: seq<string>) returns (k: nat)
      ensures k == Longest(vs)
    {
      k := 0;
      for i := 0 to |vs|
        invariant k == Longest(vs[..i])
      {
        LongestOfFront(vs[..i + 1]);
        assert vs[..i + 1][..i] == vs[..i];
        if |vs[i]| > k { k := |vs[i]|; }
      }
      assert vs[..|vs|] == vs;
    }

    method WriteRedacted(value: string, answer: Answer) returns (ok: bool)
      requires forall i | 0 <= i < |values| :: values[i] != ""
      modifies this`out
      ensures ok == answer.All?
      ensures out == old(out) + Taken(Redact(values, value), answer)
    {
      var text := value;
      for i := 0 to |values|
        invariant Redact(values[i..], text) == Redact(values, value)
      {
        text := ReplaceAll(text, values[i], MARK);
        assert values[i..][1..] == values[i + 1..];
      }
      out := out + Taken(text, answer);
      ok := answer.All?;
    }

    /** Write: the whole chunk is taken, or, when the underlying writer fails, none of
        it, though some of the text may have been shown. */
    method Write(p: string, answer: Answer) returns (n: nat, ok: bool)
      requires Valid()
      modifies this
      ensures Valid() && values == old(values) && keep == old(keep)
      ensures ok == answer.All? && n == if ok then |p| else 0
      ensures chunks == if ok then old(chunks) + [p] else old(chunks)
      ensures
        var data := old(pending) + p;
        out == old(out) + Taken(Redact(values, data[..CutPoint(values, data)]), answer)
      ensures ok && old(Intact()) ==> Intact()
    {
      hide FeedAll, RedactPieces, Redact, CutPoint, Longest;
      var data := pending + p;
      var cut := FindCut(data, values, keep);
      FeedOneMore(values, chunks, p);
      ok := WriteRedacted(data[..cut], answer);
      if !ok { return 0, false; }
      pending := data[cut..];
      chunks := chunks + [p];
      n := |p|;
    }

    /** The part of Write that settles the cut: over the secrets, the longest first. */
    static method FindCut(data: string, values: seq<string>, keep: nat) returns (cut: int)
      requires (forall i | 0 <= i < |values| :: values[i] != "") && keep == Longest(values)
      ensures cut == CutPoint(values, data)
    {
      cut := |data| - keep;
      if cut > 0 {
        ghost var start: nat := cut;
        for i := 0 to |values|
          invariant 0 <= cut <= |data|
          invariant cut == ShiftAll(data, values[..i], start)
        {
          assert values[..i + 1][..i] == values[..i];
          cut := ScanSecret(data, values[i], cut);
        }
        assert values[..|values|] == values;
      }
      if cut < 0 { cut := 0; }
    }

    /** The inner loop of Write: every occurrence of one secret, overlapping ones
        included, may pull the cut back. */
    static method ScanSecret(data: string, secret: string, cut: nat) returns (c: nat)
      requires secret != "" && cut <= |data|
      ensures c == Shift(data, secret, cut, 0)
    {
      c := cut;
      var start := Index(data, secret);
      while start >= 0
        invariant start < |data|
        invariant c <= cut
        invariant start >= 0 ==> OccursAt(data, secret, start)
        invariant c == cut ==> forall j | j < start || start < 0 :: !Straddles(data, secret, j, cut)
        invariant c < cut ==> (start < 0 || c < start) && Straddles(data, secret, c, cut)
        invariant c < cut ==> forall j | j < c :: !Straddles(data, secret, j, cut)
        decreases if start >= 0 then |data| + 1 - start else 0
      {
        var end := start + |secret|;
        if start < c && end > c { c := start; }
        var next := Index(data[start + 1..], secret);
        NextOccurrence(data, secret, start, next);
        if next < 0 { break; }
        start := start + next + 1;
      }
      ShiftIsFirst(data, secret, cut, c);
    }

    /** Flush: what was held back goes out, and the reader has now seen exactly
        Shown of everything written. `pending` is dropped even on failure. */
    method Flush(answer: Answer) returns (ok: bool)
      requires Valid()
      modifies this
      ensures values == old(values) && keep == old(keep) && pending == ""
      ensures ok == (answer.All? || old(pending) == "")
      ensures chunks == old(chunks)
      ensures out == old(out) + Taken(Redact(values, old(pending)), answer)
      ensures ok && old(Intact()) ==> out == Shown(values, chunks)
    {
      RedactEmpty(values);
      if pending == "" { return true; }
      ok := WriteRedacted(pending, answer);
      pending := "";
    }
  }

  lemma {:induction false} LongestOfFront(values: seq<string>)
    requires values != []
    ensures
      var front, last := values[..|values| - 1], values[|values| - 1];
      Longest(values) == if |last| > Longest(front) then |last| else Longest(front)
  {
    if |values| > 1 {
      LongestOfFront(values[1..]);
      assert values[1..][..|values| - 2] == values[..|values| - 1][1..];
    }
  }

  lemma FeedOneMore(values: seq<string>, chunks: seq<string>, p: string)
    requires forall i | 0 <= i < |values| :: values[i] != ""
    ensures
      var f, g := FeedAll(values, chunks), FeedAll(values, chunks + [p]);
      var cut := CutPoint(values, f.pending + p);
      && g.pending == (f.pending + p)[cut..]
      && RedactPieces(values, g.pieces) == RedactPieces(values, f.pieces) + Redact(values, (f.pending + p)[..cut])
  {
    assert (chunks + [p])[..|chunks|] == chunks;
    var f := FeedAll(values, chunks);
    var pieces := Push(values, f, p).pieces;
    assert pieces[..|f.pieces|] == f.pieces;
  }

  /** strings.Index on the text after `start` finds the next occurrence. */
  lemma NextOccurrence(data: string, secret: string, start: nat, next: int)
    requires start < |data| && next == Index(data[start + 1..], secret)
    ensures next < 0 ==> forall j | j > start :: !OccursAt(data, secret, j)
    ensures next >= 0 ==> OccursAt(data, secret, start + 1 + next)
    ensures next >= 0 ==> forall j | start < j < start + 1 + next :: !OccursAt(data, secret, j)
  {
    var rest := data[start + 1..];
    forall j | j > start ensures OccursAt(data, secret, j) == OccursAt(rest, secret, j - start - 1) {
      if j + |secret| <= |data| {
        assert rest[j - start - 1..j - start - 1 + |secret|] == data[j..j + |secret|];
      }
    }
  }

  lemma ShiftIsFirst(data: string, secret: string, cut: nat, c: nat)
    requires c <= cut
    requires c == cut ==> forall j :: !Straddles(data, secret, j, cut)
    requires c < cut ==> Straddles(data, secret, c, cut) && forall j | j < c :: !Straddles(data, secret, j, cut)
    ensures Shift(data, secret, cut, 0) == c
  {
    ShiftFindsFirst(data, secret, cut, 0);
  }
}
