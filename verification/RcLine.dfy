/** Breaking the PATH line of the installer: internal/installer/paths.go. Which
    shell is meant is decided by the base name of the shell's path; here it is
    given as such. */
module RcLine {
  import opened Text
  import opened Shell

  function Prefix(sh: Shell): string {
    match sh case Posix => "export PATH=" case Fish => "fish_add_path "
  }

  function Suffix(sh: Shell): string {
    match sh case Posix => ":\"$PATH\"" case Fish => ""
  }

  function Full(sh: Shell, dir: string): string { Prefix(sh) + Quote(sh, dir) + Suffix(sh) }

  /** The room kept on every line but the last. */
  function Reserve(sh: Shell): nat { if |Suffix(sh)| > 1 then |Suffix(sh)| else 1 }

  /** What the line is to mean: the words of the command it stands for. */
  function Meaning(sh: Shell, dir: string): seq<Token> {
    match sh
    case Posix =>
      [Arg(BareItems("export")), Arg(BareItems("PATH=") + Verbatim(dir) + [Bare(':')] + InDoubleItems("$PATH"))]
    case Fish => [Arg(BareItems("fish_add_path")), Arg(Verbatim(dir))]
  }

  function BareItems(s: string): seq<Item> { seq(|s|, i requires 0 <= i < |s| => Bare(s[i])) }
  function InDoubleItems(s: string): seq<Item> { seq(|s|, i requires 0 <= i < |s| => InDouble(s[i])) }

  // ---- the binary search --------------------------------------------------------

  lemma QuotedLength(sh: Shell, s: string, m: nat, n: nat)
    requires m <= n <= |s|
    ensures |Quote(sh, s[..m])| + (n - m) <= |Quote(sh, s[..n])|
  {
    QuoteByBytes(sh, s[..m]);
    QuoteByBytes(sh, s[..n]);
    assert s[..m] + s[m..n] == s[..n];
    EscapeAppend(sh, s[..m], s[m..n]);
    EscapedLength(sh, s[m..n]);
  }

  lemma {:induction false} EscapedLength(sh: Shell, s: string)
    ensures |EscapeBytes(sh, s)| >= |s|
  {
    if s != "" { EscapedLength(sh, s[1..]); }
  }

  /** largestQuotableChunk: the true maximum, since quoting more is never shorter. */
  method LargestQuotableChunk(sh: Shell, s: string, budget: int) returns (best: nat)
    ensures best <= |s|
    ensures best > 0 ==> |Quote(sh, s[..best])| <= budget
    ensures forall n | best < n <= |s| :: |Quote(sh, s[..n])| > budget
  {
    var lo, hi := 0, |s|;
    best := 0;
    while lo <= hi
      invariant 0 <= lo <= |s| + 1 && -1 <= hi <= |s| && best <= |s|
      invariant best == if lo == 0 then 0 else lo - 1
      invariant lo > 0 ==> |Quote(sh, s[..best])| <= budget
      invariant forall n | hi < n <= |s| :: |Quote(sh, s[..n])| > budget
      decreases hi - lo + 1
    {
      var mid := (lo + hi) / 2;
      if |Quote(sh, s[..mid])| <= budget {
        best := mid;
        lo := mid + 1;
      } else {
        forall n | mid <= n <= |s| ensures |Quote(sh, s[..n])| > budget { QuotedLength(sh, s, mid, n); }
        hi := mid - 1;
      }
    }
  }

  // ---- wrapping -------------------------------------------------------------------

  /** The first byte of dir fits on the first line beside the prefix and the
      reserve. This alone decides whether a line that is too long gets broken. */
  predicate FirstByteFits(sh: Shell, dir: string, width: int) {
    dir != "" && |Prefix(sh)| + |Quote(sh, dir[..1])| + Reserve(sh) <= width
  }

  predicate StaysWhole(sh: Shell, dir: string, width: int) {
    width < 1 || |Full(sh, dir)| <= width || !FirstByteFits(sh, dir, width)
  }

  /** The emitted lines, each with the newline that ends it. */
  function Ended(lines: seq<string>): string {
    if lines == [] then "" else lines[0] + "\n" + Ended(lines[1..])
  }

  lemma {:induction false} JoinIsEnded(lines: seq<string>, last: string)
    ensures Join(lines + [last], "\n") == Ended(lines) + last
    decreases |lines|
  {
    if lines != [] {
      JoinIsEnded(lines[1..], last);
      assert (lines + [last])[1..] == lines[1..] + [last];
    }
  }

  lemma {:induction false} EndedLast(lines: seq<string>, line: string)
    ensures Ended(lines + [line]) == Ended(lines) + line + "\n"
    decreases |lines|
  {
    if lines == [] {
      assert ([] + [line])[1..] == [];
    } else {
      EndedLast(lines[1..], line);
      assert (lines + [line])[1..] == lines[1..] + [line];
    }
  }

  /** The reader after the prefix and the first bytes of dir. */
  function Midway(sh: Shell, done: string): Reader {
    var r := Run(sh, START, Prefix(sh));
    if done == "" then r else r.(word := Word(Items(r.word) + Verbatim(done)))
  }

  lemma PrefixReads(sh: Shell)
    ensures Run(sh, START, Prefix(sh)) == match sh
      case Posix => Reader(Plain, Word(BareItems("PATH=")), [Arg(BareItems("export"))])
      case Fish => Reader(Plain, NoWord, [Arg(BareItems("fish_add_path"))])
  {
    hide Run, BareItems;
    if sh == Posix {
      WordAndSpace(sh, "export");
      AssignmentReads(Reader(Plain, NoWord, [Arg(BareItems("export"))]));
      RunAppend(sh, START, "export" + " ", "PATH=");
      assert Prefix(sh) == "export" + " " + "PATH=";
    } else {
      WordAndSpace(sh, "fish_add_path");
      assert Prefix(sh) == "fish_add_path" + " ";
    }
  }

  lemma AssignmentReads(r: Reader)
    requires r.mode == Plain && r.word.NoWord?
    ensures Run(Posix, r, "PATH=") == r.(word := Word(BareItems("PATH=")))
  {
    hide Run, BareItems;
    BareReads(Posix, r, "PATH=");
    assert Items(r.word) + BareItems("PATH=") == BareItems("PATH=");
  }

  lemma WordAndSpace(sh: Shell, s: string)
    requires s != "" && forall i | 0 <= i < |s| :: IsBare(s[i])
    ensures Run(sh, START, s + " ") == Reader(Plain, NoWord, [Arg(BareItems(s))])
  {
    BareReads(sh, START, s);
    var r := Reader(Plain, Word([] + BareItems(s)), []);
    RunAppend(sh, START, s, " ");
    RunOne(sh, r, ' ');
    hide Run;
    assert [] + BareItems(s) == BareItems(s);
    assert Step(sh, r, ' ') == Delimit(r);
  }

  predicate IsBare(c: char) { 'a' <= c <= 'z' || 'A' <= c <= 'Z' || c in "_=:" }

  lemma {:induction false} BareReads(sh: Shell, r: Reader, s: string)
    requires r.mode == Plain && s != "" && forall i | 0 <= i < |s| :: IsBare(s[i])
    ensures Run(sh, r, s) == r.(word := Word(Items(r.word) + BareItems(s)))
    decreases |s|
  {
    assert IsBare(s[0]);
    var next := Add(r, Bare(s[0]), Plain);
    assert Step(sh, r, s[0]) == next;
    if |s| == 1 {
      assert Items(r.word) + [Bare(s[0])] == Items(r.word) + BareItems(s);
      assert s[1..] == "";
    } else {
      BareReads(sh, next, s[1..]);
      assert Items(r.word) + [Bare(s[0])] + BareItems(s[1..]) == Items(r.word) + BareItems(s);
    }
  }

  lemma SuffixReads(sh: Shell, dir: string)
    ensures
      var r := Run(sh, START, Prefix(sh));
      var end := Run(sh, r.(word := Word(Items(r.word) + Verbatim(dir))), Suffix(sh));
      end.mode == Plain && Delimit(end).tokens == Meaning(sh, dir)
  {
    PrefixReads(sh);
    if sh == Posix {
      var items := BareItems("PATH=") + Verbatim(dir);
      PosixSuffixReads(Reader(Plain, Word(items), [Arg(BareItems("export"))]));
    } else {
      assert [] + Verbatim(dir) == Verbatim(dir);
    }
  }

  lemma {:induction false} PosixSuffixReads(r: Reader)
    requires r.mode == Plain && r.word.Word?
    ensures Run(Posix, r, ":\"$PATH\"") == r.(word := Word(r.word.items + [Bare(':')] + InDoubleItems("$PATH")))
  {
    hide Run;
    RunAppend(Posix, r, ":", "\"$PATH\"");
    RunOne(Posix, r, ':');
    var r1 := r.(word := Word(r.word.items + [Bare(':')]));
    RunAppend(Posix, r1, "\"", "$PATH\"");
    RunOne(Posix, r1, '"');
    var r2 := Open(r1, Double);
    RunAppend(Posix, r2, "$PATH", "\"");
    InDoubleReads(r2, "$PATH");
    var r3 := r2.(word := Word(r2.word.items + InDoubleItems("$PATH")));
    RunOne(Posix, r3, '"');
    assert ":\"$PATH\"" == ":" + "\"$PATH\"" && "\"$PATH\"" == "\"" + "$PATH\"" && "$PATH\"" == "$PATH" + "\"";
  }

  lemma {:induction false} InDoubleReads(r: Reader, s: string)
    requires r.mode == Double && r.word.Word? && forall i | 0 <= i < |s| :: s[i] !in "\"\\`"
    ensures Run(Posix, r, s) == r.(word := Word(r.word.items + InDoubleItems(s)))
    decreases |s|
  {
    if s == "" {
      assert r.word.items + InDoubleItems(s) == r.word.items;
    } else {
      assert s[0] !in "\"\\`";
      InDoubleReads(Add(r, InDouble(s[0]), Double), s[1..]);
      assert r.word.items + [InDouble(s[0])] + InDoubleItems(s[1..]) == r.word.items + InDoubleItems(s);
    }
  }

  /** The unbroken line means what it should. */
  lemma FullReads(sh: Shell, dir: string)
    ensures Read(sh, Full(sh, dir)) == Tokens(Meaning(sh, dir))
  {
    PrefixReads(sh);
    var r := Run(sh, START, Prefix(sh));
    RunAppend(sh, START, Prefix(sh) + Quote(sh, dir), Suffix(sh));
    RunAppend(sh, START, Prefix(sh), Quote(sh, dir));
    QuoteReads(sh, r, dir);
    SuffixReads(sh, dir);
  }

  lemma WholeReads(sh: Shell, dir: string)
    ensures Read(sh, Join([Full(sh, dir)], "\n")) == Tokens(Meaning(sh, dir)) == Read(sh, Full(sh, dir))
  {
    FullReads(sh, dir);
  }

  /** A chunk more, and a continuation: the reader is further along dir, and the
      break itself has left nothing behind. */
  lemma {:induction false} ChunkReads(sh: Shell, done: string, chunk: string, text: string)
    requires chunk != "" && Run(sh, START, text) == Midway(sh, done)
    ensures Run(sh, START, text + Quote(sh, chunk) + "\\" + "\n") == Midway(sh, done + chunk)
  {
    hide Run, Quote;
    var q := Quote(sh, chunk);
    RunAppend(sh, START, text + q + "\\", "\n");
    RunAppend(sh, START, text + q, "\\");
    RunAppend(sh, START, text, q);
    MidwayExtends(sh, done, chunk);
    var r1 := Midway(sh, done + chunk);
    RunOne(sh, r1, '\\');
    RunOne(sh, r1.(mode := Escape), '\n');
  }

  lemma MidwayExtends(sh: Shell, done: string, chunk: string)
    requires chunk != ""
    ensures Midway(sh, done).mode == Plain
    ensures Run(sh, Midway(sh, done), Quote(sh, chunk)) == Midway(sh, done + chunk)
    ensures Midway(sh, done + chunk) ==
      var r := Run(sh, START, Prefix(sh)); r.(word := Word(Items(r.word) + Verbatim(done + chunk)))
  {
    PrefixReads(sh);
    hide Run, Quote, Prefix;
    QuoteReads(sh, Midway(sh, done), chunk);
    var base := Items(Run(sh, START, Prefix(sh)).word);
    if done == "" {
      assert done + chunk == chunk;
    } else {
      VerbatimAppend(done, chunk);
      assert (base + Verbatim(done)) + Verbatim(chunk) == base + Verbatim(done + chunk);
    }
  }

  lemma VerbatimAppend(a: string, b: string)
    ensures Verbatim(a + b) == Verbatim(a) + Verbatim(b)
  {
  }

  lemma {:induction false} LastReads(sh: Shell, done: string, rest: string, text: string)
    requires rest != "" && Run(sh, START, text) == Midway(sh, done)
    ensures Read(sh, text + Quote(sh, rest) + Suffix(sh)) == Tokens(Meaning(sh, done + rest))
  {
    hide Run, Quote, Prefix, Suffix, Meaning;
    RunAppend(sh, START, text + Quote(sh, rest), Suffix(sh));
    RunAppend(sh, START, text, Quote(sh, rest));
    MidwayExtends(sh, done, rest);
    SuffixReads(sh, done + rest);
  }

  /** After the first line there is always room for a byte. */
  lemma LaterLinesFit(sh: Shell, dir: string, rest: string, width: int)
    requires FirstByteFits(sh, dir, width) && rest != ""
    ensures |Quote(sh, rest[..1])| + Reserve(sh) <= width
  {
    assert |Quote(sh, rest[..1])| <= 6 by { OneByteQuoted(sh, rest[..1]); }
    assert |Quote(sh, dir[..1])| >= 3 by { OneByteQuoted(sh, dir[..1]); }
  }

  lemma OneByteQuoted(sh: Shell, s: string)
    requires |s| == 1
    ensures 3 <= |Quote(sh, s)| <= 6
  {
    QuoteByBytes(sh, s);
    assert s[1..] == "" && EscapeBytes(sh, s) == EscapeByte(sh, s[0]) + "";
  }

  /** Where WrapRCLine is: done has been emitted in lines, rest has not, and the
      next line starts with head. */
  /** On a line of 26 bytes or more a quoted byte always fits. */
  lemma WideEnough(sh: Shell, dir: string, width: int)
    requires width >= 26
    ensures |Full(sh, dir)| <= width || FirstByteFits(sh, dir, width)
  {
    hide Quote;
    if dir == "" { EmptyQuoted(sh); } else { OneByteQuoted(sh, dir[..1]); }
  }

  lemma EmptyQuoted(sh: Shell)
    ensures Quote(sh, "") == "''"
  {
  }

  /** The line for a directory without quotes and backslashes, as it is written. */
  lemma PlainLine(dir: string)
    requires Without(dir, '\'') && Without(dir, '\\')
    ensures Full(Posix, dir) == "export PATH='" + dir + "':\"$PATH\""
    ensures Full(Fish, dir) == "fish_add_path '" + dir + "'"
  {
    hide Quote;
    PlainQuote(Posix, dir);
    PlainQuote(Fish, dir);
  }

  lemma PlainQuote(sh: Shell, s: string)
    requires Without(s, '\'') && Without(s, '\\')
    ensures Quote(sh, s) == "'" + s + "'"
  {
    hide Quote;
    QuoteByBytes(sh, s);
    PlainBytes(sh, s);
  }

  lemma {:induction false} PlainBytes(sh: Shell, s: string)
    requires Without(s, '\'') && Without(s, '\\')
    ensures EscapeBytes(sh, s) == s
  {
    if s != "" {
      PlainBytes(sh, s[1..]);
      assert [s[0]] + s[1..] == s;
    }
  }

  ghost predicate Wrapping(sh: Shell, dir: string, width: int, lines: seq<string>, done: string, rest: string,
                           head: string) {
    && done + rest == dir
    && head == (if lines == [] then Prefix(sh) else "")
    && (lines == [] ==> done == "")
    && (lines != [] ==> rest != "" && FirstByteFits(sh, dir, width))
    && (forall i | 0 <= i < |lines| :: |lines[i]| <= width)
    && Run(sh, START, Ended(lines) + head) == Midway(sh, done)
  }

  function Room(sh: Shell, width: int, head: string): int { width - |head| - Reserve(sh) }

  lemma {:induction false} WrappingStarts(sh: Shell, dir: string, width: int)
    ensures Wrapping(sh, dir, width, [], "", dir, Prefix(sh))
  {
    hide Run;
    assert Ended([]) + Prefix(sh) == Prefix(sh) && "" + dir == dir;
  }

  lemma WrappingEnds(sh: Shell, dir: string, width: int, lines: seq<string>, done: string, rest: string, head: string)
    requires Wrapping(sh, dir, width, lines, done, rest, head)
    requires |head| + |Quote(sh, rest)| + |Suffix(sh)| <= width < |Full(sh, dir)|
    ensures lines != [] && FirstByteFits(sh, dir, width) && forall i | 0 <= i < |lines| :: |lines[i]| <= width
    ensures Read(sh, Join(lines + [head + Quote(sh, rest) + Suffix(sh)], "\n")) == Tokens(Meaning(sh, dir))
  {
    hide Run, Quote, Read, Meaning, Suffix, Join, Midway;
    assert lines == [] ==> rest == dir;
    var last := head + Quote(sh, rest) + Suffix(sh);
    JoinIsEnded(lines, last);
    LastReads(sh, done, rest, Ended(lines) + head);
    assert Ended(lines) + last == Ended(lines) + head + Quote(sh, rest) + Suffix(sh);
  }

  /** When no byte fits, this is the first line, and the line stays whole. */
  lemma WrappingSticks(sh: Shell, dir: string, width: int, lines: seq<string>, done: string, rest: string, head: string)
    requires Wrapping(sh, dir, width, lines, done, rest, head)
    requires rest != "" ==> |Quote(sh, rest[..1])| > Room(sh, width, head)
    ensures !FirstByteFits(sh, dir, width)
  {
    hide Run, Quote, Midway;
    if lines == [] {
      assert rest == dir;
    } else {
      LaterLinesFit(sh, dir, rest, width);
    }
  }

  lemma WrappingAdvances(sh: Shell, dir: string, width: int, lines: seq<string>, done: string, rest: string,
                         head: string, m: nat)
    requires Wrapping(sh, dir, width, lines, done, rest, head)
    requires 0 < m <= |rest| && |Quote(sh, rest[..m])| <= Room(sh, width, head)
    requires |head| + |Quote(sh, rest)| + |Suffix(sh)| > width
    ensures Wrapping(sh, dir, width, lines + [head + Quote(sh, rest[..m]) + "\\"], done + rest[..m], rest[m..], "")
  {
    hide Run, Quote, Midway, Ended;
    QuotedLength(sh, rest, 1, m);
    assert rest[..|rest|] == rest;
    assert lines == [] ==> rest == dir;
    assert done + rest[..m] + rest[m..] == dir;
    var line := head + Quote(sh, rest[..m]) + "\\";
    EndedLast(lines, line);
    ChunkReads(sh, done, rest[..m], Ended(lines) + head);
    assert Ended(lines) + line + "\n" + "" == Ended(lines) + head + Quote(sh, rest[..m]) + "\\" + "\n";
  }

  /** WrapRCLine. Either the line stays whole, exactly when StaysWhole says, or
      every physical line fits; and either way the text means the same. */
  method WrapRCLine(sh: Shell, dir: string, width: int) returns (lines: seq<string>)
    ensures lines != [] && (|lines| == 1 <==> StaysWhole(sh, dir, width))
    ensures |lines| == 1 ==> lines == [Full(sh, dir)]
    ensures |lines| > 1 ==> forall i | 0 <= i < |lines| :: |lines[i]| <= width
    ensures width >= 26 ==> forall i | 0 <= i < |lines| :: |lines[i]| <= width
    ensures Read(sh, Join(lines, "\n")) == Tokens(Meaning(sh, dir)) == Read(sh, Full(sh, dir))
  {
    hide Run, Read, Quote, Midway, Meaning, Join, Ended, Wrapping, Prefix, Suffix, FirstByteFits;
    WholeReads(sh, dir);
    if width >= 26 { WideEnough(sh, dir, width); }
    var prefix, suffix := Prefix(sh), Suffix(sh);
    var full := prefix + Quote(sh, dir) + suffix;
    if width < 1 || |full| <= width { return [full]; }
    var reserve := 1;
    if |suffix| > reserve { reserve := |suffix|; }
    lines := [];
    var rest, head := dir, prefix;
    ghost var done := "";
    WrappingStarts(sh, dir, width);
    while true
      invariant Wrapping(sh, dir, width, lines, done, rest, head)
      decreases |rest|
    {
      var n := |head| + |Quote(sh, rest)| + |suffix|;
      if n <= width {
        assert full == Full(sh, dir);
        WrappingEnds(sh, dir, width, lines, done, rest, head);
        return lines + [head + Quote(sh, rest) + suffix];
      }
      var budget := width - |head| - reserve;
      var m := LargestQuotableChunk(sh, rest, budget);
      assert budget == Room(sh, width, head);
      if m == 0 {
        assert rest != "" ==> |Quote(sh, rest[..1])| > budget;
        WrappingSticks(sh, dir, width, lines, done, rest, head);
        return [full];
      }
      WrappingAdvances(sh, dir, width, lines, done, rest, head, m);
      lines := lines + [head + Quote(sh, rest[..m]) + "\\"];
      done := done + rest[..m];
      rest := rest[m..];
      head := "";
    }
  }
}
