/** A reader for the fragment of shell syntax that stoat prints: the POSIX rules
    of IEEE Std 1003.1-2017, Shell Command Language, sections 2.2 (quoting) and
    2.3 (token recognition), and fish's own quoting rules. */
module Shell {
  import opened Text

  datatype Shell = Posix | Fish

  /** A byte of a word, with how it was written: bare, quoted for good, or inside
      double quotes, where `$` keeps its meaning. */
  datatype Item = Bare(c: char) | Quoted(c: char) | InDouble(c: char)
  datatype Word = NoWord | Word(items: seq<Item>)
  datatype Token = Arg(items: seq<Item>) | Newline

  /** Unsupported absorbs everything: an operator, comment, pattern or bare
      expansion was met, which this reader does not interpret. */
  datatype Mode = Plain | Escape | Single | SingleEscape | Double | DoubleEscape | Unsupported

  datatype Reader = Reader(mode: Mode, word: Word, tokens: seq<Token>)
  datatype Reading = Unfinished | Tokens(tokens: seq<Token>)

  const START: Reader := Reader(Plain, NoWord, [])

  predicate Special(c: char) {
    c in "|&;<>()$`#*?[~!{}"
  }

  function Items(w: Word): seq<Item> { if w.NoWord? then [] else w.items }

  function Add(r: Reader, item: Item, mode: Mode): Reader {
    r.(mode := mode, word := Word(Items(r.word) + [item]))
  }

  function Open(r: Reader, mode: Mode): Reader { r.(mode := mode, word := Word(Items(r.word))) }

  function Delimit(r: Reader): Reader {
    if r.word.NoWord? then r else Reader(Plain, NoWord, r.tokens + [Arg(r.word.items)])
  }

  function Step(sh: Shell, r: Reader, c: char): Reader {
    match r.mode
    case Plain =>
      if c == '\\' then r.(mode := Escape)
      else if c == '\'' then Open(r, Single)
      else if c == '"' then (if sh.Posix? then Open(r, Double) else r.(mode := Unsupported))
      else if c == ' ' || c == '\t' then Delimit(r)
      else if c == '\n' then var d := Delimit(r); d.(tokens := d.tokens + [Newline])
      else if Special(c) then r.(mode := Unsupported)
      else Add(r, Bare(c), Plain)
    case Escape =>
      if c == '\n' then r.(mode := Plain)  // line continuation: both characters vanish
      else if sh.Posix? then Add(r, Quoted(c), Plain)
      else r.(mode := Unsupported)
    case Single =>
      if c == '\'' then r.(mode := Plain)
      else if c == '\\' && sh.Fish? then r.(mode := SingleEscape)
      else Add(r, Quoted(c), Single)
    case SingleEscape =>
      if c == '\\' || c == '\'' then Add(r, Quoted(c), Single)
      else Add(Add(r, Quoted('\\'), Single), Quoted(c), Single)
    case Double =>
      if c == '"' then r.(mode := Plain)
      else if c == '\\' then r.(mode := DoubleEscape)
      else if c == '`' then r.(mode := Unsupported)
      else Add(r, InDouble(c), Double)
    case DoubleEscape =>
      if c == '\n' then r.(mode := Double)
      else if c in "$`\"\\" then Add(r, Quoted(c), Double)
      else Add(Add(r, InDouble('\\'), Double), InDouble(c), Double)
    case Unsupported => r
  }

  function Run(sh: Shell, r: Reader, s: string): Reader
    decreases |s|
  {
    if s == "" then r else Run(sh, Step(sh, r, s[0]), s[1..])
  }

  /** The tokens of a whole text, if it ends outside quotes. */
  function Read(sh: Shell, s: string): Reading {
    var r := Run(sh, START, s);
    if r.mode.Plain? then Tokens(Delimit(r).tokens) else Unfinished
  }

  function Verbatim(s: string): seq<Item> {
    seq(|s|, i requires 0 <= i < |s| => Quoted(s[i]))
  }

  lemma {:induction false} RunAppend(sh: Shell, r: Reader, a: string, b: string)
    ensures Run(sh, r, a + b) == Run(sh, Run(sh, r, a), b)
    decreases |a|
  {
    if a == "" {
      assert a + b == b;
    } else {
      assert (a + b)[1..] == a[1..] + b;
      RunAppend(sh, Step(sh, r, a[0]), a[1..], b);
    }
  }

  lemma RunOne(sh: Shell, r: Reader, c: char)
    ensures Run(sh, r, [c]) == Step(sh, r, c)
  {
  }

  // ---- quoting --------------------------------------------------------------

  /** shellQuote, and equally guest.ShQuote and the loop body of shellJoin. */
  function ShellQuote(s: string): string {
    "'" + ReplaceAll(s, "'", "'\\''") + "'"
  }

  function FishQuote(s: string): string {
    "'" + ReplaceAll(ReplaceAll(s, "\\", "\\\\"), "'", "\\'") + "'"
  }

  function Quote(sh: Shell, s: string): string {
    match sh case Posix => ShellQuote(s) case Fish => FishQuote(s)
  }

  /** What stands for one byte inside the quotes. */
  function EscapeByte(sh: Shell, c: char): string {
    match sh
    case Posix => if c == '\'' then "'\\''" else [c]
    case Fish => if c == '\'' || c == '\\' then ['\\', c] else [c]
  }

  function EscapeBytes(sh: Shell, s: string): string {
    if s == "" then "" else EscapeByte(sh, s[0]) + EscapeBytes(sh, s[1..])
  }

  lemma {:induction false} ReplaceByte(s: string, c: char, with: string)
    ensures s != "" ==> ReplaceAll(s, [c], with) == (if s[0] == c then with else [s[0]]) + ReplaceAll(s[1..], [c], with)
    ensures s == "" ==> ReplaceAll(s, [c], with) == ""
  {
    if s != "" { assert s[..1] == [s[0]]; }
  }

  lemma {:induction false} QuoteByBytes(sh: Shell, s: string)
    ensures Quote(sh, s) == "'" + EscapeBytes(sh, s) + "'"
    decreases |s|
  {
    if s != "" { QuoteByBytes(sh, s[1..]); }
    match sh
    case Posix =>
      EscapedPosix(s);
    case Fish =>
      EscapedFish(s);
  }

  lemma {:induction false} EscapedPosix(s: string)
    ensures ReplaceAll(s, "'", "'\\''") == EscapeBytes(Posix, s)
    decreases |s|
  {
    ReplaceByte(s, '\'', "'\\''");
    if s != "" { EscapedPosix(s[1..]); }
  }

  /** Backslashes first, quotes second: the order that does not escape an
      escape again. */
  lemma {:induction false} EscapedFish(s: string)
    ensures ReplaceAll(ReplaceAll(s, "\\", "\\\\"), "'", "\\'") == EscapeBytes(Fish, s)
    decreases |s|
  {
    ReplaceByte(s, '\\', "\\\\");
    if s == "" {
      ReplaceByte("", '\'', "\\'");
    } else {
      var rest := ReplaceAll(s[1..], "\\", "\\\\");
      EscapedFish(s[1..]);
      if s[0] == '\\' {
        var t := "\\\\" + rest;
        ReplaceByte(t, '\'', "\\'");
        ReplaceByte(t[1..], '\'', "\\'");
        assert t[1..] == "\\" + rest && t[1..][1..] == rest;
      } else {
        var t := [s[0]] + rest;
        ReplaceByte(t, '\'', "\\'");
        assert t[1..] == rest;
      }
    }
  }

  lemma {:induction false} EscapeAppend(sh: Shell, a: string, b: string)
    ensures EscapeBytes(sh, a + b) == EscapeBytes(sh, a) + EscapeBytes(sh, b)
    decreases |a|
  {
    if a == "" {
      assert a + b == b;
    } else {
      assert (a + b)[1..] == a[1..] + b;
      EscapeAppend(sh, a[1..], b);
    }
  }

  lemma ByteReads(sh: Shell, r: Reader, c: char)
    requires r.mode == Single
    ensures Run(sh, r, EscapeByte(sh, c)) == Add(r, Quoted(c), Single)
  {
    var e := EscapeByte(sh, c);
    var r1 := Step(sh, r, e[0]);
    if sh == Posix && c == '\'' {
      var r2 := Step(sh, r1, '\\');
      var r3 := Step(sh, r2, '\'');
      var e1, e2, e3 := "\\''", "''", "'";
      assert e[1..] == e1 && e1[1..] == e2 && e2[1..] == e3 && e3[1..] == "";
      assert Run(sh, r3, e3) == Step(sh, r3, '\'');
      assert Run(sh, r2, e2) == Run(sh, r3, e3);
      assert Run(sh, r1, e1) == Run(sh, r2, e2);
    } else if |e| == 2 {
      assert e[1..] == [c] && Run(sh, r1, [c]) == Step(sh, r1, c);
    }
  }

  lemma {:induction false} BytesRead(sh: Shell, r: Reader, s: string)
    requires r.mode == Single && r.word.Word?
    ensures Run(sh, r, EscapeBytes(sh, s)) == r.(word := Word(r.word.items + Verbatim(s)))
    decreases |s|
  {
    if s == "" {
      assert r.word.items + Verbatim(s) == r.word.items;
    } else {
      RunAppend(sh, r, EscapeByte(sh, s[0]), EscapeBytes(sh, s[1..]));
      ByteReads(sh, r, s[0]);
      BytesRead(sh, Add(r, Quoted(s[0]), Single), s[1..]);
      assert r.word.items + [Quoted(s[0])] + Verbatim(s[1..]) == r.word.items + Verbatim(s);
    }
  }

  /** A quoted string adds exactly its bytes to the word it stands in. */
  lemma QuoteReads(sh: Shell, r: Reader, s: string)
    requires r.mode == Plain
    ensures Run(sh, r, Quote(sh, s)) == r.(word := Word(Items(r.word) + Verbatim(s)))
  {
    QuoteByBytes(sh, s);
    var body := EscapeBytes(sh, s);
    RunAppend(sh, r, "'" + body, "'");
    RunAppend(sh, r, "'", body);
    var open := Open(r, Single);
    assert Run(sh, r, "'") == open;
    BytesRead(sh, open, s);
    var end := Run(sh, open, body);
    assert Run(sh, end, "'") == Step(sh, end, '\'');
  }

  // ---- argument lists ---------------------------------------------------------

  function QuoteEach(argv: seq<string>): seq<string> {
    seq(|argv|, i requires 0 <= i < |argv| => ShellQuote(argv[i]))
  }

  function AsArgs(argv: seq<string>): seq<Token> {
    seq(|argv|, i requires 0 <= i < |argv| => Arg(Verbatim(argv[i])))
  }

  /** shellJoin (and guest.quoteArgv, which is the same loop): whatever the
      arguments are, a POSIX shell reads back exactly them. */
  method ShellJoin(argv: seq<string>) returns (line: string)
    ensures line == Join(QuoteEach(argv), " ")
    ensures Read(Posix, line) == Tokens(AsArgs(argv))
  {
    var quoted := new string[|argv|];
    for i := 0 to |argv|
      invariant forall j | 0 <= j < i :: quoted[j] == ShellQuote(argv[j])
    {
      quoted[i] := ShellQuote(argv[i]);
    }
    assert quoted[..] == QuoteEach(argv);
    line := Join(quoted[..], " ");
    JoinedReadsBack(argv);
  }

  lemma {:induction false} JoinedFrom(r: Reader, argv: seq<string>)
    requires r.mode == Plain && r.word.NoWord?
    ensures
      var end := Run(Posix, r, Join(QuoteEach(argv), " "));
      end.mode == Plain && Delimit(end).tokens == r.tokens + AsArgs(argv)
    decreases |argv|
  {
    var q := QuoteEach(argv);
    if argv == [] {
      assert r.tokens + AsArgs(argv) == r.tokens;
    } else {
      QuoteReads(Posix, r, argv[0]);
      var after := Run(Posix, r, q[0]);
      assert after == r.(word := Word([] + Verbatim(argv[0])));
      var done := Delimit(after);
      if |argv| == 1 {
        assert AsArgs(argv) == [Arg(Verbatim(argv[0]))];
        assert [] + Verbatim(argv[0]) == Verbatim(argv[0]);
      } else {
        assert q[1..] == QuoteEach(argv[1..]);
        var rest := Join(q[1..], " ");
        assert Join(q, " ") == q[0] + " " + rest;
        RunAppend(Posix, r, q[0] + " ", rest);
        RunAppend(Posix, r, q[0], " ");
        assert Run(Posix, after, " ") == done;
        JoinedFrom(done, argv[1..]);
        assert done.tokens + AsArgs(argv[1..]) == r.tokens + AsArgs(argv);
      }
    }
  }

  lemma JoinedReadsBack(argv: seq<string>)
    ensures Read(Posix, Join(QuoteEach(argv), " ")) == Tokens(AsArgs(argv))
  {
    JoinedFrom(START, argv);
    assert START.tokens + AsArgs(argv) == AsArgs(argv);
  }

  /** Nothing is lost in the reading: different argument lists read differently,
      so they are printed differently. */
  lemma PrintingIsInjective(a: seq<string>, b: seq<string>)
    requires Join(QuoteEach(a), " ") == Join(QuoteEach(b), " ")
    ensures a == b
  {
    JoinedReadsBack(a);
    JoinedReadsBack(b);
    assert |a| == |AsArgs(a)| == |AsArgs(b)| == |b|;
    forall i | 0 <= i < |a| ensures a[i] == b[i] {
      assert AsArgs(a)[i].items == Verbatim(a[i]) && AsArgs(b)[i].items == Verbatim(b[i]);
      VerbatimInjective(a[i], b[i]);
    }
  }

  lemma VerbatimInjective(s: string, t: string)
    requires Verbatim(s) == Verbatim(t)
    ensures s == t
  {
    assert |s| == |Verbatim(s)| == |Verbatim(t)| == |t|;
    forall i | 0 <= i < |s| ensures s[i] == t[i] {
      assert Verbatim(s)[i] == Quoted(s[i]) && Verbatim(t)[i] == Quoted(t[i]);
    }
  }
}
