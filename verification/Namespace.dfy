/** The environment names of secrets: internal/cloudinit/scripts.go. */
module Namespace {
  import opened Text

  /** A byte, as Go's strings hold them. */
  type Byte = c: char | c as int < 256 witness 'a'
  type Bytes = seq<Byte>

  predicate PlainByte(c: Byte) { 'a' <= c <= 'z' || '0' <= c <= '9' }
  predicate PlainPart(s: Bytes) { s != [] && forall i | 0 <= i < |s| :: PlainByte(s[i]) }

  function UpperByte(c: Byte): Byte { if 'a' <= c <= 'z' then (c as int - 32) as char else c }
  function Upper(s: Bytes): Bytes { seq(|s|, i requires 0 <= i < |s| => UpperByte(s[i])) }

  function Digit(n: int): Byte
    requires 0 <= n < 16
  {
    if n < 10 then (n + '0' as int) as char else (n - 10 + 'a' as int) as char
  }

  function Hex(s: Bytes): Bytes {
    seq(2 * |s|, i requires 0 <= i < 2 * |s| =>
      if i % 2 == 0 then Digit(s[i / 2] as int / 16) else Digit(s[i / 2] as int % 16))
  }

  const STEM: Bytes := "STOAT_PARAM_"

  /** namespacedSecret. */
  function SecretName(recipe: Bytes, param: Bytes): Bytes {
    if PlainPart(recipe) && PlainPart(param) then STEM + Upper(recipe) + "_" + Upper(param)
    else STEM + "X" + Hex(recipe) + "_" + Hex(param)
  }

  // ---- injectivity --------------------------------------------------------------

  /** The first '_' after the stem separates the parts. */
  lemma PartsUnique(a: Bytes, b: Bytes, a': Bytes, b': Bytes)
    requires Without(a, '_') && Without(a', '_') && STEM + a + "_" + b == STEM + a' + "_" + b'
    ensures a == a' && b == b'
  {
    var s, s' := a + ['_'] + b, a' + ['_'] + b';
    assert STEM + a + "_" + b == STEM + s && STEM + a' + "_" + b' == STEM + s';
    assert (STEM + s)[|STEM|..] == s && (STEM + s')[|STEM|..] == s';
    SplitUnique(a, b, a', b', '_');
  }

  lemma UpperInjective(s: Bytes, t: Bytes)
    requires PlainPart(s) && PlainPart(t) && Upper(s) == Upper(t)
    ensures s == t
  {
    assert |s| == |Upper(s)| == |t|;
    forall i | 0 <= i < |s| ensures s[i] == t[i] {
      assert Upper(s)[i] == Upper(t)[i];
    }
  }

  lemma DigitInjective(m: int, n: int)
    requires 0 <= m < 16 && 0 <= n < 16 && Digit(m) == Digit(n)
    ensures m == n
  {
  }

  lemma HexInjective(s: Bytes, t: Bytes)
    requires Hex(s) == Hex(t)
    ensures s == t
  {
    assert 2 * |s| == |Hex(s)| == 2 * |t|;
    forall i | 0 <= i < |s| ensures s[i] == t[i] {
      assert Hex(s)[2 * i] == Hex(t)[2 * i] && Hex(s)[2 * i + 1] == Hex(t)[2 * i + 1];
      DigitInjective(s[i] as int / 16, t[i] as int / 16);
      DigitInjective(s[i] as int % 16, t[i] as int % 16);
    }
  }

  lemma UpperHasNoBar(s: Bytes)
    requires PlainPart(s)
    ensures Without(Upper(s), '_')
  {
  }

  lemma HexHasNoBar(s: Bytes)
    ensures Without(['X'] + Hex(s), '_')
  {
  }

  lemma HexHasNoCapital(s: Bytes)
    ensures forall i | 0 <= i < |Hex(s)| :: !('A' <= Hex(s)[i] <= 'Z')
  {
  }

  /** A param name as the manifest grammar has it starts with a small letter. */
  predicate StartsWithLetter(param: Bytes) { param != [] && 'a' <= param[0] <= 'z' }

  /** A readable name is never a hexadecimal one: its second part starts with a
      capital, which hexadecimal never does. */
  lemma FormsDiffer(recipe: Bytes, param: Bytes, recipe': Bytes, param': Bytes)
    requires PlainPart(recipe) && PlainPart(param) && !(PlainPart(recipe') && PlainPart(param'))
    requires StartsWithLetter(param)
    ensures SecretName(recipe, param) != SecretName(recipe', param')
  {
    UpperHasNoBar(recipe);
    HexHasNoBar(recipe');
    assert STEM + "X" + Hex(recipe') + "_" + Hex(param') == STEM + (['X'] + Hex(recipe')) + "_" + Hex(param');
    HexHasNoCapital(param');
    assert 'A' <= Upper(param)[0] <= 'Z';
    if SecretName(recipe, param) == SecretName(recipe', param') {
      PartsUnique(Upper(recipe), Upper(param), ['X'] + Hex(recipe'), Hex(param'));
    }
  }

  lemma PlainFormInjective(recipe: Bytes, param: Bytes, recipe': Bytes, param': Bytes)
    requires PlainPart(recipe) && PlainPart(param) && PlainPart(recipe') && PlainPart(param')
    requires STEM + Upper(recipe) + "_" + Upper(param) == STEM + Upper(recipe') + "_" + Upper(param')
    ensures recipe == recipe' && param == param'
  {
    UpperHasNoBar(recipe);
    UpperHasNoBar(recipe');
    hide Upper, PlainPart, Without;
    PartsUnique(Upper(recipe), Upper(param), Upper(recipe'), Upper(param'));
    UpperInjective(recipe, recipe');
    UpperInjective(param, param');
  }

  lemma HexFormInjective(recipe: Bytes, param: Bytes, recipe': Bytes, param': Bytes)
    requires STEM + "X" + Hex(recipe) + "_" + Hex(param) == STEM + "X" + Hex(recipe') + "_" + Hex(param')
    ensures recipe == recipe' && param == param'
  {
    HexHasNoBar(recipe);
    HexHasNoBar(recipe');
    hide Hex, Without;
    var x, x' := ['X'] + Hex(recipe), ['X'] + Hex(recipe');
    assert STEM + "X" + Hex(recipe) + "_" + Hex(param) == STEM + x + "_" + Hex(param);
    assert STEM + "X" + Hex(recipe') + "_" + Hex(param') == STEM + x' + "_" + Hex(param');
    PartsUnique(x, Hex(param), x', Hex(param'));
    assert x[1..] == Hex(recipe) && x'[1..] == Hex(recipe');
    HexInjective(recipe, recipe');
    HexInjective(param, param');
  }

  /** Two secrets have the same name only if they are the same secret. */
  lemma SecretNameInjective(recipe: Bytes, param: Bytes, recipe': Bytes, param': Bytes)
    requires StartsWithLetter(param) && StartsWithLetter(param')
    requires SecretName(recipe, param) == SecretName(recipe', param')
    ensures recipe == recipe' && param == param'
  {
    hide Hex, Upper, PlainPart, StartsWithLetter;
    var plain, plain' := PlainPart(recipe) && PlainPart(param), PlainPart(recipe') && PlainPart(param');
    if plain && plain' {
      PlainFormInjective(recipe, param, recipe', param');
    } else if plain {
      FormsDiffer(recipe, param, recipe', param');
    } else if plain' {
      FormsDiffer(recipe', param', recipe, param);
    } else {
      HexFormInjective(recipe, param, recipe', param');
    }
  }

  /** Without the first letter the two forms do meet. */
  lemma LetterNeeded()
    ensures SecretName("x41", "41") == SecretName("A", "A")
  {
    assert Upper("x41") == "X41" && Upper("41") == "41" && Hex("A") == "41";
    assert !PlainByte("A"[0]);
    assert PlainPart("x41") && PlainPart("41");
  }

  /** A name of a shell variable: letters, digits and underscores, and no digit first. */
  predicate VariableName(s: Bytes) {
    s != [] && !('0' <= s[0] <= '9')
    && forall i | 0 <= i < |s| :: 'a' <= s[i] <= 'z' || 'A' <= s[i] <= 'Z' || '0' <= s[i] <= '9' || s[i] == '_'
  }

  /** Whatever recipe and parameter are called, the name is one a shell takes. */
  lemma SecretNameIsVariable(recipe: Bytes, param: Bytes)
    ensures VariableName(SecretName(recipe, param))
  {
    HexIsDigits(recipe);
    HexIsDigits(param);
    hide Hex;
    if PlainPart(recipe) && PlainPart(param) {
      assert forall i | 0 <= i < |recipe| :: PlainByte(recipe[i]);
      assert forall i | 0 <= i < |param| :: PlainByte(param[i]);
    }
  }

  lemma HexIsDigits(s: Bytes)
    ensures forall i | 0 <= i < |Hex(s)| :: '0' <= Hex(s)[i] <= '9' || 'a' <= Hex(s)[i] <= 'f'
  {
  }

  /** The two forms, as they are written. */
  lemma SecretNameText()
    ensures SecretName("web1", "token") == "STOAT_PARAM_WEB1_TOKEN"
    ensures SecretName("a-b", "k") == "STOAT_PARAM_X612d62_6b"
  {
    hide Upper, Hex, PlainPart;
    PlainText();
    HexText();
  }

  lemma PlainText()
    ensures PlainPart("web1") && PlainPart("token") && Upper("web1") == "WEB1" && Upper("token") == "TOKEN"
  {
  }

  lemma HexText()
    ensures !PlainPart("a-b") && Hex("a-b") == "612d62" && Hex("k") == "6b"
  {
    assert !PlainByte("a-b"[1]);
    hide PlainPart;
  }
}
