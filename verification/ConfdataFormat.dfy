/** The `.config` format, told by its lines: which lines set a symbol, and which texts are values. */
module ConfdataFormat {
  import opened Tristates
  import opened Expressions
  import opened Confdata
  import Preprocess
  import Expansion

  /** A line that sets a symbol to a text. */
  function Assignment(name: string, val: string): string {
    CONFIG_PREFIX + name + "=" + val
  }

  /** The line that sets it to n. */
  function Unset(name: string): string {
    "# " + CONFIG_PREFIX + name + " is not set"
  }

  lemma {:induction false} CutOnlyAt(s: string, c: char, a: string, b: string)
    ensures Cut(s, c) == Some((a, b)) <==> s == a + [c] + b && c !in a
  {
    if s == a + [c] + b && c !in a {
      CutAt(a, c, b);
    }
  }

  /** A line sets a symbol if and only if it has one of these two forms. */
  lemma ParseLineExactly(line: string, name: string, val: string)
    ensures ParseLine(line) == Some((name, val)) <==>
      || (line == Assignment(name, val) && '=' !in name)
      || (line == Unset(name) && ' ' !in name && val == "n")
  {
    AssignmentParsed(line, name, val);
    UnsetParsed(line, name, val);
    assert First(Assignment(name, val), 'C') && First(Unset(name), '#');
  }

  lemma AssignmentParsed(line: string, name: string, val: string)
    ensures !First(line, '#') ==>
      (ParseLine(line) == Some((name, val)) <==> line == Assignment(name, val) && '=' !in name)
  {
    var n := |CONFIG_PREFIX|;
    if StartsWith(line, CONFIG_PREFIX) {
      assert line == CONFIG_PREFIX + line[n..];
      CutOnlyAt(line[n..], '=', name, val);
      assert Assignment(name, val)[n..] == name + ['='] + val;
      assert line[n..] == name + ['='] + val ==> line == Assignment(name, val);
    } else {
      assert Assignment(name, val)[..n] == CONFIG_PREFIX;
    }
  }

  lemma UnsetParsed(line: string, name: string, val: string)
    ensures First(line, '#') ==>
      (ParseLine(line) == Some((name, val)) <==> line == Unset(name) && ' ' !in name && val == "n")
  {
    var n := |CONFIG_PREFIX|;
    var unset := Unset(name);
    assert unset[0] == '#' && unset[1] == ' ' && unset[2..] == CONFIG_PREFIX + name + " is not set";
    assert unset[2..][n..] == name + [' '] + "is not set";
    if First(line, '#') && |line| >= 2 && line[1] == ' ' && StartsWith(line[2..], CONFIG_PREFIX) {
      assert line == "# " + CONFIG_PREFIX + line[2..][n..];
      CutOnlyAt(line[2..][n..], ' ', name, "is not set");
      if line[2..][n..] == name + [' '] + "is not set" {
        assert line == unset;
      }
    }
  }

  /** What is printed has one of these forms: the second one for n and for nothing else. */
  lemma PrintedForm(name: string, typ: SymbolType, v: Setting)
    requires HasType(typ, v)
    ensures v == Tri(NO) ==> PrintSymbol(name, typ, v) == Unset(name)
    ensures v.Tri? && v.tri != NO ==> PrintSymbol(name, typ, v) == Assignment(name, if v.tri == MOD then "m" else "y")
    ensures v.Text? ==> PrintSymbol(name, typ, v) == Assignment(name, if typ == Str then Escape(v.text) else v.text)
  {
  }

  /** What is read as a value of each type: for booleans and tristates the first letter decides, numbers
      are taken as they stand. */
  lemma ParseValueExactly(typ: SymbolType, p: string, v: Setting)
    ensures typ == Boolean ==> (ParseValue(typ, p) == Some(v) <==>
      v.Tri? && v.tri != MOD && First(p, ValueText(v)[0]))
    ensures typ == TristateType ==> (ParseValue(typ, p) == Some(v) <==> v.Tri? && First(p, ValueText(v)[0]))
    ensures typ == Int || typ == Hex ==> (ParseValue(typ, p) == Some(v) <==> v == Text(p) && StringValid(typ, p))
    ensures typ == Str && ParseValue(typ, p) == Some(v) ==> v.Text? && First(p, '"')
    ensures ParseValue(typ, p) == Some(v) ==> HasType(typ, v)
  {
  }

  // ---- numbers ----

  lemma DigitOf(c: char)
    requires Preprocess.IsDigit(c)
    ensures 0 <= c as int - '0' as int < 10 && Expansion.Digit(c as int - '0' as int) == c
  {
  }

  lemma {:induction false} CanonicalDigits(d: string)
    requires d != "" && Preprocess.AllDigits(d) && (d[0] == '0' ==> |d| == 1)
    ensures Expansion.Numeral(Preprocess.Number(d)) == d
    ensures d[0] != '0' ==> Preprocess.Number(d) > 0
  {
    hide Preprocess.Number, Expansion.Numeral, Expansion.Digit;
    var init, last := d[..|d| - 1], d[|d| - 1];
    var k := last as int - '0' as int;
    assert d == init + [last];
    DigitOf(last);
    Expansion.NumberStep(init, last);
    if init == "" {
      Expansion.NothingIsZero();
      Expansion.NumeralStep(0, k);
    } else {
      assert init[0] == d[0];
      CanonicalDigits(init);
      Expansion.NumeralStep(Preprocess.Number(init), k);
    }
  }

  lemma {:induction false} NumeralCanonical(n: nat)
    ensures var d := Expansion.Numeral(n); d != "" && (d[0] == '0' ==> n == 0 && |d| == 1)
  {
    if n >= 10 {
      NumeralCanonical(n / 10);
    }
  }

  /** Digits without leading zeros. */
  predicate ValidDigits(d: string) {
    d != "" && (forall c :: c in d ==> IsDigit(c)) && (d[0] == '0' ==> |d| == 1)
  }

  lemma DigitsAreNumerals(d: string)
    ensures ValidDigits(d) <==> exists n: nat :: d == Expansion.Numeral(n)
  {
    if ValidDigits(d) {
      SameDigits(d);
      CanonicalDigits(d);
    }
    if n: nat :| d == Expansion.Numeral(n) {
      NumeralCanonical(n);
      Expansion.NumeralDigits(n);
      SameDigits(d);
    }
  }

  lemma SameDigits(d: string)
    ensures Preprocess.AllDigits(d) <==> forall c :: c in d ==> IsDigit(c)
  {
    assert forall c :: IsDigit(c) <==> Preprocess.IsDigit(c);
  }

  /** The text of an int is valid if and only if it is a decimal numeral without leading zeros, with or
      without a minus sign. */
  lemma IntValidExactly(s: string)
    ensures StringValid(Int, s) <==>
      exists n: nat :: s == Expansion.Numeral(n) || (First(s, '-') && s[1..] == Expansion.Numeral(n))
  {
    var d := if First(s, '-') then s[1..] else s;
    assert StringValid(Int, s) <==> ValidDigits(d);
    DigitsAreNumerals(d);
    if n: nat :| s == Expansion.Numeral(n) {
      hide StringValid, ValidDigits;
      Expansion.NumeralDigits(n);
      assert Preprocess.IsDigit(s[0]);
    }
  }

  // ---- strings and lines ----

  /** Quotes and backslashes apart, a text is written as it is. */
  lemma {:induction false} OthersUnescaped(s: string)
    requires '"' !in s && '\\' !in s
    ensures EscapeBody(s) == s
  {
    if s != "" {
      OthersUnescaped(s[1..]);
      assert s == [s[0]] + s[1..];
    }
  }

  /** Lines may end in a carriage return and a newline as well as in a newline. */
  lemma LineEnds(line: string, rest: string)
    requires '\n' !in line
    ensures ReadLines(line + "\r\n" + rest) == [line] + ReadLines(rest)
    ensures (line == "" || line[|line| - 1] != '\r') ==> ReadLines(line + "\n" + rest) == [line] + ReadLines(rest)
  {
    CutAt(line + "\r", '\n', rest);
    assert line + "\r\n" + rest == (line + "\r") + ['\n'] + rest;
    assert (line + "\r")[..|line|] == line;
    CutAt(line, '\n', rest);
    assert line + "\n" + rest == line + ['\n'] + rest;
  }
}
