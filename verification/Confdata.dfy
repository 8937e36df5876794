/** The .config file: what is written for the symbols, and what reading it back stores. */
module Confdata {
  import opened Tristates
  import opened Expressions

  const CONFIG_PREFIX := "CONFIG_"
  const NUL := '\0'

  datatype Setting = Tri(tri: Tristate) | Text(text: string)

  // ---- string values ----

  predicate IsSpecial(c: char) {
    c == '"' || c == '\\'
  }

  function EscapeBody(s: string): string {
    if s == "" then ""
    else if IsSpecial(s[0]) then "\\" + [s[0]] + EscapeBody(s[1..])
    else [s[0]] + EscapeBody(s[1..])
  }

  /** `escape_string_value` */
  function Escape(s: string): string {
    "\"" + EscapeBody(s) + "\""
  }

  /** What the in-place loop makes of the text behind the opening quote: the text up to the closing
      one, without backslashes that protect a character. None if there is no closing quote. */
  function Unescape(s: string): Option<string> {
    if s == "" then None
    else if s[0] == '"' then Some("")
    else if s[0] != '\\' then PrependTo([s[0]], Unescape(s[1..]))
    else if |s| == 1 then None
    else PrependTo([s[1]], Unescape(s[2..]))
  }

  function PrependTo(before: string, r: Option<string>): Option<string> {
    if r.None? then None else Some(before + r.value)
  }

  /** Unescaping undoes escaping, whatever comes behind the closing quote. */
  lemma {:induction false} UnescapeEscape(s: string, rest: string)
    ensures Unescape(EscapeBody(s) + "\"" + rest) == Some(s)
  {
    var e := EscapeBody(s) + "\"" + rest;
    if s != "" {
      UnescapeEscape(s[1..], rest);
      assert [s[0]] + s[1..] == s;
      var tail := EscapeBody(s[1..]) + "\"" + rest;
      if IsSpecial(s[0]) {
        assert e[2..] == tail && e[1] == s[0] && e[0] == '\\';
      } else {
        assert e[1..] == tail && e[0] == s[0];
      }
    }
  }

  /** An escaped text has no closing quote of its own. */
  lemma {:induction false} EscapedUnclosed(s: string)
    ensures Unescape(EscapeBody(s)) == None
  {
    if s != "" {
      EscapedUnclosed(s[1..]);
      if IsSpecial(s[0]) {
        assert EscapeBody(s)[2..] == EscapeBody(s[1..]);
      } else {
        assert EscapeBody(s)[1..] == EscapeBody(s[1..]);
      }
    }
  }

  // ---- one line ----

  predicate IsDigit(c: char) {
    '0' <= c <= '9'
  }

  predicate IsHexDigit(c: char) {
    IsDigit(c) || 'a' <= c <= 'f' || 'A' <= c <= 'F'
  }

  /** `sym_string_valid` for the types whose values are texts. */
  predicate StringValid(typ: SymbolType, s: string) {
    match typ
    case Str => true
    case Int =>
      var d := if s != "" && s[0] == '-' then s[1..] else s;
      d != "" && (forall c :: c in d ==> IsDigit(c)) && (d[0] == '0' ==> |d| == 1)
    case Hex =>
      var d := if |s| >= 2 && s[0] == '0' && (s[1] == 'x' || s[1] == 'X') then s[2..] else s;
      d != "" && forall c :: c in d ==> IsHexDigit(c)
    case _ => false
  }

  /** A value that a symbol of this type can have. */
  predicate HasType(typ: SymbolType, v: Setting) {
    match typ
    case Boolean => v.Tri? && v.tri != MOD
    case TristateType => v.Tri?
    case Unknown => false
    case _ => v.Text? && StringValid(typ, v.text)
  }

  /** `sym_get_string_value` */
  function ValueText(v: Setting): string {
    match v
    case Text(text) => text
    case Tri(t) => if t == NO then "n" else if t == MOD then "m" else "y"
  }

  /** `print_symbol_for_dotconfig`, without the newline at the end. */
  function PrintSymbol(name: string, typ: SymbolType, v: Setting): string {
    if v == Tri(NO) then "# " + CONFIG_PREFIX + name + " is not set"
    else CONFIG_PREFIX + name + "=" + if typ == Str then Escape(ValueText(v)) else ValueText(v)
  }

  /** The text before and behind the first c. */
  function Cut(s: string, c: char): (r: Option<(string, string)>)
    ensures r.Some? ==> s == r.value.0 + [c] + r.value.1 && c !in r.value.0
    ensures r.None? ==> c !in s
  {
    if s == "" then None
    else if s[0] == c then Some(("", s[1..]))
    else
      var r := Cut(s[1..], c);
      if r.None? then None else Some(([s[0]] + r.value.0, r.value.1))
  }

  predicate StartsWith(s: string, prefix: string) {
    prefix <= s
  }

  predicate First(s: string, c: char) {
    s != "" && s[0] == c
  }

  /** The name and the text of the value that a line sets. */
  function ParseLine(line: string): Option<(string, string)> {
    if line == "" then None
    else if line[0] == '#' then
      if |line| < 2 || line[1] != ' ' || !StartsWith(line[2..], CONFIG_PREFIX) then None
      else
        var r := Cut(line[2..][|CONFIG_PREFIX|..], ' ');
        if r.None? || r.value.1 != "is not set" then None else Some((r.value.0, "n"))
    else if !StartsWith(line, CONFIG_PREFIX) then None
    else Cut(line[|CONFIG_PREFIX|..], '=')
  }

  /** `conf_set_sym_val` for user values: the value stored, if one is. */
  function ParseValue(typ: SymbolType, p: string): Option<Setting> {
    match typ
    case Boolean =>
      if First(p, 'y') then Some(Tri(YES)) else if First(p, 'n') then Some(Tri(NO)) else None
    case TristateType =>
      if First(p, 'm') then Some(Tri(MOD))
      else if First(p, 'y') then Some(Tri(YES))
      else if First(p, 'n') then Some(Tri(NO))
      else None
    case Str =>
      if !First(p, '"') then None
      else
        var u := Unescape(p[1..]);
        if u.None? then None else Some(Text(u.value))
    case Unknown => None
    case _ => if StringValid(typ, p) then Some(Text(p)) else None
  }

  /** Names of symbols, as the lexer forms them. */
  predicate NameOk(name: string) {
    forall c :: c in name ==> c != ' ' && c != '=' && c != '\n'
  }

  lemma {:induction false} CutAt(a: string, c: char, b: string)
    requires c !in a
    ensures Cut(a + [c] + b, c) == Some((a, b))
  {
    var s := a + [c] + b;
    if a == "" {
      assert s[1..] == b;
    } else {
      assert s[1..] == a[1..] + [c] + b && s[0] == a[0];
      CutAt(a[1..], c, b);
      assert [a[0]] + a[1..] == a;
    }
  }

  /** What is written behind the equals sign reads as the same value. */
  lemma ValueRoundTrip(typ: SymbolType, v: Setting)
    requires HasType(typ, v)
    ensures ParseValue(typ, if typ == Str then Escape(ValueText(v)) else ValueText(v)) == Some(v)
  {
    if typ == Str {
      assert Escape(v.text)[0] == '"' && Escape(v.text)[1..] == EscapeBody(v.text) + "\"" + "";
      UnescapeEscape(v.text, "");
    }
  }

  lemma ParseAssignment(name: string, val: string)
    requires NameOk(name)
    ensures ParseLine(CONFIG_PREFIX + name + "=" + val) == Some((name, val))
  {
    assert (CONFIG_PREFIX + name + "=" + val)[|CONFIG_PREFIX|..] == name + ['='] + val;
    CutAt(name, '=', val);
  }

  lemma ParseUnset(name: string)
    requires NameOk(name)
    ensures ParseLine("# " + CONFIG_PREFIX + name + " is not set") == Some((name, "n"))
  {
    var line := "# " + CONFIG_PREFIX + name + " is not set";
    assert line[2..] == CONFIG_PREFIX + name + " is not set";
    assert line[2..][|CONFIG_PREFIX|..] == name + [' '] + "is not set";
    CutAt(name, ' ', "is not set");
  }

  /** Reading a printed line gives back the name and, for the type, the value. */
  lemma LineRoundTrip(name: string, typ: SymbolType, v: Setting)
    requires NameOk(name) && HasType(typ, v)
    ensures var r := ParseLine(PrintSymbol(name, typ, v));
      r.Some? && r.value.0 == name && ParseValue(typ, r.value.1) == Some(v)
  {
    hide ParseLine, ParseValue, Escape, HasType;
    ValueRoundTrip(typ, v);
    if v == Tri(NO) {
      NotStr(typ, v);
      ParseUnset(name);
    } else {
      ParseAssignment(name, if typ == Str then Escape(ValueText(v)) else ValueText(v));
    }
  }

  lemma NotStr(typ: SymbolType, v: Setting)
    requires HasType(typ, v) && v.Tri?
    ensures typ != Str
  {
  }

  // ---- the whole file ----

  /** What is written: settings, headings, and lines that are blank or a bare #. */
  datatype Item = Entry(name: string, typ: SymbolType, v: Setting) | Heading(text: string) | Hash | Blank

  function ItemLine(i: Item): string {
    match i
    case Entry(name, typ, v) => PrintSymbol(name, typ, v)
    case Heading(text) => "# " + text
    case Hash => "#"
    case Blank => ""
  }

  function WriteFile(items: seq<Item>): string {
    if items == [] then "" else ItemLine(items[0]) + "\n" + WriteFile(items[1..])
  }

  /** `getline_stripped`: the lines, without the newline and a carriage return before it. */
  function ReadLines(file: string): seq<string>
    decreases |file|
  {
    if file == "" then []
    else
      var c := Cut(file, '\n');
      if c.None? then [file] else [StripReturn(c.value.0)] + ReadLines(c.value.1)
  }

  function StripReturn(line: string): string {
    if line != "" && line[|line| - 1] == '\r' then line[..|line| - 1] else line
  }

  type Settings = map<string, Setting>

  /** One line of the file: `known` gives the type of every symbol. */
  function ReadLine(known: map<string, SymbolType>, line: string, m: Settings): Settings {
    var r := ParseLine(line);
    if r.None? || r.value.0 !in known then m
    else
      var v := ParseValue(known[r.value.0], r.value.1);
      if v.None? then m else m[r.value.0 := v.value]
  }

  /** `conf_read_simple` for user values. */
  function ReadAll(known: map<string, SymbolType>, lines: seq<string>, m: Settings): Settings {
    if lines == [] then m else ReadAll(known, lines[1..], ReadLine(known, lines[0], m))
  }

  /** The symbol that a heading unsets, because its line reads as `# CONFIG_... is not set`. */
  function HeadingUnsets(known: map<string, SymbolType>, text: string): Option<string> {
    var r := ParseLine(StripReturn("# " + text));
    if r.Some? && r.value.0 in known && (known[r.value.0] == Boolean || known[r.value.0] == TristateType)
    then Some(r.value.0) else None
  }

  /** The name and the value that a written line is to set. */
  function Sets(known: map<string, SymbolType>, i: Item): Option<(string, Setting)> {
    match i
    case Entry(name, _, v) => Some((name, v))
    case Heading(text) =>
      var r := HeadingUnsets(known, text);
      if r.Some? then Some((r.value, Tri(NO))) else None
    case _ => None
  }

  function Store(known: map<string, SymbolType>, i: Item, m: Settings): Settings {
    var r := Sets(known, i);
    if r.Some? then m[r.value.0 := r.value.1] else m
  }

  /** The settings of the items, later ones winning. */
  function Entries(known: map<string, SymbolType>, items: seq<Item>, m: Settings): Settings {
    if items == [] then m else Entries(known, items[1..], Store(known, items[0], m))
  }

  /** A string value has no newline, and a heading has none. */
  predicate ItemOk(known: map<string, SymbolType>, i: Item) {
    match i
    case Entry(name, typ, v) =>
      && name in known && known[name] == typ && NameOk(name) && HasType(typ, v)
      && (v.Text? ==> '\n' !in v.text)
    case Heading(text) => '\n' !in text
    case _ => true
  }

  lemma {:induction false} EscapeNoNewline(s: string)
    ensures '\n' in EscapeBody(s) <==> '\n' in s
  {
    if s != "" {
      EscapeNoNewline(s[1..]);
      assert s == [s[0]] + s[1..];
    }
  }

  lemma ItemLineIsOneLine(known: map<string, SymbolType>, i: Item)
    requires ItemOk(known, i)
    ensures '\n' !in ItemLine(i)
  {
    match i
    case Entry(name, typ, v) =>
      if typ == Str {
        EscapeNoNewline(v.text);
      }
    case _ =>
  }

  lemma NumberEndsInDigit(typ: SymbolType, s: string)
    requires (typ == Int || typ == Hex) && StringValid(typ, s)
    ensures s != "" && IsHexDigit(s[|s| - 1])
  {
    var skip := if typ == Int then (if s != "" && s[0] == '-' then 1 else 0)
                else if |s| >= 2 && s[0] == '0' && (s[1] == 'x' || s[1] == 'X') then 2 else 0;
    var d := s[skip..];
    assert d[|d| - 1] in d && d[|d| - 1] == s[|s| - 1];
  }

  /** Nothing that is written for a setting ends in a carriage return. */
  lemma EntryNoReturn(known: map<string, SymbolType>, i: Item)
    requires ItemOk(known, i) && i.Entry?
    ensures StripReturn(ItemLine(i)) == ItemLine(i)
  {
    var line := ItemLine(i);
    if i.typ == Int || i.typ == Hex {
      var text := i.v.text;
      NumberEndsInDigit(i.typ, text);
      assert line[|line| - 1] == text[|text| - 1];
    }
  }

  lemma ReadItem(known: map<string, SymbolType>, i: Item, m: Settings)
    requires ItemOk(known, i)
    ensures ReadLine(known, StripReturn(ItemLine(i)), m) == Store(known, i, m)
  {
    match i
    case Entry(name, typ, v) =>
      EntryNoReturn(known, i);
      LineRoundTrip(name, typ, v);
    case Heading(text) =>
      HeadingValue(StripReturn("# " + text));
    case _ =>
  }

  /** A comment line can only set n, which is no value of a string or number. */
  lemma HeadingValue(line: string)
    requires First(line, '#')
    ensures ParseLine(line).Some? ==> ParseLine(line).value.1 == "n"
    ensures ParseValue(Str, "n").None? && ParseValue(Int, "n").None? && ParseValue(Hex, "n").None?
  {
    var n := "n";
    assert n[0] == 'n' && n[0] in n && !IsDigit(n[0]) && !IsHexDigit(n[0]);
  }

  /** Reading back what was written stores for every symbol the setting it had, and nothing else but
      what headings in the form of an unset symbol say. */
  lemma {:induction false} FileRoundTrip(known: map<string, SymbolType>, items: seq<Item>, m: Settings)
    requires forall i :: i in items ==> ItemOk(known, i)
    ensures ReadAll(known, ReadLines(WriteFile(items)), m) == Entries(known, items, m)
  {
    if items != [] {
      var line, rest := ItemLine(items[0]), WriteFile(items[1..]);
      ItemLineIsOneLine(known, items[0]);
      CutAt(line, '\n', rest);
      assert WriteFile(items) == line + ['\n'] + rest;
      var lines := ReadLines(WriteFile(items));
      assert lines[0] == StripReturn(line) && lines[1..] == ReadLines(rest);
      ReadItem(known, items[0], m);
      FileRoundTrip(known, items[1..], Store(known, items[0], m));
    }
  }

  predicate NamesDistinct(items: seq<Item>) {
    forall i, j :: 0 <= i < j < |items| && items[i].Entry? && items[j].Entry? ==> items[i].name != items[j].name
  }

  /** A heading among the items unsets the symbol. */
  predicate SomeUnsets(known: map<string, SymbolType>, items: seq<Item>, name: string) {
    exists i :: i in items && i.Heading? && HeadingUnsets(known, i.text) == Some(name)
  }

  /** Without an entry for it, a symbol keeps its setting or is unset. */
  lemma {:induction false} EntriesKeep(known: map<string, SymbolType>, items: seq<Item>, m: Settings, name: string)
    requires forall i :: i in items && i.Entry? ==> i.name != name
    ensures var r := Entries(known, items, m);
      if SomeUnsets(known, items, name) then name in r && r[name] == Tri(NO)
      else (name in r <==> name in m) && (name in m ==> r[name] == m[name])
  {
    if items != [] {
      EntriesKeep(known, items[1..], Store(known, items[0], m), name);
      assert forall i :: i in items <==> i == items[0] || i in items[1..];
    }
  }

  /** With one entry for each symbol, its setting is restored, if and only if it is n or no heading
      behind it has the form of a line that unsets it. */
  lemma EverySettingRestored(known: map<string, SymbolType>, items: seq<Item>, k: nat, m: Settings)
    requires forall i :: i in items ==> ItemOk(known, i)
    requires NamesDistinct(items) && k < |items| && items[k].Entry?
    ensures var r := ReadAll(known, ReadLines(WriteFile(items)), m);
      && items[k].name in r
      && (r[items[k].name] == items[k].v <==>
            items[k].v == Tri(NO) || !SomeUnsets(known, items[k + 1..], items[k].name))
  {
    FileRoundTrip(known, items, m);
    EntryStored(known, items, k, m);
  }

  lemma {:induction false} EntryStored(known: map<string, SymbolType>, items: seq<Item>, k: nat, m: Settings)
    requires NamesDistinct(items) && k < |items| && items[k].Entry?
    ensures var r, unset := Entries(known, items, m), SomeUnsets(known, items[k + 1..], items[k].name);
      items[k].name in r && r[items[k].name] == if unset then Tri(NO) else items[k].v
  {
    var m1 := Store(known, items[0], m);
    if k == 0 {
      EntriesKeep(known, items[1..], m1, items[0].name);
    } else {
      assert items[1..][k..] == items[k + 1..];
      EntryStored(known, items[1..], k - 1, m1);
    }
  }

  lemma HeadingOfUnset(known: map<string, SymbolType>, name: string)
    requires NameOk(name) && name in known && (known[name] == Boolean || known[name] == TristateType)
    ensures HeadingUnsets(known, CONFIG_PREFIX + name + " is not set") == Some(name)
  {
    hide ParseLine;
    var line := "# " + CONFIG_PREFIX + name + " is not set";
    assert "# " + (CONFIG_PREFIX + name + " is not set") == line;
    assert line[|line| - 1] == 't';
    ParseUnset(name);
  }

  /** So does every boolean or tristate that is not n lose its setting to an entry behind it with the
      title `CONFIG_<name> is not set`. */
  lemma HeadingLosesSetting(known: map<string, SymbolType>, name: string, v: Tristate, m: Settings)
    requires NameOk(name) && name in known && HasType(known[name], Tri(v)) && v != NO
    ensures var items := [Entry(name, known[name], Tri(v)), Heading(CONFIG_PREFIX + name + " is not set")];
      var r := ReadAll(known, ReadLines(WriteFile(items)), m);
      name in r && r[name] == Tri(NO)
  {
    hide WriteFile, ReadLines, ReadAll, HeadingUnsets;
    var heading := Heading(CONFIG_PREFIX + name + " is not set");
    var items := [Entry(name, known[name], Tri(v)), heading];
    HeadingOfUnset(known, name);
    FileRoundTrip(known, items, m);
    assert items[1..] == [heading] && heading in items[1..];
    assert SomeUnsets(known, items[1..], name);
    EntryStored(known, items, 0, m);
  }

  // ---- exactly which string values survive ----

  /** A quote at i would have a backslash before it. */
  predicate Protected(s: string, i: nat)
    requires i < |s|
  {
    s[i] == '"' ==> i > 0 && s[i - 1] == '\\'
  }

  /** Every quote is protected by a backslash, except perhaps at the end of the line. */
  predicate LineProtected(s: string) {
    forall i :: 0 <= i < |s| - 1 ==> Protected(s, i)
  }

  predicate QuotesProtected(s: string) {
    forall i :: 0 <= i < |s| - 1 ==> Protected(s, i) || s[i + 1] == '\n'
  }

  lemma {:induction false} EscapeProtects(s: string)
    ensures forall i :: 0 <= i < |EscapeBody(s)| ==> Protected(EscapeBody(s), i)
  {
    if s != "" {
      EscapeProtects(s[1..]);
      var e, tail := EscapeBody(s), EscapeBody(s[1..]);
      var n := |e| - |tail|;
      forall i | 0 <= i < |e|
        ensures Protected(e, i)
      {
        if i >= n {
          assert Protected(tail, i - n);
        }
      }
    }
  }

  /** A line of this kind stores no string. */
  lemma ProtectedLineStoresNoString(known: map<string, SymbolType>, line: string, m: Settings, name: string)
    requires LineProtected(line)
    requires name in known && known[name] == Str && name !in m
    ensures name !in ReadLine(known, line, m)
  {
    var r := ParseLine(line);
    if r.Some? && r.value.0 == name && First(r.value.1, '"') {
      var p := r.value.1;
      assert line == CONFIG_PREFIX + name + ['='] + p;
      var i := |CONFIG_PREFIX| + |name| + 1;
      assert line[i] == '"' && line[i - 1] == '=';
      assert !Protected(line, i);
      assert p[1..] == "";
    }
  }

  lemma LinesProtected(line: string, rest: string)
    requires QuotesProtected(line + ['\n'] + rest) && '\n' !in line
    ensures LineProtected(StripReturn(line)) && QuotesProtected(rest)
  {
    var file := line + ['\n'] + rest;
    forall i | 0 <= i < |StripReturn(line)| - 1
      ensures Protected(StripReturn(line), i)
    {
      var c := line[i + 1];
      assert c in line;
      assert c == file[i + 1];
      assert Protected(file, i) || c == '\n';
    }
    forall i | 0 <= i < |rest| - 1
      ensures Protected(rest, i) || rest[i + 1] == '\n'
    {
      var j := |line| + 1 + i;
      assert Protected(file, j) || file[j + 1] == '\n';
      assert file[j] == rest[i] && file[j + 1] == rest[i + 1];
      assert file[j - 1] == if i == 0 then '\n' else rest[i - 1];
    }
  }

  lemma {:induction false} ProtectedStoresNoString(known: map<string, SymbolType>, file: string, m: Settings, name: string)
    requires QuotesProtected(file)
    requires name in known && known[name] == Str && name !in m
    ensures name !in ReadAll(known, ReadLines(file), m)
    decreases |file|
  {
    if file != "" {
      var c := Cut(file, '\n');
      if c.None? {
        assert LineProtected(file) by {
          forall i | 0 <= i < |file| - 1
            ensures Protected(file, i)
          {
            assert file[i + 1] in file;
          }
        }
        ProtectedLineStoresNoString(known, file, m, name);
      } else {
        var (line, rest) := c.value;
        LinesProtected(line, rest);
        ProtectedLineStoresNoString(known, StripReturn(line), m, name);
        ProtectedStoresNoString(known, rest, ReadLine(known, StripReturn(line), m), name);
      }
    }
  }

  lemma {:induction false} EscapeConcat(a: string, b: string)
    ensures EscapeBody(a + b) == EscapeBody(a) + EscapeBody(b)
  {
    if a == "" {
      assert a + b == b;
    } else {
      EscapeConcat(a[1..], b);
      assert (a + b)[1..] == a[1..] + b && (a + b)[0] == a[0];
      var x, y := EscapeBody(a[1..]), EscapeBody(b);
      assert [a[0]] + (x + y) == [a[0]] + x + y;
      assert "\\" + [a[0]] + (x + y) == "\\" + [a[0]] + x + y;
    }
  }

  lemma RestProtected(b: string)
    ensures QuotesProtected(EscapeBody(b) + "\"" + "\n")
  {
    EscapeProtects(b);
    var e, file := EscapeBody(b), EscapeBody(b) + "\"" + "\n";
    forall i | 0 <= i < |file| - 1
      ensures Protected(file, i) || file[i + 1] == '\n'
    {
      if i < |e| {
        assert Protected(e, i);
      }
    }
  }

  lemma {:induction false} EscapeReturn(a: string)
    ensures StripReturn("\"" + EscapeBody(a)) == "\"" + EscapeBody(StripReturn(a))
  {
    if a != "" {
      var init, last := a[..|a| - 1], a[|a| - 1];
      assert a == init + [last];
      EscapeConcat(init, [last]);
      assert EscapeBody([last]) == if IsSpecial(last) then "\\" + [last] + "" else [last] + "";
    }
  }

  lemma StripReturnBehind(pre: string, tail: string)
    requires tail != ""
    ensures StripReturn(pre + tail) == pre + StripReturn(tail)
  {
  }

  /** The part of a string before a newline reads as a string without its closing quote. */
  lemma FirstLineStoresNothing(known: map<string, SymbolType>, name: string, a: string)
    requires NameOk(name) && name in known && known[name] == Str
    ensures ReadLine(known, StripReturn(CONFIG_PREFIX + name + "=" + ("\"" + EscapeBody(a))), map[]) == map[]
  {
    hide ParseLine, EscapeBody, Unescape, StripReturn;
    var tail := "\"" + EscapeBody(StripReturn(a));
    EscapeReturn(a);
    StripReturnBehind(CONFIG_PREFIX + name + "=", "\"" + EscapeBody(a));
    ParseAssignment(name, tail);
    assert tail[1..] == EscapeBody(StripReturn(a));
    EscapedUnclosed(StripReturn(a));
  }

  /** A string value is read back exactly when it contains no newline; otherwise the symbol ends up
      with no value at all. */
  lemma StringSurvivesExactly(known: map<string, SymbolType>, name: string, text: string)
    requires NameOk(name) && name in known && known[name] == Str
    ensures var r := ReadAll(known, ReadLines(PrintSymbol(name, Str, Text(text)) + "\n"), map[]);
      if '\n' in text then name !in r else r == map[name := Text(text)]
  {
    if '\n' in text {
      NewlineLosesString(known, name, text);
    } else {
      var item := Entry(name, Str, Text(text));
      assert [item][1..] == [];
      assert WriteFile([item]) == ItemLine(item) + "\n";
      FileRoundTrip(known, [item], map[]);
    }
  }

  lemma PrintedWithNewline(name: string, a: string, b: string)
    ensures PrintSymbol(name, Str, Text(a + ['\n'] + b)) + "\n" ==
      (CONFIG_PREFIX + name + "=" + ("\"" + EscapeBody(a))) + ['\n'] + (EscapeBody(b) + "\"" + "\n")
  {
    EscapeConcat(a + ['\n'], b);
    EscapeConcat(a, ['\n']);
    assert EscapeBody(['\n']) == ['\n'] + "";
  }

  lemma NewlineLosesString(known: map<string, SymbolType>, name: string, text: string)
    requires NameOk(name) && name in known && known[name] == Str && '\n' in text
    ensures name !in ReadAll(known, ReadLines(PrintSymbol(name, Str, Text(text)) + "\n"), map[])
  {
    hide EscapeBody, PrintSymbol, ReadLine, NameOk, QuotesProtected;
    var (a, b) := Cut(text, '\n').value;
    PrintedWithNewline(name, a, b);
    var first := CONFIG_PREFIX + name + "=" + ("\"" + EscapeBody(a));
    var rest := EscapeBody(b) + "\"" + "\n";
    NoNewlineBefore(name, a);
    CutAt(first, '\n', rest);
    FirstLineStoresNothing(known, name, a);
    RestProtected(b);
    ProtectedStoresNoString(known, rest, map[], name);
    assert ReadLines(first + ['\n'] + rest) == [StripReturn(first)] + ReadLines(rest);
  }

  lemma NoNewlineBefore(name: string, a: string)
    requires NameOk(name) && '\n' !in a
    ensures '\n' !in CONFIG_PREFIX + name + "=" + ("\"" + EscapeBody(a))
  {
    EscapeNoNewline(a);
  }

  // ---- the string functions as they work on buffers ----

  /** The characters of s stand in the buffer, none of them NUL. */
  ghost predicate TextAt(buf: array<char>, at: nat, s: string)
    reads buf
  {
    at + |s| <= buf.Length && forall i :: 0 <= i < |s| ==> buf[at + i] == s[i] && s[i] != NUL
  }

  ghost predicate CStringAt(buf: array<char>, at: nat, s: string)
    reads buf
  {
    TextAt(buf, at, s) && at + |s| < buf.Length && buf[at + |s|] == NUL
  }

  lemma EscapeSnoc(s: string, i: nat)
    requires i < |s|
    ensures EscapeBody(s[..i + 1]) == EscapeBody(s[..i]) + if IsSpecial(s[i]) then "\\" + [s[i]] else [s[i]]
    ensures |EscapeBody(s[..i + 1])| <= |EscapeBody(s)|
  {
    assert s[..i + 1] == s[..i] + [s[i]] && s == s[..i + 1] + s[i + 1..];
    EscapeConcat(s[..i], [s[i]]);
    EscapeConcat(s[..i + 1], s[i + 1..]);
    assert EscapeBody([s[i]]) == (if IsSpecial(s[i]) then "\\" + [s[i]] else [s[i]]) + "";
  }

  /** `escape_string_value`: the length computed in the first loop is what the second one fills. */
  method EscapeStringValue(s: string) returns (out: array<char>)
    ensures fresh(out) && out[..] == Escape(s) + [NUL]
  {
    var len := |s| + 3;
    for i := 0 to |s|
      invariant len == |s| - i + |EscapeBody(s[..i])| + 3
    {
      EscapeSnoc(s, i);
      if IsSpecial(s[i]) {
        len := len + 1;
      }
    }
    assert s[..|s|] == s;
    out := new char[len];
    out[0] := '"';
    var n := 1;
    for i := 0 to |s|
      invariant n == 1 + |EscapeBody(s[..i])| <= out.Length - 2
      invariant out[..n] == "\"" + EscapeBody(s[..i])
    {
      EscapeSnoc(s, i);
      if IsSpecial(s[i]) {
        out[n] := '\\';
        n := n + 1;
      }
      out[n] := s[i];
      n := n + 1;
    }
    out[n] := '"';
    out[n + 1] := NUL;
  }

  method StrLen(buf: array<char>, at: nat, ghost s: string) returns (n: nat)
    requires CStringAt(buf, at, s)
    ensures n == |s|
  {
    n := 0;
    while buf[at + n] != NUL
      invariant n <= |s| && (n < |s| ==> buf[at + n] == s[n] && s[n] != NUL)
      decreases |s| - n
    {
      n := n + 1;
    }
  }

  /** The loop of `conf_set_sym_val` that removes the backslashes of the string s at `start`, moving
      the rest of the text up each time, and ends the string at its closing quote. */
  method UnescapeInPlace(buf: array<char>, start: nat, ghost s: string) returns (ok: bool)
    requires CStringAt(buf, start, s)
    modifies buf
    ensures ok == Unescape(s).Some?
    ensures ok ==> CStringAt(buf, start, Unescape(s).value)
  {
    var p := start;
    ghost var done, todo, stepped := "", s, false;
    PrependTwice("", "", Unescape(s));
    while true
      invariant start <= p < buf.Length
      invariant stepped ==> buf[p] == NUL && Unescape(s).None?
      invariant !stepped ==> p == start + |done| && TextAt(buf, start, done) && CStringAt(buf, p, todo)
      invariant !stepped ==> Unescape(s) == PrependTo(done, Unescape(todo))
      decreases if stepped then 0 else 1 + |todo|
    {
      if buf[p] == NUL {
        return false;
      }
      if buf[p] == '"' {
        buf[p] := NUL;
        assert done + "" == done;
        return true;
      }
      if buf[p] == '\\' {
        var len := StrLen(buf, p, todo);
        MoveUp(buf, p, len, todo);
        todo := todo[1..];
      }
      if todo == "" {
        stepped := true;  // a backslash was the last character: p now passes the end of the string
      } else {
        PrependTwice(done, [todo[0]], Unescape(todo[1..]));
        done, todo := done + [todo[0]], todo[1..];
      }
      p := p + 1;
    }
  }

  lemma PrependTwice(a: string, b: string, r: Option<string>)
    ensures PrependTo(a, PrependTo(b, r)) == PrependTo(a + b, r)
    ensures PrependTo("", r) == r
  {
    if r.Some? {
      assert a + (b + r.value) == a + b + r.value && "" + r.value == r.value;
    }
  }

  /** `memmove(p, p + 1, strlen(p))` */
  method MoveUp(buf: array<char>, p: nat, len: nat, ghost s: string)
    requires s != "" && len == |s| && CStringAt(buf, p, s)
    modifies buf
    ensures CStringAt(buf, p, s[1..]) && buf[p + len] == NUL
    ensures forall i :: 0 <= i < p ==> buf[i] == old(buf[i])
  {
    forall i | p <= i < p + len {
      buf[i] := buf[i + 1];
    }
  }

  /** The reading loop of `conf_read_simple`, which first forgets all user values. */
  method ReadSimple(known: map<string, SymbolType>, lines: seq<string>) returns (m: Settings)
    ensures m == ReadAll(known, lines, map[])
  {
    m := map[];
    var i := 0;
    while i < |lines|
      invariant 0 <= i <= |lines|
      invariant ReadAll(known, lines, map[]) == ReadAll(known, lines[i..], m)
    {
      var line := lines[i];
      assert lines[i..][1..] == lines[i + 1..];
      i := i + 1;
      var r := ParseLine(line);
      if r.None? {
        continue;
      }
      var (name, text) := r.value;
      if name !in known {
        continue;
      }
      var v := ParseValue(known[name], text);
      if v.Some? {
        m := m[name := v.value];
      }
    }
  }
}
