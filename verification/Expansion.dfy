/** What macro expansion yields: the laws that texts, arguments, variables and calls obey. */
module Expansion {
  import opened Expressions
  import opened Preprocess

  // ---- plain text ----

  lemma OneChar(ctx: Context, counts: seq<nat>, s: string, args: seq<string>)
    requires |counts| == |ctx.vars| && s != "" && s[0] != '$'
    ensures ExpandText(ctx, counts, false, s, args) == Prepend([s[0]], ExpandText(ctx, counts, false, s[1..], args))
  {
    hide ExpandDollar;
  }

  lemma OneDollar(ctx: Context, counts: seq<nat>, s: string, args: seq<string>)
    requires |counts| == |ctx.vars| && s != "" && s[0] == '$'
    ensures var d := ExpandDollar(ctx, counts, s[1..], args);
      ExpandText(ctx, counts, false, s, args) ==
        if d.None? then None else Prepend(d.value.text, ExpandText(ctx, counts, false, d.value.rest, args))
  {
    hide ExpandDollar;
  }

  lemma NoText(ctx: Context, counts: seq<nat>, args: seq<string>)
    requires |counts| == |ctx.vars|
    ensures ExpandText(ctx, counts, false, "", args) == Some(Expansion("", ""))
  {
  }

  predicate NoDollar(s: string) {
    forall i :: 0 <= i < |s| ==> s[i] != '$'
  }

  /** A text without a dollar sign stands for itself. */
  lemma {:induction false} PlainText(ctx: Context, counts: seq<nat>, s: string, args: seq<string>)
    requires |counts| == |ctx.vars| && forall i :: 0 <= i < |s| ==> s[i] != '$'
    ensures ExpandText(ctx, counts, false, s, args) == Some(Expansion(s, ""))
    decreases |s|
  {
    hide ExpandText;
    if s == "" {
      NoText(ctx, counts, args);
    } else {
      OneChar(ctx, counts, s, args);
      PlainText(ctx, counts, s[1..], args);
      assert s == [s[0]] + s[1..];
    }
  }

  /** The text before a reference stays in front of what the rest expands to. */
  lemma {:induction false} TextBefore(ctx: Context, counts: seq<nat>, s: string, n: nat, args: seq<string>)
    requires |counts| == |ctx.vars| && n <= |s| && NoDollar(s[..n])
    ensures ExpandText(ctx, counts, false, s, args) == Prepend(s[..n], ExpandText(ctx, counts, false, s[n..], args))
    decreases n
  {
    hide ExpandText;
    if n == 0 {
      assert s[..0] == "" && s[0..] == s;
      PrependNothing(ExpandText(ctx, counts, false, s, args));
    } else {
      assert s[..n][0] == s[0] && s[1..][..n - 1] == s[..n][1..] && s[1..][n - 1..] == s[n..];
      OneChar(ctx, counts, s, args);
      TextBefore(ctx, counts, s[1..], n - 1, args);
      assert [s[0]] + s[1..][..n - 1] == s[..n];
      PrependTwice([s[0]], s[1..][..n - 1], ExpandText(ctx, counts, false, s[n..], args));
    }
  }

  lemma PrependNothing(r: Option<Expansion>)
    ensures Prepend("", r) == r
  {
    if r.Some? {
      assert "" + r.value.text == r.value.text;
    }
  }

  lemma {:induction false} CloseParenBefore(a: string, b: string, nest: nat)
    requires CloseParen(a, nest).Some?
    ensures CloseParen(a + b, nest) == CloseParen(a, nest)
  {
    if a != "" {
      assert (a + b)[0] == a[0] && (a + b)[1..] == a[1..] + b;
      if !(a[0] == ')' && nest == 0) {
        CloseParenBefore(a[1..], b, nest + Nest(a[0]));
      }
    }
  }

  /** s begins with a reference; its clause is n characters long. */
  predicate IsReference(s: string, n: nat) {
    |s| >= n + 3 && s[0] == '$' && s[1] == '(' && CloseParen(s[2..], 0) == Some(n)
  }

  /** A reference is replaced by the value of its clause, and expansion goes on behind it. */
  lemma Reference(ctx: Context, counts: seq<nat>, s: string, clause: string, rest: string, args: seq<string>)
    requires |counts| == |ctx.vars|
    requires IsReference(s, |clause|) && s[2..|clause| + 2] == clause && s[|clause| + 3..] == rest
    ensures ExpandText(ctx, counts, false, s, args) ==
      var v := EvalClause(ctx, counts, clause, args);
      if v.None? then None else Prepend(v.value, ExpandText(ctx, counts, false, rest, args))
  {
    hide ExpandText, ExpandDollar, EvalClause;
    assert s[1..][1..] == s[2..];
    OneDollar(ctx, counts, s, args);
    ClauseOfDollar(ctx, counts, s[1..], clause, rest, args);
  }

  /** A clause in parentheses, behind a dollar sign and before the rest. */
  function Referring(clause: string, rest: string): (s: string)
    ensures |s| == |clause| + |rest| + 3 && s[0] == '$' && s[1] == '('
    ensures s[2..] == (clause + ")") + rest
  {
    ['$', '('] + ((clause + ")") + rest)
  }

  lemma ReferenceText(clause: string, rest: string)
    requires CloseParen(clause + ")", 0) == Some(|clause|)
    ensures var s, n := Referring(clause, rest), |clause|;
      IsReference(s, n) && s[2..n + 2] == clause && s[n + 3..] == rest
  {
    hide CloseParen, Referring;
    var s, n, t := Referring(clause, rest), |clause|, (clause + ")") + rest;
    CloseParenBefore(clause + ")", rest, 0);
    assert s[2..] == t && t[..n] == clause && t[n + 1..] == rest;
    assert s[2..n + 2] == t[..n] && s[n + 3..] == t[n + 1..];
  }

  lemma ClauseOfDollar(ctx: Context, counts: seq<nat>, s: string, clause: string, rest: string, args: seq<string>)
    requires |counts| == |ctx.vars| && s != "" && s[0] == '(' && CloseParen(s[1..], 0) == Some(|clause|)
    requires |clause| < |s| - 1 && s[1..][..|clause|] == clause && s[1..][|clause| + 1..] == rest
    ensures ExpandDollar(ctx, counts, s, args) ==
      var v := EvalClause(ctx, counts, clause, args);
      if v.None? then None else Some(Expansion(v.value, rest))
  {
    hide EvalClause;
  }

  /** A dollar sign that begins no reference stands for itself. */
  lemma LoneDollar(ctx: Context, counts: seq<nat>, s: string, args: seq<string>)
    requires |counts| == |ctx.vars| && (s == "" || s[0] != '(')
    ensures ExpandText(ctx, counts, false, "$" + s, args) == Prepend("$", ExpandText(ctx, counts, false, s, args))
  {
    hide ExpandText;
    assert ("$" + s)[1..] == s;
    OneDollar(ctx, counts, "$" + s, args);
  }

  // ---- arguments ----

  function Digit(k: nat): (c: char)
    requires k < 10
    ensures IsDigit(c) && c as int - '0' as int == k
  {
    ('0' as int + k) as char
  }

  function Numeral(n: nat): (s: string)
    ensures s != ""
  {
    (if n < 10 then "" else Numeral(n / 10)) + [Digit(n % 10)]
  }

  /** A numeral with one more digit. */
  lemma NumeralStep(m: nat, k: nat)
    requires k < 10
    ensures Numeral(10 * m + k) == (if m == 0 then "" else Numeral(m)) + [Digit(k)]
  {
    var n := 10 * m + k;
    assert n / 10 == m && n % 10 == k;
  }

  lemma NumberStep(s: string, c: char)
    requires AllDigits(s) && IsDigit(c)
    ensures AllDigits(s + [c]) && Number(s + [c]) == 10 * Number(s) + (c as int - '0' as int)
  {
    assert (s + [c])[..|s|] == s && (s + [c])[|s|] == c;
  }

  lemma {:induction false} NumeralDigits(n: nat)
    ensures AllDigits(Numeral(n)) && Number(Numeral(n)) == n
  {
    hide Number, Digit;
    var m, k := n / 10, n % 10;
    if m == 0 {
      NothingIsZero();
      NumberStep("", Digit(k));
      assert Numeral(n) == "" + [Digit(k)];
    } else {
      NumeralDigits(m);
      NumberStep(Numeral(m), Digit(k));
    }
  }

  lemma NothingIsZero()
    ensures AllDigits("") && Number("") == 0
  {
  }

  /** A decimal numeral is read as its number. */
  lemma ParseNumeral(n: nat)
    requires n <= ULONG_MAX
    ensures ParseIndex(Numeral(n)) == n
  {
    NumeralDigits(n);
    assert IsDigit(Numeral(n)[0]);
  }

  /** A clause that reads as the number of an argument has that argument as its value. */
  lemma ArgumentValue(ctx: Context, counts: seq<nat>, s: string, args: seq<string>, i: nat)
    requires |counts| == |ctx.vars| && i < |args| && ParseIndex(s) == i + 1
    ensures EvalClause(ctx, counts, s, args) == Some(args[i])
  {
  }

  lemma {:induction false} NoParens(s: string, nest: nat)
    requires '(' !in s && ')' !in s
    ensures CloseParen(s + ")", nest) == if nest == 0 then Some(|s|) else None
  {
    if s == "" {
      assert s + ")" == ")" && ")"[1..] == "";
    } else {
      assert (s + ")")[0] == s[0] && (s + ")")[1..] == s[1..] + ")";
      NoParens(s[1..], nest);
    }
  }

  /** `$(1)` is the first argument, `$(2)` the second one, and so on. */
  lemma ArgumentReference(ctx: Context, counts: seq<nat>, s: string, i: nat, rest: string, args: seq<string>)
    requires |counts| == |ctx.vars| && i < |args| && i < ULONG_MAX
    requires s == Referring(Numeral(i + 1), rest)
    ensures ExpandText(ctx, counts, false, s, args) == Prepend(args[i], ExpandText(ctx, counts, false, rest, args))
  {
    hide ExpandText, EvalClause;
    ParseNumeral(i + 1);
    NumeralDigits(i + 1);
    NoParens(Numeral(i + 1), 0);
    ArgumentValue(ctx, counts, Numeral(i + 1), args, i);
    ReferenceText(Numeral(i + 1), rest);
    Reference(ctx, counts, s, Numeral(i + 1), rest, args);
  }

  // ---- variables and calls ----

  /** Characters that cut, nest or expand. */
  predicate IsPlain(s: string) {
    '$' !in s && ',' !in s && '(' !in s && ')' !in s
  }

  lemma SplitChar(s: string)
    requires s != "" && s[0] != ',' && s[0] != '(' && s[0] != ')'
    ensures Split(s, 0) == [[s[0]] + Split(s[1..], 0)[0]] + Split(s[1..], 0)[1..]
  {
  }

  lemma SplitComma(s: string)
    requires s != "" && s[0] == ','
    ensures Split(s, 0) == [""] + Split(s[1..], 0)
  {
  }

  lemma {:induction false} PlainUncut(s: string)
    requires IsPlain(s)
    ensures Split(s, 0) == [s]
    decreases |s|
  {
    if s != "" {
      hide Split;
      SplitChar(s);
      PlainUncut(s[1..]);
      assert s == [s[0]] + s[1..];
    }
  }

  lemma {:induction false} PlainCut(s: string, rest: string)
    requires IsPlain(s)
    ensures Split(s + "," + rest, 0) == [s] + Split(rest, 0)
    decreases |s|
  {
    hide Split;
    var whole := s + "," + rest;
    if s == "" {
      assert whole[1..] == rest;
      SplitComma(whole);
    } else {
      assert whole[0] == s[0] && whole[1..] == s[1..] + "," + rest;
      SplitChar(whole);
      PlainCut(s[1..], rest);
      CutFront(s, Split(rest, 0));
    }
  }

  lemma CutFront(s: string, parts: seq<string>)
    requires s != ""
    ensures var cut := [s[1..]] + parts; [[s[0]] + cut[0]] + cut[1..] == [s] + parts
  {
    assert [s[0]] + s[1..] == s;
  }

  /** Cutting undoes joining. */
  lemma {:induction false} CutJoined(parts: seq<string>)
    requires parts != [] && forall p :: p in parts ==> IsPlain(p)
    ensures Split(JoinParts(parts), 0) == parts
  {
    if |parts| == 1 {
      PlainUncut(parts[0]);
      assert parts == [parts[0]];
    } else {
      CutJoined(parts[1..]);
      PlainCut(parts[0], JoinParts(parts[1..]));
      assert parts == [parts[0]] + parts[1..];
    }
  }

  lemma {:induction false} PlainParts(ctx: Context, counts: seq<nat>, parts: seq<string>, args: seq<string>, bound: nat)
    requires |counts| == |ctx.vars|
    requires forall p :: p in parts ==> NoDollar(p) && |p| <= bound
    ensures ExpandAll(ctx, counts, parts, args, bound) == Some(parts)
    decreases |parts|
  {
    hide ExpandText;
    if parts != [] {
      var rest := parts[1..];
      PlainText(ctx, counts, parts[0], args);
      PlainParts(ctx, counts, rest, args, bound);
      assert [parts[0]] + rest == parts;
    }
  }

  lemma PartsValue(ctx: Context, counts: seq<nat>, parts: seq<string>, args: seq<string>)
    requires |counts| == |ctx.vars| && parts != [] && |parts| <= FUNCTION_MAX_ARGS
    requires forall p :: p in parts ==> IsPlain(p)
    requires !(0 < ParseIndex(JoinParts(parts)) <= |args|)
    ensures EvalClause(ctx, counts, JoinParts(parts), args) == ExpandName(ctx, counts, parts[0], parts[1..])
  {
    hide ExpandAll, ExpandName, EvalClause, Split, JoinParts, ParseIndex, IsPlain;
    var s := JoinParts(parts);
    CutJoined(parts);
    CutLengths(s);
    NoDollars(parts);
    PlainParts(ctx, counts, parts, args, |s|);
    ClauseOfParts(ctx, counts, s, parts, args);
  }

  /** A call with plain arguments: the name is looked up with just these arguments. */
  lemma CallValue(ctx: Context, counts: seq<nat>, name: string, params: seq<string>, args: seq<string>)
    requires |counts| == |ctx.vars| && |params| < FUNCTION_MAX_ARGS
    requires IsPlain(name) && forall p :: p in params ==> IsPlain(p)
    requires var n := ParseIndex(JoinParts([name] + params)); n == 0 || n > |args|
    ensures EvalClause(ctx, counts, JoinParts([name] + params), args) == ExpandName(ctx, counts, name, params)
  {
    hide ExpandName, EvalClause, JoinParts, ParseIndex, IsPlain;
    var parts := [name] + params;
    PartsValue(ctx, counts, parts, args);
    assert parts[0] == name && parts[1..] == params;
  }

  lemma NoDollars(parts: seq<string>)
    requires forall p :: p in parts ==> IsPlain(p)
    ensures forall p :: p in parts ==> NoDollar(p)
  {
  }

  lemma CutLengths(s: string)
    ensures forall p :: p in Split(s, 0) ==> |p| <= |s|
  {
  }

  lemma ClauseOfParts(ctx: Context, counts: seq<nat>, s: string, parts: seq<string>, args: seq<string>)
    requires |counts| == |ctx.vars| && !(0 < ParseIndex(s) <= |args|)
    requires parts != [] && Split(s, 0) == parts && |parts| <= FUNCTION_MAX_ARGS
    requires forall p :: p in parts ==> |p| <= |s|
    requires ExpandAll(ctx, counts, parts, args, |s|) == Some(parts)
    ensures EvalClause(ctx, counts, s, args) == ExpandName(ctx, counts, parts[0], parts[1..])
  {
    hide ExpandAll, ExpandName, Split;
  }

  /** Whether an expansion of variable i may begin: without arguments none may be under way. */
  predicate MayEnter(counts: seq<nat>, i: nat, params: seq<string>)
    requires i < |counts|
  {
    counts[i] <= MAX_DEPTH && (params == [] ==> counts[i] == 0)
  }

  /** The first variable of a name is the one that counts, before functions and the environment. A simple
      one has its value as it is; a recursive one its value expanded with just the arguments of the
      call; one that is under way too often, or at all without arguments, is refused. */
  lemma VariableValue(ctx: Context, counts: seq<nat>, i: nat, params: seq<string>)
    requires |counts| == |ctx.vars| && i < |ctx.vars|
    requires forall j :: 0 <= j < i ==> ctx.vars[j].name != ctx.vars[i].name
    ensures var v := ctx.vars[i];
      var r := ExpandName(ctx, counts, v.name, params);
      if !MayEnter(counts, i, params) then r == None
      else if v.flavor == Simple then r == Some(v.value)
      else
        var e := ExpandText(ctx, counts[i := counts[i] + 1], false, v.value, params);
        r == if e.None? then None else Some(e.value.text)
  {
    FindFirst(ctx.vars, i);
  }

  lemma {:induction false} FindFirst(vars: seq<Variable>, i: nat)
    requires i < |vars| && forall j :: 0 <= j < i ==> vars[j].name != vars[i].name
    ensures Find(vars, vars[i].name) == i
  {
    if i > 0 {
      FindFirst(vars[1..], i - 1);
    }
  }

  lemma {:induction false} FindNone(vars: seq<Variable>, name: string)
    requires forall v :: v in vars ==> v.name != name
    ensures Find(vars, name) == |vars|
  {
    if vars != [] {
      FindNone(vars[1..], name);
    }
  }

  /** A name that is no variable and no function, used without arguments, is looked up in the
      environment; anything else unknown is empty. */
  lemma UnknownName(ctx: Context, counts: seq<nat>, name: string, params: seq<string>)
    requires |counts| == |ctx.vars| && forall v :: v in ctx.vars ==> v.name != name
    requires name !in {"error-if", "filename", "info", "lineno", "shell", "warning-if"}
    ensures ExpandName(ctx, counts, name, params)
         == Some(if params == [] && name != "" && name in ctx.env then ctx.env[name] else "")
  {
    FindNone(ctx.vars, name);
  }

  /** The built-in functions, unless a variable has the name: each takes just so many arguments. */
  lemma FunctionValue(ctx: Context, counts: seq<nat>, params: seq<string>)
    requires |counts| == |ctx.vars|
    requires forall v :: v in ctx.vars ==> v.name !in {"error-if", "filename", "info", "lineno", "shell", "warning-if"}
    ensures ExpandName(ctx, counts, "filename", params) == if params == [] then Some(ctx.filename) else None
    ensures ExpandName(ctx, counts, "lineno", params) == if params == [] then Some(ctx.lineno) else None
    ensures ExpandName(ctx, counts, "shell", params) == if |params| == 1 then ctx.shell(params[0]) else None
    ensures ExpandName(ctx, counts, "info", params) == if |params| == 1 then Some("") else None
    ensures ExpandName(ctx, counts, "warning-if", params) == if |params| == 2 then Some("") else None
    ensures ExpandName(ctx, counts, "error-if", params) == if |params| == 2 && params[0] != "y" then Some("") else None
  {
    FindNone(ctx.vars, "filename");
    FindNone(ctx.vars, "lineno");
    FindNone(ctx.vars, "shell");
    FindNone(ctx.vars, "info");
    FindNone(ctx.vars, "warning-if");
    FindNone(ctx.vars, "error-if");
  }

  /** `$(name)` for a simple variable. */
  lemma SimpleReference(ctx: Context, counts: seq<nat>, i: nat, rest: string, args: seq<string>)
    requires |counts| == |ctx.vars| && i < |ctx.vars| && ctx.vars[i].flavor == Simple && counts[i] == 0
    requires forall j :: 0 <= j < i ==> ctx.vars[j].name != ctx.vars[i].name
    requires IsPlain(ctx.vars[i].name) && ParseIndex(ctx.vars[i].name) == 0
    ensures ExpandText(ctx, counts, false, Referring(ctx.vars[i].name, rest), args)
         == Prepend(ctx.vars[i].value, ExpandText(ctx, counts, false, rest, args))
  {
    var name := ctx.vars[i].name;
    assert JoinParts([name] + []) == name;
    CallValue(ctx, counts, name, [], args);
    VariableValue(ctx, counts, i, []);
    NoParens(name, 0);
    ReferenceText(name, rest);
    Reference(ctx, counts, Referring(name, rest), name, rest, args);
  }

  /** The clause `name,a,b,...` for a user function is its value, expanded with these arguments. */
  lemma FunctionCall(ctx: Context, counts: seq<nat>, i: nat, clause: string, params: seq<string>, args: seq<string>)
    requires |counts| == |ctx.vars| && i < |ctx.vars| && ctx.vars[i].flavor == Recursive
    requires params != [] && |params| < FUNCTION_MAX_ARGS && counts[i] <= MAX_DEPTH
    requires forall j :: 0 <= j < i ==> ctx.vars[j].name != ctx.vars[i].name
    requires IsPlain(ctx.vars[i].name) && forall p :: p in params ==> IsPlain(p)
    requires clause == JoinParts([ctx.vars[i].name] + params) && ParseIndex(clause) == 0
    ensures EvalClause(ctx, counts, clause, args) ==
      var e := ExpandText(ctx, counts[i := counts[i] + 1], false, ctx.vars[i].value, params);
      if e.None? then None else Some(e.value.text)
  {
    hide ExpandText, EvalClause, ExpandName, JoinParts, ParseIndex, IsPlain, Split;
    CallValue(ctx, counts, ctx.vars[i].name, params, args);
    VariableValue(ctx, counts, i, params);
  }

  /** A value that refers to two arguments has them in the order in which it names them, with its text
      in between. */
  lemma TwoArguments(ctx: Context, counts: seq<nat>, s: string, i: nat, text: string, j: nat, rest: string, args: seq<string>)
    requires |counts| == |ctx.vars| && NoDollar(text) && i < |args| && j < |args| && |args| <= ULONG_MAX
    requires s == Referring(Numeral(i + 1), text + Referring(Numeral(j + 1), rest))
    ensures ExpandText(ctx, counts, false, s, args)
         == Prepend(args[i], Prepend(text, Prepend(args[j], ExpandText(ctx, counts, false, rest, args))))
  {
    hide ExpandText, Numeral, Prepend, Referring;
    var second := Referring(Numeral(j + 1), rest);
    ArgumentReference(ctx, counts, second, j, rest, args);
    assert (text + second)[..|text|] == text && (text + second)[|text|..] == second;
    TextBefore(ctx, counts, text + second, |text|, args);
    ArgumentReference(ctx, counts, s, i, text + second, args);
  }

  /** A variable that refers to itself is refused. */
  lemma SelfReferenceRefused(ctx: Context, counts: seq<nat>, i: nat)
    requires |counts| == |ctx.vars| && i < |ctx.vars| && ctx.vars[i].flavor == Recursive
    requires forall j :: 0 <= j < i ==> ctx.vars[j].name != ctx.vars[i].name
    requires IsPlain(ctx.vars[i].name) && ParseIndex(ctx.vars[i].name) == 0
    requires ctx.vars[i].value == Referring(ctx.vars[i].name, "")
    ensures ExpandName(ctx, counts, ctx.vars[i].name, []) == None
  {
    VariableValue(ctx, counts, i, []);
    if MayEnter(counts, i, []) {
      var name, inside := ctx.vars[i].name, counts[i := counts[i] + 1];
      assert JoinParts([name] + []) == name;
      CallValue(ctx, inside, name, [], []);
      VariableValue(ctx, inside, i, []);
      NoParens(name, 0);
      ReferenceText(name, "");
      Reference(ctx, inside, Referring(name, ""), name, "", []);
    }
  }
}
