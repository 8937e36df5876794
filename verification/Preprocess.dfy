/** Macro expansion: what a string with references expands to, or that expansion is refused. */
module Preprocess {
  import opened Expressions

  datatype Flavor = Simple | Recursive

  datatype Variable = Variable(name: string, value: string, flavor: Flavor)

  /** Everything expansion reads: the variable list, the environment, the position in the file and
      what a shell command prints (None: the command could not be run). */
  datatype Context = Context(vars: seq<Variable>, env: map<string, string>, filename: string, lineno: string,
                             shell: string -> Option<string>)

  const FUNCTION_MAX_ARGS := 16
  const MAX_DEPTH := 1000
  const ULONG_MAX := 0xFFFF_FFFF_FFFF_FFFF

  // ---- the pieces of a string ----

  predicate IsSpace(c: char) {
    c == ' ' || '\t' <= c <= '\r'
  }

  predicate IsDigit(c: char) {
    '0' <= c <= '9'
  }

  /** The character that ends a token. */
  predicate IsTokenEnd(c: char) {
    !(IsDigit(c) || 'a' <= c <= 'z' || 'A' <= c <= 'Z' || c == '_' || c == '-')
  }

  predicate AllDigits(s: string) {
    forall c :: c in s ==> IsDigit(c)
  }

  function Number(s: string): nat
    requires AllDigits(s)
  {
    if s == "" then 0 else
      assert IsDigit(s[|s| - 1]);
      10 * Number(s[..|s| - 1]) + (s[|s| - 1] as int - '0' as int)
  }

  function SkipSpaces(s: string): string {
    if s != "" && IsSpace(s[0]) then SkipSpaces(s[1..]) else s
  }

  /** `strtoul` of the whole string; 0 if it is not a number as a whole. */
  function ParseIndex(s: string): nat {
    var t := SkipSpaces(s);
    var sign := t != "" && (t[0] == '-' || t[0] == '+');
    var digits := if sign then t[1..] else t;
    if digits == "" || !AllDigits(digits) then 0
    else if Number(digits) > ULONG_MAX then ULONG_MAX
    else if t[0] == '-' && Number(digits) > 0 then ULONG_MAX + 1 - Number(digits)
    else Number(digits)
  }

  function Nest(c: char): int {
    if c == '(' then 1 else if c == ')' then -1 else 0
  }

  /** The position of the closing parenthesis, `nest` others being open. */
  function CloseParen(s: string, nest: nat): (r: Option<nat>)
    ensures r.Some? ==> r.value < |s|
  {
    if s == "" then None
    else if s[0] == ')' && nest == 0 then Some(0)
    else
      var r := CloseParen(s[1..], nest + Nest(s[0]));
      if r.None? then None else Some(1 + r.value)
  }

  /** The parts between the commas that stand outside parentheses. */
  function Split(s: string, nest: int): (parts: seq<string>)
    ensures parts != []
    ensures forall p :: p in parts ==> |p| <= |s|
  {
    if s == "" then [""]
    else if nest == 0 && s[0] == ',' then [""] + Split(s[1..], 0)
    else
      var rest := Split(s[1..], nest + Nest(s[0]));
      [[s[0]] + rest[0]] + rest[1..]
  }

  // ---- expansion ----

  function Find(vars: seq<Variable>, name: string): (i: nat)
    ensures i <= |vars| && (i < |vars| ==> vars[i].name == name)
    ensures forall j :: 0 <= j < i ==> vars[j].name != name
  {
    if vars == [] || vars[0].name == name then 0 else 1 + Find(vars[1..], name)
  }

  /** How often variables may still be entered. */
  function Budget(counts: seq<nat>): nat {
    if counts == [] then 0
    else Budget(counts[..|counts| - 1]) + (if counts[|counts| - 1] > MAX_DEPTH then 0 else MAX_DEPTH + 1 - counts[|counts| - 1])
  }

  lemma {:induction false} BudgetFalls(counts: seq<nat>, i: nat)
    requires i < |counts| && counts[i] <= MAX_DEPTH
    ensures Budget(counts[i := counts[i] + 1]) == Budget(counts) - 1
  {
    var n := |counts| - 1;
    var after := counts[i := counts[i] + 1];
    if i == n {
      assert after[..n] == counts[..n];
    } else {
      assert after[..n] == counts[..n][i := counts[i] + 1];
      BudgetFalls(counts[..n], i);
    }
  }

  /** One more expansion of variable i is under way. */
  function Entered(counts: seq<nat>, i: nat): (r: seq<nat>)
    requires i < |counts| && counts[i] <= MAX_DEPTH
    ensures |r| == |counts| && Budget(r) < Budget(counts)
  {
    BudgetFalls(counts, i);
    counts[i := counts[i] + 1]
  }

  /** The built-in functions with their numbers of arguments. None: refused. Some(None): no such
      function. */
  function BuiltIn(ctx: Context, name: string, args: seq<string>): Option<Option<string>> {
    if name == "error-if" then
      if |args| != 2 || args[0] == "y" then None else Some(Some(""))
    else if name == "filename" then
      if |args| != 0 then None else Some(Some(ctx.filename))
    else if name == "info" then
      if |args| != 1 then None else Some(Some(""))
    else if name == "lineno" then
      if |args| != 0 then None else Some(Some(ctx.lineno))
    else if name == "shell" then
      if |args| != 1 || ctx.shell(args[0]).None? then None else Some(ctx.shell(args[0]))
    else if name == "warning-if" then
      if |args| != 2 then None else Some(Some(""))
    else Some(None)
  }

  /** What a name that is no variable expands to. */
  function Fallback(ctx: Context, name: string, args: seq<string>): Option<string> {
    match BuiltIn(ctx, name, args)
    case None => None
    case Some(Some(text)) => Some(text)
    case Some(None) => if args == [] && name != "" && name in ctx.env then Some(ctx.env[name]) else Some("")
  }

  /** An expansion together with the text that follows it. */
  datatype Expansion = Expansion(text: string, rest: string)

  /** `__expand_string`: to the end of the string or, for a token, to the end of the token. `counts`
      says how many expansions of each variable are under way. */
  function ExpandText(ctx: Context, counts: seq<nat>, token: bool, s: string, args: seq<string>): (r: Option<Expansion>)
    requires |counts| == |ctx.vars|
    ensures r.Some? ==> |r.value.rest| <= |s| && r.value.rest == s[|s| - |r.value.rest|..]
    ensures r.Some? && !token ==> r.value.rest == ""
    decreases Budget(counts), |s|, 2, 0
  {
    if s == "" then Some(Expansion("", ""))
    else if s[0] == '$' then
      var d := ExpandDollar(ctx, counts, s[1..], args);
      if d.None? then None
      else
        var r := ExpandText(ctx, counts, token, d.value.rest, args);
        if r.None? then None else Some(Expansion(d.value.text + r.value.text, r.value.rest))
    else if token && IsTokenEnd(s[0]) then Some(Expansion("", s))
    else
      var r := ExpandText(ctx, counts, token, s[1..], args);
      if r.None? then None else Some(Expansion([s[0]] + r.value.text, r.value.rest))
  }

  /** `expand_dollar_with_args`: s follows a dollar sign. */
  function ExpandDollar(ctx: Context, counts: seq<nat>, s: string, args: seq<string>): (r: Option<Expansion>)
    requires |counts| == |ctx.vars|
    ensures r.Some? ==> |r.value.rest| <= |s| && r.value.rest == s[|s| - |r.value.rest|..]
    decreases Budget(counts), |s|, 3, 0
  {
    if s == "" || s[0] != '(' then Some(Expansion("$", s))
    else
      var close := CloseParen(s[1..], 0);
      if close.None? then None
      else
        var r := EvalClause(ctx, counts, s[1..][..close.value], args);
        if r.None? then None else Some(Expansion(r.value, s[1..][close.value + 1..]))
  }

  /** `eval_clause`: an argument, a variable, a user or built-in function, or an environment variable. */
  function EvalClause(ctx: Context, counts: seq<nat>, s: string, args: seq<string>): Option<string>
    requires |counts| == |ctx.vars|
    decreases Budget(counts), |s|, 5, 0
  {
    if 0 < ParseIndex(s) <= |args| then Some(args[ParseIndex(s) - 1])
    else
      var parts := Split(s, 0);
      if |parts| > FUNCTION_MAX_ARGS then None
      else
        var expanded := ExpandAll(ctx, counts, parts, args, |s|);
        if expanded.None? then None
        else ExpandName(ctx, counts, expanded.value[0], expanded.value[1..])
  }

  function ExpandAll(ctx: Context, counts: seq<nat>, parts: seq<string>, args: seq<string>, ghost bound: nat):
      (r: Option<seq<string>>)
    requires |counts| == |ctx.vars|
    requires forall p :: p in parts ==> |p| <= bound
    ensures r.Some? ==> |r.value| == |parts|
    decreases Budget(counts), bound, 4, |parts|
  {
    if parts == [] then Some([])
    else
      var first := ExpandText(ctx, counts, false, parts[0], args);
      if first.None? then None
      else
        var others := ExpandAll(ctx, counts, parts[1..], args, bound);
        if others.None? then None else Some([first.value.text] + others.value)
  }

  /** `variable_expand`, and what is tried when there is no such variable. A variable without
      arguments must not be under way; no variable may be entered too often. */
  function ExpandName(ctx: Context, counts: seq<nat>, name: string, args: seq<string>): Option<string>
    requires |counts| == |ctx.vars|
    decreases Budget(counts), 0, 0, 0
  {
    var i := Find(ctx.vars, name);
    if i == |ctx.vars| then Fallback(ctx, name, args)
    else if args == [] && counts[i] > 0 then None
    else if counts[i] > MAX_DEPTH then None
    else if ctx.vars[i].flavor == Simple then Some(ctx.vars[i].value)
    else
      var r := ExpandText(ctx, Entered(counts, i), false, ctx.vars[i].value, args);
      if r.None? then None else Some(r.value.text)
  }

  // ---- references and arguments are cut at the right places ----

  function Depth(s: string): int {
    if s == "" then 0 else Nest(s[0]) + Depth(s[1..])
  }

  /** The closing parenthesis is the first one that closes more than is open. */
  lemma {:induction false} CloseParenFirst(s: string, nest: nat)
    ensures var r := CloseParen(s, nest);
      if r.Some? then
        && s[r.value] == ')' && nest + Depth(s[..r.value]) == 0
        && forall j :: 0 <= j <= r.value ==> nest + Depth(s[..j]) >= 0
      else
        forall j :: 0 <= j <= |s| ==> nest + Depth(s[..j]) >= 0
  {
    if s != "" && !(s[0] == ')' && nest == 0) {
      CloseParenFirst(s[1..], nest + Nest(s[0]));
      forall j | 0 < j <= |s|
        ensures Depth(s[..j]) == Nest(s[0]) + Depth(s[1..][..j - 1])
      {
        assert s[..j][1..] == s[1..][..j - 1];
      }
    }
  }

  function JoinParts(parts: seq<string>): string
    requires parts != []
  {
    if |parts| == 1 then parts[0] else parts[0] + "," + JoinParts(parts[1..])
  }

  /** No comma outside parentheses, `nest` being open at the start. */
  predicate NoTopComma(s: string, nest: int) {
    s != "" ==> !(nest == 0 && s[0] == ',') && NoTopComma(s[1..], nest + Nest(s[0]))
  }

  lemma JoinPrepend(c: char, parts: seq<string>)
    requires parts != []
    ensures JoinParts([[c] + parts[0]] + parts[1..]) == [c] + JoinParts(parts)
  {
    var longer := [[c] + parts[0]] + parts[1..];
    assert longer[1..] == parts[1..];
    if |parts| > 1 {
      assert [c] + parts[0] + "," + JoinParts(parts[1..]) == [c] + (parts[0] + "," + JoinParts(parts[1..]));
    }
  }

  lemma JoinCut(parts: seq<string>)
    requires parts != []
    ensures JoinParts([""] + parts) == "," + JoinParts(parts)
  {
    assert ([""] + parts)[1..] == parts;
    assert "" + "," == ",";
  }

  /** Putting the commas back gives the string. */
  lemma {:induction false} SplitJoin(s: string, nest: int)
    ensures JoinParts(Split(s, nest)) == s
  {
    hide JoinParts;
    if s == "" {
      JoinOne(s);
    } else {
      assert [s[0]] + s[1..] == s;
      if nest == 0 && s[0] == ',' {
        SplitJoin(s[1..], 0);
        JoinCut(Split(s[1..], 0));
      } else {
        SplitJoin(s[1..], nest + Nest(s[0]));
        JoinPrepend(s[0], Split(s[1..], nest + Nest(s[0])));
      }
    }
  }

  lemma JoinOne(s: string)
    ensures JoinParts([s]) == s
  {
  }

  /** All commas outside parentheses are cuts. */
  predicate AllCut(parts: seq<string>, nest: int) {
    && parts != [] && NoTopComma(parts[0], nest)
    && forall k :: 1 <= k < |parts| ==> NoTopComma(parts[k], 0)
  }

  lemma CutBefore(rest: seq<string>)
    requires AllCut(rest, 0)
    ensures AllCut([""] + rest, 0)
  {
    hide NoTopComma;
    EmptyCut(0);
    var parts := [""] + rest;
    forall k | 1 <= k < |parts|
      ensures NoTopComma(parts[k], 0)
    {
      assert parts[k] == rest[k - 1];
    }
  }

  lemma CutLater(c: char, rest: seq<string>, nest: int)
    requires !(nest == 0 && c == ',') && AllCut(rest, nest + Nest(c))
    ensures AllCut([[c] + rest[0]] + rest[1..], nest)
  {
    hide Nest;
    var first := [c] + rest[0];
    assert first[1..] == rest[0];
  }

  lemma {:induction false} SplitCuts(s: string, nest: int)
    ensures AllCut(Split(s, nest), nest)
  {
    hide AllCut, Nest;
    if s == "" {
      EmptyCut(nest);
    } else if nest == 0 && s[0] == ',' {
      SplitCuts(s[1..], 0);
      CutBefore(Split(s[1..], 0));
    } else {
      SplitCuts(s[1..], nest + Nest(s[0]));
      CutLater(s[0], Split(s[1..], nest + Nest(s[0])), nest);
    }
  }

  lemma EmptyCut(nest: int)
    ensures NoTopComma("", nest) && AllCut([""], nest)
  {
  }

  // ---- the counters only guard ----

  ghost predicate NoMore(fewer: seq<nat>, counts: seq<nat>) {
    |fewer| == |counts| && forall i :: 0 <= i < |counts| ==> fewer[i] <= counts[i]
  }

  /** An expansion that succeeds while others are under way gives the same with fewer under way, and
      on its own: the counters decide whether there is a result, never which. */
  lemma {:induction false} ExpandTextFewer(ctx: Context, fewer: seq<nat>, counts: seq<nat>, token: bool, s: string, args: seq<string>)
    requires |counts| == |ctx.vars| && NoMore(fewer, counts)
    requires ExpandText(ctx, counts, token, s, args).Some?
    ensures ExpandText(ctx, fewer, token, s, args) == ExpandText(ctx, counts, token, s, args)
    decreases Budget(counts), |s|, 2, 0
  {
    if s == "" {
    } else if s[0] == '$' {
      ExpandDollarFewer(ctx, fewer, counts, s[1..], args);
      ExpandTextFewer(ctx, fewer, counts, token, ExpandDollar(ctx, counts, s[1..], args).value.rest, args);
    } else if !(token && IsTokenEnd(s[0])) {
      ExpandTextFewer(ctx, fewer, counts, token, s[1..], args);
    }
  }

  lemma {:induction false} ExpandDollarFewer(ctx: Context, fewer: seq<nat>, counts: seq<nat>, s: string, args: seq<string>)
    requires |counts| == |ctx.vars| && NoMore(fewer, counts)
    requires ExpandDollar(ctx, counts, s, args).Some?
    ensures ExpandDollar(ctx, fewer, s, args) == ExpandDollar(ctx, counts, s, args)
    decreases Budget(counts), |s|, 3, 0
  {
    if s != "" && s[0] == '(' {
      EvalClauseFewer(ctx, fewer, counts, s[1..][..CloseParen(s[1..], 0).value], args);
    }
  }

  lemma {:induction false} EvalClauseFewer(ctx: Context, fewer: seq<nat>, counts: seq<nat>, s: string, args: seq<string>)
    requires |counts| == |ctx.vars| && NoMore(fewer, counts)
    requires EvalClause(ctx, counts, s, args).Some?
    ensures EvalClause(ctx, fewer, s, args) == EvalClause(ctx, counts, s, args)
    decreases Budget(counts), |s|, 5, 0
  {
    if !(0 < ParseIndex(s) <= |args|) {
      var parts := Split(s, 0);
      ExpandAllFewer(ctx, fewer, counts, parts, args, |s|);
      var expanded := ExpandAll(ctx, counts, parts, args, |s|).value;
      ExpandNameFewer(ctx, fewer, counts, expanded[0], expanded[1..]);
    }
  }

  lemma {:induction false} ExpandAllFewer(ctx: Context, fewer: seq<nat>, counts: seq<nat>, parts: seq<string>,
                                          args: seq<string>, bound: nat)
    requires |counts| == |ctx.vars| && NoMore(fewer, counts)
    requires forall p :: p in parts ==> |p| <= bound
    requires ExpandAll(ctx, counts, parts, args, bound).Some?
    ensures ExpandAll(ctx, fewer, parts, args, bound) == ExpandAll(ctx, counts, parts, args, bound)
    decreases Budget(counts), bound, 4, |parts|
  {
    if parts != [] {
      ExpandTextFewer(ctx, fewer, counts, false, parts[0], args);
      ExpandAllFewer(ctx, fewer, counts, parts[1..], args, bound);
    }
  }

  lemma {:induction false} ExpandNameFewer(ctx: Context, fewer: seq<nat>, counts: seq<nat>, name: string, args: seq<string>)
    requires |counts| == |ctx.vars| && NoMore(fewer, counts)
    requires ExpandName(ctx, counts, name, args).Some?
    ensures ExpandName(ctx, fewer, name, args) == ExpandName(ctx, counts, name, args)
    decreases Budget(counts), 0, 0, 0
  {
    var i := Find(ctx.vars, name);
    if i < |ctx.vars| && ctx.vars[i].flavor == Recursive {
      ExpandTextFewer(ctx, Entered(fewer, i), Entered(counts, i), false, ctx.vars[i].value, args);
    }
  }

  // ---- expansion as the program runs it ----

  function Prepend(text: string, r: Option<Expansion>): Option<Expansion> {
    if r.None? then None else Some(Expansion(text + r.value.text, r.value.rest))
  }

  lemma PrependTwice(a: string, b: string, r: Option<Expansion>)
    ensures Prepend(a, Prepend(b, r)) == Prepend(a + b, r)
    ensures Prepend("", r) == r
  {
    if r.Some? {
      assert a + (b + r.value.text) == a + b + r.value.text;
      assert "" + r.value.text == r.value.text;
    }
  }

  /** One round of `__expand_string`, at position p. */
  lemma ExpandTextStep(ctx: Context, counts: seq<nat>, token: bool, s: string, p: nat, args: seq<string>)
    requires |counts| == |ctx.vars| && p < |s|
    ensures var r := ExpandText(ctx, counts, token, s[p..], args);
      if s[p] == '$' then
        var d := ExpandDollar(ctx, counts, s[p + 1..], args);
        if d.None? then r == None
        else
          && |d.value.rest| < |s| - p && s[|s| - |d.value.rest|..] == d.value.rest
          && r == Prepend(d.value.text, ExpandText(ctx, counts, token, d.value.rest, args))
      else if token && IsTokenEnd(s[p]) then r == Some(Expansion("", s[p..]))
      else r == Prepend([s[p]], ExpandText(ctx, counts, token, s[p + 1..], args))
  {
    hide ExpandDollar;
    assert s[p..][1..] == s[p + 1..];
  }

  class Preprocessor {
    const ctx: Context
    /** `exp_count` of each variable. */
    var counts: seq<nat>

    constructor (ctx: Context)
      ensures this.ctx == ctx && counts == seq(|ctx.vars|, _ => 0)
    {
      this.ctx := ctx;
      counts := seq(|ctx.vars|, _ => 0);
    }

    ghost predicate Valid()
      reads this
    {
      |counts| == |ctx.vars|
    }

    /** `__expand_string`. None stands for the exit with an error message. */
    method ExpandString(token: bool, s: string, args: seq<string>) returns (r: Option<Expansion>)
      requires Valid()
      modifies this
      ensures Valid() && r == ExpandText(ctx, old(counts), token, s, args)
      ensures r.Some? ==> counts == old(counts)
      decreases Budget(counts), |s|, 2, 0
    {
      hide ExpandText, ExpandDollar;
      var out, start, p := "", 0, 0;
      ghost var acc, whole := "", ExpandText(ctx, counts, token, s, args);
      assert s[0..] == s;
      PrependTwice("", "", whole);
      while true
        invariant 0 <= start <= p <= |s| && counts == old(counts)
        invariant acc == out + s[start..p]
        invariant whole == Prepend(acc, ExpandText(ctx, old(counts), token, s[p..], args))
        decreases |s| - p
      {
        if p == |s| {
          ExpandTextEnd(ctx, counts, token, s[p..], args);
          break;
        }
        ExpandTextStep(ctx, counts, token, s, p, args);
        if s[p] == '$' {
          var d := ExpandReference(s[p + 1..], args);
          if d.None? {
            return None;
          }
          PrependTwice(acc, d.value.text, ExpandText(ctx, old(counts), token, d.value.rest, args));
          out := out + s[start..p] + d.value.text;
          p := |s| - |d.value.rest|;
          start := p;
          acc := acc + d.value.text;
          assert s[start..p] == "" && out + "" == out;
        } else if token && IsTokenEnd(s[p]) {
          break;
        } else {
          PrependTwice(acc, [s[p]], ExpandText(ctx, old(counts), token, s[p + 1..], args));
          assert s[start..p + 1] == s[start..p] + [s[p]];
          assert out + (s[start..p] + [s[p]]) == acc + [s[p]];
          acc := acc + [s[p]];
          p := p + 1;
        }
      }
      assert acc + "" == acc;
      r := Some(Expansion(out + s[start..p], s[p..]));
    }

    /** `expand_dollar_with_args` */
    method ExpandReference(s: string, args: seq<string>) returns (r: Option<Expansion>)
      requires Valid()
      modifies this
      ensures Valid() && r == ExpandDollar(ctx, old(counts), s, args)
      ensures r.Some? ==> counts == old(counts)
      decreases Budget(counts), |s|, 3, 0
    {
      if s == "" || s[0] != '(' {
        return Some(Expansion("$", s));
      }
      var nest, q := 0, 1;
      while q < |s| && !(s[q] == ')' && nest == 0)
        invariant 1 <= q <= |s| && nest >= 0
        invariant CloseParen(s[1..], 0) == Shift(q - 1, CloseParen(s[q..], nest))
      {
        assert s[q..][1..] == s[q + 1..];
        nest := nest + Nest(s[q]);
        q := q + 1;
      }
      if q == |s| {
        return None;
      }
      assert CloseParen(s[1..], 0) == Some(q - 1);
      assert s[1..][..q - 1] == s[1..q] && s[1..][q..] == s[q + 1..];
      var text := EvaluateClause(s[1..q], args);
      r := if text.None? then None else Some(Expansion(text.value, s[q + 1..]));
    }

    /** `eval_clause` */
    method EvaluateClause(s: string, args: seq<string>) returns (r: Option<string>)
      requires Valid()
      modifies this
      ensures Valid() && r == EvalClause(ctx, old(counts), s, args)
      ensures r.Some? ==> counts == old(counts)
      decreases Budget(counts), |s|, 5, 0
    {
      hide ExpandText, ExpandAll, ExpandName, Split, ParseIndex;
      var n := ParseIndex(s);
      if 0 < n <= |args| {
        return Some(args[n - 1]);
      }
      var parts := SplitArguments(s);
      if |parts| > FUNCTION_MAX_ARGS {
        return None;
      }
      var expanded: seq<string> := [];
      ghost var all := ExpandAll(ctx, counts, parts, args, |s|);
      assert parts[0..] == parts;
      AppendTwice([], [], all);
      for i := 0 to |parts|
        invariant counts == old(counts) && |expanded| == i
        invariant all == Append(expanded, ExpandAll(ctx, old(counts), parts[i..], args, |s|))
      {
        ExpandAllStep(ctx, counts, parts, i, args, |s|);
        var e := ExpandString(false, parts[i], args);
        if e.None? {
          return None;
        }
        AppendTwice(expanded, [e.value.text], ExpandAll(ctx, old(counts), parts[i + 1..], args, |s|));
        expanded := expanded + [e.value.text];
      }
      ExpandAllStep(ctx, counts, parts, |parts|, args, |s|);
      assert expanded + [] == expanded;
      r := ExpandVariable(expanded[0], expanded[1..]);
    }

    method SplitArguments(s: string) returns (parts: seq<string>)
      ensures parts == Split(s, 0)
    {
      hide Split, SplitAfter;
      parts := [];
      var nest, prev := 0, 0;
      SplitAfterNothing(s);
      for p := 0 to |s|
        invariant 0 <= prev <= p
        invariant Split(s, 0) == parts + SplitAfter(s[prev..p], s[p..], nest)
      {
        SplitStep(parts, s[prev..p], s, p, nest);
        if nest == 0 && s[p] == ',' {
          parts := parts + [s[prev..p]];
          prev := p + 1;
          assert s[prev..p + 1] == "";
        } else {
          nest := nest + Nest(s[p]);
          assert s[prev..p + 1] == s[prev..p] + [s[p]];
        }
      }
      assert s[prev..|s|] == s[prev..];
      SplitAfterAll(s[prev..], s[|s|..], nest);
      parts := parts + [s[prev..]];
    }

    /** `variable_expand`, and what is tried when there is no such variable. */
    method ExpandVariable(name: string, args: seq<string>) returns (r: Option<string>)
      requires Valid()
      modifies this
      ensures Valid() && r == ExpandName(ctx, old(counts), name, args)
      ensures r.Some? ==> counts == old(counts)
      decreases Budget(counts), 0, 0, 0
    {
      hide Budget, ExpandText, ExpandDollar, EvalClause, Fallback;
      var i := Find(ctx.vars, name);
      if i == |ctx.vars| {
        return Fallback(ctx, name, args);
      }
      if args == [] && counts[i] > 0 {
        return None;
      }
      if counts[i] > MAX_DEPTH {
        return None;
      }
      BudgetFalls(counts, i);
      counts := counts[i := counts[i] + 1];
      if ctx.vars[i].flavor == Recursive {
        var e := ExpandString(false, ctx.vars[i].value, args);
        if e.None? {
          return None;
        }
        r := Some(e.value.text);
      } else {
        r := Some(ctx.vars[i].value);
      }
      counts := counts[i := counts[i] - 1];
    }
  }

  lemma ExpandTextEnd(ctx: Context, counts: seq<nat>, token: bool, s: string, args: seq<string>)
    requires |counts| == |ctx.vars| && s == ""
    ensures ExpandText(ctx, counts, token, s, args) == Some(Expansion("", s))
  {
  }

  function Shift(n: nat, r: Option<nat>): Option<nat> {
    if r.None? then None else Some(n + r.value)
  }

  function Append(before: seq<string>, r: Option<seq<string>>): Option<seq<string>> {
    if r.None? then None else Some(before + r.value)
  }

  lemma AppendTwice(a: seq<string>, b: seq<string>, r: Option<seq<string>>)
    ensures Append(a, Append(b, r)) == Append(a + b, r)
    ensures Append([], r) == r
  {
    if r.Some? {
      assert a + (b + r.value) == a + b + r.value;
      assert [] + r.value == r.value;
    }
  }

  lemma ExpandAllStep(ctx: Context, counts: seq<nat>, parts: seq<string>, i: nat, args: seq<string>, bound: nat)
    requires |counts| == |ctx.vars| && i <= |parts|
    requires forall p :: p in parts ==> |p| <= bound
    ensures var r := ExpandAll(ctx, counts, parts[i..], args, bound);
      if i == |parts| then r == Some([])
      else
        var first := ExpandText(ctx, counts, false, parts[i], args);
        if first.None? then r == None
        else r == Append([first.value.text], ExpandAll(ctx, counts, parts[i + 1..], args, bound))
  {
    hide ExpandText;
    if i < |parts| {
      assert parts[i..][1..] == parts[i + 1..];
    }
  }

  /** The parts when `text` has been read before s, since the last cut. */
  function SplitAfter(text: string, s: string, nest: int): seq<string> {
    var rest := Split(s, nest);
    [text + rest[0]] + rest[1..]
  }

  lemma SplitAfterNothing(s: string)
    ensures Split(s, 0) == [] + SplitAfter(s[0..0], s[0..], 0)
  {
    var parts := Split(s, 0);
    assert s[0..] == s && "" + parts[0] == parts[0] && [parts[0]] + parts[1..] == parts;
  }

  lemma SplitAfterAll(text: string, s: string, nest: int)
    requires s == ""
    ensures SplitAfter(text, s, nest) == [text]
  {
    assert text + "" == text;
  }

  lemma SplitStep(before: seq<string>, text: string, s: string, p: nat, nest: int)
    requires p < |s|
    ensures before + SplitAfter(text, s[p..], nest) ==
      if nest == 0 && s[p] == ',' then before + [text] + SplitAfter("", s[p + 1..], 0)
      else before + SplitAfter(text + [s[p]], s[p + 1..], nest + Nest(s[p]))
  {
    assert s[p..][1..] == s[p + 1..];
    if nest == 0 && s[p] == ',' {
      var rest := Split(s[p + 1..], 0);
      assert "" + rest[0] == rest[0] && [rest[0]] + rest[1..] == rest && text + "" == text;
      assert SplitAfter(text, s[p..], nest) == [text] + rest;
    } else {
      var rest := Split(s[p + 1..], nest + Nest(s[p]));
      assert text + ([s[p]] + rest[0]) == text + [s[p]] + rest[0];
      assert ([[s[p]] + rest[0]] + rest[1..])[1..] == rest[1..];
    }
  }
}
