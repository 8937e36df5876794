/** The value of every symbol as a function of the configuration: what evaluation without caches
    means. No choices, ranges or transitional symbols; the value of MODULES is fixed. */
module SymMeaning {
  import opened Tristates
  import opened Expressions
  import opened Symbols

  /** `curr`: the text of a string or number, and the tristate value. */
  datatype Value = Value(str: string, tri: Tristate)

  /** `visible` and the values of the three dependencies. */
  datatype Visibility = Visibility(visible: Tristate, dirDep: Tristate, revDep: Tristate, implied: Tristate)

  /** `user` holds the user value of the symbols that have one. `compare` stands for the comparison
      of two typed texts, by number or as text. */
  datatype Setup = Setup(k: Kconfig, modulesVal: Tristate, user: map<Symbol, Value>,
                         compare: (SymbolType, string, SymbolType, string) -> int)

  type Values = map<Symbol, Value>

  function Name(s: Symbol): string {
    match s
    case SymYes => "y"
    case SymMod => "m"
    case SymNo => "n"
    case Literal(text, _) => text
    case Config(name, _) => name
  }

  /** The value of a constant, of an undefined symbol, and of a symbol that nothing sets. */
  function BaseValue(s: Symbol): Value {
    match s
    case SymYes => Value("y", YES)
    case SymMod => Value("m", MOD)
    case SymNo => Value("n", NO)
    case _ =>
      match s.Type()
      case Unknown => Value(Name(s), NO)
      case Int => Value("0", NO)
      case Hex => Value("0x0", NO)
      case Str => Value("", NO)
      case _ => Value("n", NO)
  }

  function ValueOf(m: Values, s: Symbol): Value {
    if s in m then m[s] else BaseValue(s)
  }

  /** `sym_get_string_value` */
  function StringValue(s: Symbol, v: Value): string {
    if !s.IsTri() then v.str else if v.tri == NO then "n" else if v.tri == MOD then "m" else "y"
  }

  function NonZero(x: int): int {
    if x == 0 then 1 else x
  }

  /** The three-way comparison of two symbols with given values. Boolean and tristate symbols compare
      by their number, also with a literal that reads as one; no other literal is spelled like them. */
  function Order(c: Setup, a: Symbol, x: Value, b: Symbol, y: Value): int {
    var text := c.compare(a.Type(), StringValue(a, x), b.Type(), StringValue(b, y));
    if a.IsTri() && b.IsTri() then x.tri - y.tri
    else if a.IsTri() && b.Literal? then (if b.number.Some? then x.tri - b.number.value else NonZero(text))
    else text
  }

  function EnvOf(c: Setup, m: Values): Env {
    Env(s => ValueOf(m, s).tri, (a, b) => Order(c, a, ValueOf(m, a), b, ValueOf(m, b)))
  }

  /** `sym_get_type` */
  function CurrentType(c: Setup, s: Symbol): SymbolType {
    if s.Type() == TristateType && c.modulesVal == NO then Boolean else s.Type()
  }

  function Promote(c: Setup, s: Symbol, t: Tristate): Tristate {
    if t == MOD && CurrentType(c, s) == Boolean then YES else t
  }

  function EvalOr(e: Option<Expr>, missing: Tristate, env: Env): Tristate {
    match e case None => missing case Some(x) => Eval(x, env)
  }

  /** The best condition among the prompts. */
  function PromptValue(props: seq<Property>, env: Env): Tristate {
    if props == [] then NO
    else
      var p := props[|props| - 1];
      var before := PromptValue(props[..|props| - 1], env);
      if p.HasText() then TriOr(before, EvalOpt(p.visible, env)) else before
  }

  /** `sym_calc_visibility` */
  function VisibilityStep(c: Setup, s: Symbol, m: Values): Visibility {
    var i, env := Info(c.k, s), EnvOf(c, m);
    var prompt := PromptValue(i.props, env);
    Visibility(
      if prompt == MOD && CurrentType(c, s) != TristateType then YES else prompt,
      Promote(c, s, EvalOr(i.dirDep, YES, env)),
      Promote(c, s, EvalOr(i.revDep, NO, env)),
      Promote(c, s, EvalOr(i.implied, NO, env)))
  }

  predicate IsActiveDefault(p: Property, env: Env) {
    p.kind == Default && EvalOpt(p.visible, env) != NO
  }

  /** `sym_get_default_prop` */
  function DefaultProp(props: seq<Property>, env: Env): Option<Property> {
    if props == [] then None
    else if IsActiveDefault(props[0], env) then Some(props[0])
    else DefaultProp(props[1..], env)
  }

  /** `prop_get_symbol` */
  function PropSymbol(p: Property): Option<Symbol> {
    if p.expr.Some? && p.expr.value.Sym? then Some(p.expr.value.sym) else None
  }

  /** The tristate value a default and the implying symbols give. */
  function DefaultTri(c: Setup, s: Symbol, m: Values, vis: Visibility): Tristate {
    var env := EnvOf(c, m);
    var prop := DefaultProp(Info(c.k, s).props, env);
    var t := if prop.None? then NO else TriAnd(EvalOpt(prop.value.expr, env), EvalOpt(prop.value.visible, env));
    if vis.implied != NO then TriAnd(TriOr(t, vis.implied), vis.dirDep) else t
  }

  function TriStep(c: Setup, s: Symbol, m: Values): Tristate {
    var vis := VisibilityStep(c, s, m);
    var t :=
      if vis.visible != NO && s in c.user then TriAnd(c.user[s].tri, vis.visible)
      else DefaultTri(c, s, m, vis);
    Promote(c, s, TriOr(t, vis.revDep))
  }

  function StrStep(c: Setup, s: Symbol, m: Values): string {
    if VisibilityStep(c, s, m).visible != NO && s in c.user then c.user[s].str
    else
      var prop := DefaultProp(Info(c.k, s).props, EnvOf(c, m));
      if prop.Some? && PropSymbol(prop.value).Some? then ValueOf(m, PropSymbol(prop.value).value).str
      else BaseValue(s).str
  }

  predicate IsFixed(s: Symbol) {
    s.IsTriConst() || s.Type() == Unknown
  }

  /** `sym_calc_value`, given the values of all that s depends on. */
  function ValueStep(c: Setup, s: Symbol, m: Values): Value {
    if IsFixed(s) then BaseValue(s)
    else if s.IsTri() then Value("n", TriStep(c, s, m))
    else Value(StrStep(c, s, m), NO)
  }

  /** The values of the symbols of `order`, each computed from those before it. */
  function Meanings(c: Setup, order: seq<Symbol>): (m: Values)
    ensures m.Keys == set s | s in order
  {
    if order == [] then map[]
    else
      var s := order[|order| - 1];
      var before := Meanings(c, order[..|order| - 1]);
      before[s := ValueStep(c, s, before)]
  }

  // ---- a symbol's value depends on what it depends on ----

  predicate AgreeOn(m1: Values, m2: Values, syms: set<Symbol>) {
    forall d :: d in syms ==> ValueOf(m1, d) == ValueOf(m2, d)
  }

  lemma {:induction false} EvalLocal(e: Expr, c1: Setup, c2: Setup, m1: Values, m2: Values)
    requires c1.compare == c2.compare
    requires AgreeOn(m1, m2, ExprSymbols(e))
    ensures Eval(e, EnvOf(c1, m1)) == Eval(e, EnvOf(c2, m2))
  {
    match e
    case Bin(_, l, r) =>
      EvalLocal(l, c1, c2, m1, m2);
      EvalLocal(r, c1, c2, m1, m2);
    case Not(x) => EvalLocal(x, c1, c2, m1, m2);
    case Compare(_, a, b) =>
      assert a in ExprSymbols(e) && b in ExprSymbols(e);
    case Sym(s) =>
      assert s in ExprSymbols(e);
  }

  lemma EvalOptLocal(e: Option<Expr>, c1: Setup, c2: Setup, m1: Values, m2: Values)
    requires c1.compare == c2.compare
    requires AgreeOn(m1, m2, OptSymbols(e))
    ensures e.Some? ==> Eval(e.value, EnvOf(c1, m1)) == Eval(e.value, EnvOf(c2, m2))
  {
    if e.Some? {
      EvalLocal(e.value, c1, c2, m1, m2);
    }
  }

  lemma {:induction false} PromptLocal(props: seq<Property>, c1: Setup, c2: Setup, m1: Values, m2: Values)
    requires c1.compare == c2.compare
    requires AgreeOn(m1, m2, PropsSymbols(props))
    ensures PromptValue(props, EnvOf(c1, m1)) == PromptValue(props, EnvOf(c2, m2))
  {
    if props != [] {
      var p, rest := props[|props| - 1], props[..|props| - 1];
      assert PropsSymbols(rest) <= PropsSymbols(props);
      PromptLocal(rest, c1, c2, m1, m2);
      if p.HasText() {
        assert PropertySymbols(p) <= PropsSymbols(props);
        EvalOptLocal(p.visible, c1, c2, m1, m2);
      }
    }
  }

  lemma {:induction false} DefaultLocal(props: seq<Property>, c1: Setup, c2: Setup, m1: Values, m2: Values)
    requires c1.compare == c2.compare
    requires AgreeOn(m1, m2, PropsSymbols(props))
    ensures var prop := DefaultProp(props, EnvOf(c1, m1));
      && prop == DefaultProp(props, EnvOf(c2, m2))
      && (prop.Some? ==> prop.value in props && prop.value.kind == Default)
  {
    if props != [] {
      assert PropertySymbols(props[0]) <= PropsSymbols(props);
      if props[0].kind == Default {
        EvalOptLocal(props[0].visible, c1, c2, m1, m2);
      }
      assert PropsSymbols(props[1..]) <= PropsSymbols(props);
      DefaultLocal(props[1..], c1, c2, m1, m2);
    }
  }

  /** Setups that differ in user values only. */
  ghost predicate SameGraph(c1: Setup, c2: Setup) {
    c1.k == c2.k && c1.modulesVal == c2.modulesVal && c1.compare == c2.compare
  }

  predicate SameUser(c1: Setup, c2: Setup, s: Symbol) {
    (s in c1.user <==> s in c2.user) && (s in c1.user ==> c1.user[s] == c2.user[s])
  }

  lemma VisibilityLocal(c1: Setup, c2: Setup, s: Symbol, m1: Values, m2: Values)
    requires SameGraph(c1, c2)
    requires AgreeOn(m1, m2, Deps(c1.k, s))
    ensures VisibilityStep(c1, s, m1) == VisibilityStep(c2, s, m2)
  {
    hide PromptValue, EvalOpt, Info;
    var i := Info(c1.k, s);
    PromptLocal(i.props, c1, c2, m1, m2);
    EvalOptLocal(i.dirDep, c1, c2, m1, m2);
    EvalOptLocal(i.revDep, c1, c2, m1, m2);
    EvalOptLocal(i.implied, c1, c2, m1, m2);
  }

  /** The active default and its parts are local too. */
  lemma ActiveDefaultLocal(c1: Setup, c2: Setup, s: Symbol, m1: Values, m2: Values) returns (prop: Option<Property>)
    requires SameGraph(c1, c2)
    requires AgreeOn(m1, m2, Deps(c1.k, s))
    ensures prop == DefaultProp(Info(c1.k, s).props, EnvOf(c1, m1))
    ensures prop == DefaultProp(Info(c2.k, s).props, EnvOf(c2, m2))
    ensures prop.Some? ==> EvalOpt(prop.value.expr, EnvOf(c1, m1)) == EvalOpt(prop.value.expr, EnvOf(c2, m2))
    ensures prop.Some? ==> EvalOpt(prop.value.visible, EnvOf(c1, m1)) == EvalOpt(prop.value.visible, EnvOf(c2, m2))
    ensures prop.Some? ==> AgreeOn(m1, m2, OptSymbols(prop.value.expr))
  {
    var props := Info(c1.k, s).props;
    DefaultLocal(props, c1, c2, m1, m2);
    prop := DefaultProp(props, EnvOf(c1, m1));
    if prop.Some? {
      assert PropertySymbols(prop.value) <= PropsSymbols(props) <= Deps(c1.k, s);
      EvalOptLocal(prop.value.expr, c1, c2, m1, m2);
      EvalOptLocal(prop.value.visible, c1, c2, m1, m2);
    }
  }

  lemma TriLocal(c1: Setup, c2: Setup, s: Symbol, m1: Values, m2: Values)
    requires SameGraph(c1, c2) && SameUser(c1, c2, s)
    requires AgreeOn(m1, m2, Deps(c1.k, s))
    ensures TriStep(c1, s, m1) == TriStep(c2, s, m2)
  {
    VisibilityLocal(c1, c2, s, m1, m2);
    var _ := ActiveDefaultLocal(c1, c2, s, m1, m2);
  }

  lemma StrLocal(c1: Setup, c2: Setup, s: Symbol, m1: Values, m2: Values)
    requires SameGraph(c1, c2) && SameUser(c1, c2, s)
    requires AgreeOn(m1, m2, Deps(c1.k, s))
    ensures StrStep(c1, s, m1) == StrStep(c2, s, m2)
  {
    hide VisibilityStep, Deps, BaseValue, DefaultProp, Info, EnvOf, EvalOpt;
    VisibilityLocal(c1, c2, s, m1, m2);
    var prop := ActiveDefaultLocal(c1, c2, s, m1, m2);
    if prop.Some? && PropSymbol(prop.value).Some? {
      assert PropSymbol(prop.value).value in OptSymbols(prop.value.expr);
    }
  }

  lemma StepLocal(c1: Setup, c2: Setup, s: Symbol, m1: Values, m2: Values)
    requires SameGraph(c1, c2) && SameUser(c1, c2, s)
    requires AgreeOn(m1, m2, Deps(c1.k, s))
    ensures ValueStep(c1, s, m1) == ValueStep(c2, s, m2)
  {
    TriLocal(c1, c2, s, m1, m2);
    StrLocal(c1, c2, s, m1, m2);
  }

  // ---- the recursive equations ----

  /** A longer order adds values and changes none. */
  lemma {:induction false} MeaningsPrefix(c: Setup, order: seq<Symbol>, n: nat, s: Symbol)
    requires Ordered(c.k, order) && n <= |order| && s in order[..n]
    ensures ValueOf(Meanings(c, order), s) == ValueOf(Meanings(c, order[..n]), s)
  {
    hide ValueStep, BaseValue, Deps;
    if n < |order| {
      OrderedPrefix(c.k, order, |order| - 1);
      var before := order[..|order| - 1];
      assert before[..n] == order[..n];
      MeaningsPrefix(c, before, n, s);
      var j :| 0 <= j < n && order[j] == s;
      assert s == before[j] && order[|order| - 1] !in before;
      assert ValueOf(Meanings(c, order), s) == ValueOf(Meanings(c, before), s);
    } else {
      assert order[..n] == order;
    }
  }

  lemma OrderedPrefix(k: Kconfig, order: seq<Symbol>, n: nat)
    requires Ordered(k, order) && n <= |order|
    ensures Ordered(k, order[..n])
  {
    forall i | 0 <= i < n
      ensures order[..n][i] !in order[..n][..i] && AllIn(Deps(k, order[..n][i]), order[..n][..i])
    {
      assert order[..n][..i] == order[..i];
    }
  }

  /** Along an order, the values satisfy the recursive definition. */
  lemma MeaningsEquation(c: Setup, order: seq<Symbol>, s: Symbol)
    requires Ordered(c.k, order) && s in order
    ensures ValueOf(Meanings(c, order), s) == ValueStep(c, s, Meanings(c, order))
  {
    hide Meanings, ValueStep, Deps, BaseValue;
    var i :| 0 <= i < |order| && order[i] == s;
    var m, before := Meanings(c, order), Meanings(c, order[..i]);
    assert order[..i + 1][i] == s;
    MeaningsPrefix(c, order, i + 1, s);
    LastMeaning(c, order[..i + 1]);
    assert order[..i + 1][..i] == order[..i];
    forall d | d in Deps(c.k, s)
      ensures ValueOf(m, d) == ValueOf(before, d)
    {
      MeaningsPrefix(c, order, i, d);
    }
    StepLocal(c, c, s, m, before);
  }

  lemma LastMeaning(c: Setup, order: seq<Symbol>)
    requires order != []
    ensures var n := |order| - 1;
      ValueOf(Meanings(c, order), order[n]) == ValueStep(c, order[n], Meanings(c, order[..n]))
  {
  }

  // ---- every evaluation is a valuation ----

  /** What holds of each computed value. */
  predicate Sane(c: Setup, s: Symbol, v: Value) {
    && (IsFixed(s) ==> v == BaseValue(s))
    && (!s.IsTri() ==> v.tri == NO)
    && (s.IsTri() && !IsFixed(s) ==> v.str == "n")
    && (CurrentType(c, s) == Boolean && !IsFixed(s) ==> v.tri != MOD)
  }

  lemma {:induction false} MeaningsSane(c: Setup, order: seq<Symbol>, s: Symbol)
    ensures Sane(c, s, ValueOf(Meanings(c, order), s))
  {
    if order != [] {
      MeaningsSane(c, order[..|order| - 1], s);
    }
  }

  /** With values of this kind, each of the conditions on a valuation holds. */
  lemma SaneOrder(c: Setup, m: Values, a: Symbol, b: Symbol)
    requires Sane(c, b, ValueOf(m, b))
    ensures var env := EnvOf(c, m);
      && (a.IsTri() && b.IsTri() ==> SameSign(env.order(a, b), env.tri(a) - env.tri(b)))
      && (a.IsTri() && b.Literal? ==>
            if b.number.Some? then SameSign(env.order(a, b), env.tri(a) - b.number.value)
            else env.order(a, b) != 0)
  {
  }

  /** The values computed for any configuration satisfy all that the laws of expressions ask of a
      valuation. */
  lemma MeaningIsValuation(c: Setup, order: seq<Symbol>)
    ensures Valuation(EnvOf(c, Meanings(c, order)))
  {
    hide Meanings, SameSign, Order;
    var m := Meanings(c, order);
    var env := EnvOf(c, m);
    forall s: Symbol
      ensures s.Type() == Boolean ==> env.tri(s) != MOD
      ensures !s.IsTri() ==> env.tri(s) == NO
    {
      MeaningsSane(c, order, s);
    }
    MeaningsSane(c, order, SymYes);
    MeaningsSane(c, order, SymMod);
    MeaningsSane(c, order, SymNo);
    forall a: Symbol, b: Symbol
      ensures a.IsTri() && b.IsTri() ==> SameSign(env.order(a, b), env.tri(a) - env.tri(b))
      ensures a.IsTri() && b.Literal? ==>
        if b.number.Some? then SameSign(env.order(a, b), env.tri(a) - b.number.value) else env.order(a, b) != 0
    {
      MeaningsSane(c, order, b);
      SaneOrder(c, m, a, b);
    }
  }

  // ---- a user setting ----

  /** What the directives promise for the value of a boolean or tristate symbol: selects force it, a
      visible prompt bounds it, implies raise it within the dependencies, and a symbol that nothing
      enables is n. */
  lemma ValueBounds(c: Setup, order: seq<Symbol>, s: Symbol)
    requires Ordered(c.k, order) && s in order && s.IsTri() && !IsFixed(s)
    ensures var m := Meanings(c, order);
      var v, vis := ValueOf(m, s).tri, VisibilityStep(c, s, m);
      var asked := vis.visible != NO && s in c.user;
      && EvalOr(Info(c.k, s).revDep, NO, EnvOf(c, m)) <= v
      && (asked ==> TriAnd(c.user[s].tri, vis.visible) <= v <= Promote(c, s, TriOr(vis.visible, vis.revDep)))
      && (!asked && vis.implied != NO ==>
            TriAnd(vis.implied, vis.dirDep) <= v <= Promote(c, s, TriOr(vis.dirDep, vis.revDep)))
      && (!asked && vis.implied == NO && vis.revDep == NO && DefaultProp(Info(c.k, s).props, EnvOf(c, m)).None? ==> v == NO)
      && (s.Type() == Boolean || c.modulesVal == NO ==> v != MOD)
  {
    hide Meanings, Eval, EnvOf, DefaultProp, Info, PromptValue, Ordered;
    MeaningsEquation(c, order, s);
  }


  /** `sym_tristate_within_range` */
  predicate WithinRange(c: Setup, s: Symbol, vis: Visibility, val: Tristate) {
    var typ := CurrentType(c, s);
    && vis.visible != NO
    && (typ == Boolean || typ == TristateType)
    && !(typ == Boolean && val == MOD)
    && !(vis.visible <= vis.revDep)
    && vis.revDep <= val <= vis.visible
  }

  /** The configuration once the user value of s is val. */
  function WithUser(c: Setup, s: Symbol, val: Tristate): Setup {
    c.(user := c.user[s := Value(if s in c.user then c.user[s].str else "", val)])
  }

  /** Changing the user value of s leaves alone every symbol that does not depend on s. */
  lemma {:induction false} OthersKeepTheirValue(c: Setup, c': Setup, order: seq<Symbol>, s: Symbol, t: Symbol)
    requires Ordered(c.k, order) && t in order
    requires OnlyUserOf(c, c', s)
    requires !Reaches(c.k, t, s)
    ensures ValueOf(Meanings(c', order), t) == ValueOf(Meanings(c, order), t)
    decreases Position(order, t)
  {
    var m, m' := Meanings(c, order), Meanings(c', order);
    if t == s {
      ReachesItself(c.k, s);
    }
    forall d | d in Deps(c.k, t)
      ensures ValueOf(m', d) == ValueOf(m, d)
    {
      PositionDecreases(c.k, order, t, d);
      if Reaches(c.k, d, s) {
        ReachesThrough(c.k, t, d, s);
      }
      OthersKeepTheirValue(c, c', order, s, d);
    }
    MeaningsEquation(c, order, t);
    MeaningsEquation(c', order, t);
    StepLocal(c, c', t, m, m');
  }

  /** What s depends on does not depend on s. */
  lemma DepsIndependent(k: Kconfig, order: seq<Symbol>, s: Symbol, d: Symbol)
    requires Ordered(k, order) && s in order && d in Deps(k, s)
    ensures d in order && !Reaches(k, d, s)
  {
    PositionDecreases(k, order, s, d);
    if Reaches(k, d, s) {
      var p :| Connects(k, p, d, s);
      PathDescends(k, order, p);
    }
  }

  lemma AcceptedValue(c: Setup, s: Symbol, val: Tristate, m: Values)
    requires !IsFixed(s) && WithinRange(c, s, VisibilityStep(c, s, m), val)
    requires s in c.user && c.user[s].tri == val
    ensures ValueStep(c, s, m) == Value("n", val)
  {
  }

  /** Setups that differ at most in the user value of s. */
  ghost predicate OnlyUserOf(c: Setup, c': Setup, s: Symbol) {
    SameGraph(c, c') && forall x :: x != s ==> SameUser(c, c', x)
  }

  lemma DepsKeepTheirValue(c: Setup, c': Setup, order: seq<Symbol>, s: Symbol)
    requires Ordered(c.k, order) && s in order && OnlyUserOf(c, c', s)
    ensures AgreeOn(Meanings(c, order), Meanings(c', order), Deps(c.k, s))
  {
    forall d | d in Deps(c.k, s)
      ensures ValueOf(Meanings(c, order), d) == ValueOf(Meanings(c', order), d)
    {
      DepsIndependent(c.k, order, s, d);
      OthersKeepTheirValue(c, c', order, s, d);
    }
  }

  lemma SetSymbolValue(c: Setup, c': Setup, order: seq<Symbol>, s: Symbol, val: Tristate)
    requires Ordered(c.k, order) && s in order && !IsFixed(s)
    requires OnlyUserOf(c, c', s) && s in c'.user && c'.user[s].tri == val
    requires WithinRange(c, s, VisibilityStep(c, s, Meanings(c, order)), val)
    ensures ValueOf(Meanings(c', order), s) == Value("n", val)
  {
    DepsKeepTheirValue(c, c', order, s);
    VisibilityLocal(c, c', s, Meanings(c, order), Meanings(c', order));
    AcceptedValue(c', s, val, Meanings(c', order));
    MeaningsEquation(c', order, s);
  }

  lemma WithUserOnly(c: Setup, s: Symbol, val: Tristate)
    ensures var c' := WithUser(c, s, val);
      OnlyUserOf(c, c', s) && s in c'.user && c'.user[s].tri == val
  {
  }

  /** A value accepted for s is the value s gets; what does not depend on s keeps its value. */
  lemma SettingHonoured(c: Setup, c': Setup, order: seq<Symbol>, s: Symbol, val: Tristate)
    requires Ordered(c.k, order) && s in order && !IsFixed(s)
    requires c' == WithUser(c, s, val)
    requires WithinRange(c, s, VisibilityStep(c, s, Meanings(c, order)), val)
    ensures ValueOf(Meanings(c', order), s) == Value("n", val)
    ensures forall t :: t in order && !Reaches(c.k, t, s) ==>
      ValueOf(Meanings(c', order), t) == ValueOf(Meanings(c, order), t)
  {
    WithUserOnly(c, s, val);
    SetSymbolValue(c, c', order, s, val);
    forall t | t in order && !Reaches(c.k, t, s)
      ensures ValueOf(Meanings(c', order), t) == ValueOf(Meanings(c, order), t)
    {
      OthersKeepTheirValue(c, c', order, s, t);
    }
  }

  /** If s has the same value under both configurations, so has every symbol. */
  lemma {:induction false} SameValueSameMeaning(c: Setup, c': Setup, order: seq<Symbol>, s: Symbol, t: Symbol)
    requires Ordered(c.k, order) && s in order && t in order
    requires OnlyUserOf(c, c', s)
    requires ValueOf(Meanings(c', order), s) == ValueOf(Meanings(c, order), s)
    ensures ValueOf(Meanings(c', order), t) == ValueOf(Meanings(c, order), t)
    decreases Position(order, t)
  {
    if t != s {
      var m, m' := Meanings(c, order), Meanings(c', order);
      forall d | d in Deps(c.k, t)
        ensures ValueOf(m', d) == ValueOf(m, d)
      {
        PositionDecreases(c.k, order, t, d);
        SameValueSameMeaning(c, c', order, s, d);
      }
      MeaningsEquation(c, order, t);
      MeaningsEquation(c', order, t);
      StepLocal(c, c', t, m, m');
    }
  }

  /** Then also everything computed from the values is the same: visibilities and expressions. */
  lemma SameValueSameCaches(c: Setup, c': Setup, order: seq<Symbol>, s: Symbol)
    requires Ordered(c.k, order) && s in order && OnlyUserOf(c, c', s)
    requires ValueOf(Meanings(c', order), s) == ValueOf(Meanings(c, order), s)
    ensures forall t :: ValueOf(Meanings(c', order), t) == ValueOf(Meanings(c, order), t)
    ensures forall t :: VisibilityStep(c', t, Meanings(c', order)) == VisibilityStep(c, t, Meanings(c, order))
    ensures forall e :: Eval(e, EnvOf(c', Meanings(c', order))) == Eval(e, EnvOf(c, Meanings(c, order)))
  {
    hide ValueStep, VisibilityStep, Eval, EnvOf;
    var m, m' := Meanings(c, order), Meanings(c', order);
    forall t: Symbol
      ensures ValueOf(m', t) == ValueOf(m, t)
    {
      if t in order {
        SameValueSameMeaning(c, c', order, s, t);
      }
    }
    forall t
      ensures VisibilityStep(c', t, m') == VisibilityStep(c, t, m)
    {
      VisibilityLocal(c, c', t, m, m');
    }
    forall e
      ensures Eval(e, EnvOf(c', m')) == Eval(e, EnvOf(c, m))
    {
      EvalLocal(e, c, c', m, m');
    }
  }

  lemma TextOfTri(c: Setup, order: seq<Symbol>, s: Symbol, v: Value)
    requires v == ValueOf(Meanings(c, order), s)
    requires s.IsTri() && !IsFixed(s)
    ensures v == Value("n", v.tri)
  {
    MeaningsSane(c, order, s);
  }

  lemma ConstantsMeanThemselves(c: Setup, order: seq<Symbol>)
    ensures forall s: Symbol :: s.IsTriConst() ==> ValueOf(Meanings(c, order), s) == BaseValue(s)
  {
    forall s: Symbol | s.IsTriConst()
      ensures ValueOf(Meanings(c, order), s) == BaseValue(s)
    {
      MeaningsSane(c, order, s);
    }
  }
}
