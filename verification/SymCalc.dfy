/** Evaluation with caches: the value of every symbol and every expression is computed once. */
module SymCalc {
  import opened Tristates
  import opened Expressions
  import opened Symbols
  import opened SymMeaning
  import opened SymPromises

  /** The symbols whose SYMBOL_VALID flag is never cleared. */
  const ALWAYS_VALID: set<Symbol> := {SymYes, SymMod, SymNo}

  class Evaluator {
    const k: Kconfig
    const modulesVal: Tristate
    const compare: (SymbolType, string, SymbolType, string) -> int
    /** The user values of the symbols with SYMBOL_DEF_USER. */
    var user: map<Symbol, Value>
    /** The symbols with SYMBOL_VALID. */
    var valid: set<Symbol>
    var curr: map<Symbol, Value>
    var vis: map<Symbol, Visibility>
    /** The values of the expressions whose `val_is_valid` is set. */
    var cache: map<Expr, Tristate>

    /** An order that the check for recursive dependencies has found. */
    ghost const order: seq<Symbol>
    /** The values without caches. */
    ghost var meaning: Values
    /** The symbols being computed. */
    ghost var busy: set<Symbol>

    constructor (k: Kconfig, modulesVal: Tristate, compare: (SymbolType, string, SymbolType, string) -> int,
                 user: map<Symbol, Value>, ghost order: seq<Symbol>)
      requires Ordered(k, order)
      ensures this.k == k && this.modulesVal == modulesVal && this.compare == compare
      ensures this.user == user && this.order == order && busy == {}
      ensures Valid()
    {
      hide VisibilityStep, ValueStep, EnvOf, Eval, Ordered;
      this.k, this.modulesVal, this.compare, this.user, this.order := k, modulesVal, compare, user, order;
      valid, vis, cache, busy := ALWAYS_VALID, map[], map[], {};
      curr := map[SymYes := BaseValue(SymYes), SymMod := BaseValue(SymMod), SymNo := BaseValue(SymNo)];
      meaning := Meanings(Setup(k, modulesVal, user, compare), order);
      new;
      ConstantsMeanThemselves(Conf(), order);
    }

    ghost function Conf(): Setup
      reads this
    {
      Setup(k, modulesVal, user, compare)
    }

    ghost function Env(): Env
      reads this
    {
      EnvOf(Conf(), meaning)
    }

    ghost predicate Computed(s: Symbol)
      reads this
    {
      && s in valid && s in curr && curr[s] == ValueOf(meaning, s)
      && (!IsFixed(s) ==> s in vis && vis[s] == VisibilityStep(Conf(), s, meaning))
    }

    /** Whatever is marked valid and is not being computed has the value it means. */
    ghost predicate Valid()
      reads this
    {
      && Ordered(k, order) && meaning == Meanings(Conf(), order)
      && busy <= valid && ALWAYS_VALID <= valid && busy !! ALWAYS_VALID
      && (forall s :: s in valid && s !in busy ==> Computed(s))
      && (forall e :: e in cache ==> cache[e] == Eval(e, Env()))
    }

    /** All these symbols come before every symbol being computed. */
    ghost predicate Before(syms: set<Symbol>, bound: nat)
      reads this
    {
      && (forall d :: d in syms ==> d in order && Position(order, d) < bound)
      && (forall b :: b in busy ==> b in order && bound <= Position(order, b))
    }

    twostate predicate Kept()
      reads this
    {
      && user == old(user) && busy == old(busy) && meaning == old(meaning) && valid >= old(valid)
      && (forall b :: b in busy && b in old(vis) ==> b in vis && vis[b] == old(vis)[b])
    }

    /** `expr_calc_value` */
    method CalcExpr(e: Expr, ghost bound: nat) returns (t: Tristate)
      requires Valid() && Before(ExprSymbols(e), bound)
      modifies this
      ensures Valid() && Kept() && t == Eval(e, Env())
      decreases bound, 1, Size(e), 1
    {
      hide Meanings, VisibilityStep, ValueStep, EnvOf;
      if e in cache {
        return cache[e];
      }
      t := CalcExprUncached(e, bound);
      cache := cache[e := t];
    }

    /** `__expr_calc_value` */
    method CalcExprUncached(e: Expr, ghost bound: nat) returns (t: Tristate)
      requires Valid() && Before(ExprSymbols(e), bound)
      modifies this
      ensures Valid() && Kept() && t == Eval(e, Env())
      decreases bound, 1, Size(e), 0
    {
      hide Meanings, VisibilityStep, ValueStep;
      match e {
        case Bin(op, left, right) =>
          var l := CalcExpr(left, bound);
          var r := CalcExpr(right, bound);
          t := Apply(op, l, r);
        case Not(x) =>
          t := CalcExpr(x, bound);
          t := TriNot(t);
        case Compare(rel, a, b) =>
          t := CalcComparison(rel, a, b, bound);
        case Sym(s) =>
          var x := CalcValue(s);
          t := x.tri;
      }
    }

    method CalcComparison(rel: Relation, a: Symbol, b: Symbol, ghost bound: nat) returns (t: Tristate)
      requires Valid() && Before({a, b}, bound)
      modifies this
      ensures Valid() && Kept() && t == Eval(Compare(rel, a, b), Env())
      decreases bound, 0
    {
      hide Meanings, VisibilityStep, ValueStep, Valid, Position;
      var x := CalcValue(a);
      var y := CalcValue(b);
      t := Truth(Holds(rel, OrderOf(a, x, b, y)));
    }

    function OrderOf(a: Symbol, x: Value, b: Symbol, y: Value): int
      reads this
    {
      Order(Setup(k, modulesVal, user, compare), a, x, b, y)
    }

    /** The value of a condition, or the value that a missing one counts as. */
    method CalcOr(e: Option<Expr>, missing: Tristate, ghost bound: nat) returns (t: Tristate)
      requires Valid() && Before(OptSymbols(e), bound)
      modifies this
      ensures Valid() && Kept() && t == EvalOr(e, missing, Env())
      decreases bound, 2, 0
    {
      hide Meanings, VisibilityStep, ValueStep, EnvOf;
      t := missing;
      if e.Some? {
        t := CalcExpr(e.value, bound);
      }
    }

    /** s is being computed and all it depends on may be computed. */
    ghost predicate InProgress(s: Symbol)
      reads this
    {
      s in busy && s in order && Before(Deps(k, s), Position(order, s))
    }

    method CalcPrompts(s: Symbol) returns (t: Tristate)
      requires Valid() && InProgress(s)
      modifies this
      ensures Valid() && Kept() && t == PromptValue(Info(k, s).props, Env())
      decreases Position(order, s), 2, 1
    {
      hide Meanings, VisibilityStep, ValueStep, EnvOf, Eval, Valid, Position;
      t := NO;
      var props := Info(k, s).props;
      for i := 0 to |props|
        invariant Valid() && Kept() && t == PromptValue(props[..i], Env())
      {
        assert props[..i + 1][..i] == props[..i];
        if props[i].HasText() {
          assert PropertySymbols(props[i]) <= PropsSymbols(props);
          var visible := CalcOr(props[i].visible, YES, Position(order, s));
          t := TriOr(t, visible);
        }
      }
      assert props[..|props|] == props;
    }

    function PromoteNow(s: Symbol, t: Tristate): Tristate {
      if t == MOD && (s.Type() == Boolean || (s.Type() == TristateType && modulesVal == NO)) then YES else t
    }

    /** The four values `sym_calc_visibility` computes. */
    method CalcConditions(s: Symbol) returns (v: Visibility)
      requires Valid() && InProgress(s)
      modifies this
      ensures Valid() && Kept() && v == VisibilityStep(Conf(), s, meaning)
      decreases Position(order, s), 2, 2
    {
      hide Meanings, ValueStep, EnvOf, Eval, Valid, Position;
      var info := Info(k, s);
      var visible := CalcPrompts(s);
      if visible == MOD && !(s.Type() == TristateType && modulesVal != NO) {
        visible := YES;
      }
      var dirDep := CalcOr(info.dirDep, YES, Position(order, s));
      var revDep := CalcOr(info.revDep, NO, Position(order, s));
      var implied := CalcOr(info.implied, NO, Position(order, s));
      v := Visibility(visible, PromoteNow(s, dirDep), PromoteNow(s, revDep), PromoteNow(s, implied));
    }

    /** `sym_calc_visibility` */
    method CalcVisibility(s: Symbol)
      requires Valid() && InProgress(s)
      modifies this
      ensures Valid() && user == old(user) && busy == old(busy) && meaning == old(meaning) && valid >= old(valid)
      ensures s in vis && vis[s] == VisibilityStep(Conf(), s, meaning)
      ensures forall b :: b in busy && b != s && b in old(vis) ==> b in vis && vis[b] == old(vis)[b]
      decreases Position(order, s), 2, 3
    {
      hide Meanings, VisibilityStep, ValueStep, EnvOf, Eval, Position;
      var v := CalcConditions(s);
      vis := vis[s := v];
    }

    lemma DefaultStep(props: seq<Property>, i: nat, env: Env)
      requires i < |props|
      ensures PropertySymbols(props[i]) <= PropsSymbols(props)
      ensures DefaultProp(props[i..], env) ==
        if props[i].kind == Default && EvalOr(props[i].visible, YES, env) != NO then Some(props[i])
        else DefaultProp(props[i + 1..], env)
    {
      assert props[i..][1..] == props[i + 1..];
    }

    lemma DefaultEnd(props: seq<Property>, env: Env)
      ensures DefaultProp(props[|props|..], env) == None
    {
    }

    /** `sym_get_default_prop` */
    method FindDefault(s: Symbol) returns (prop: Option<Property>)
      requires Valid() && InProgress(s)
      modifies this
      ensures Valid() && Kept() && prop == DefaultProp(Info(k, s).props, Env())
      ensures prop.Some? ==> OptSymbols(prop.value.expr) <= Deps(k, s) && OptSymbols(prop.value.visible) <= Deps(k, s)
      decreases Position(order, s), 2, 1
    {
      hide Meanings, VisibilityStep, ValueStep, EnvOf, Eval, Valid, Position, DefaultProp, PropsSymbols;
      prop := None;
      var props := Info(k, s).props;
      var i := 0;
      while i < |props|
        invariant 0 <= i <= |props|
        invariant Valid() && Kept() && DefaultProp(props, Env()) == DefaultProp(props[i..], Env())
      {
        DefaultStep(props, i, Env());
        if props[i].kind == Default {
          var visible := CalcOr(props[i].visible, YES, Position(order, s));
          if visible != NO {
            return Some(props[i]);
          }
        }
        i := i + 1;
      }
      DefaultEnd(props, Env());
    }

    ghost predicate Seen(s: Symbol)
      reads this
    {
      InProgress(s) && s in vis && vis[s] == VisibilityStep(Conf(), s, meaning)
    }

    method CalcDefaultTri(s: Symbol) returns (t: Tristate)
      requires Valid() && Seen(s)
      modifies this
      ensures Valid() && Kept() && t == DefaultTri(Conf(), s, meaning, vis[s])
      decreases Position(order, s), 2, 4
    {
      hide Meanings, VisibilityStep, ValueStep, EnvOf, Eval, Valid, Position;
      t := NO;
      var prop := FindDefault(s);
      if prop.Some? {
        var val := CalcOr(prop.value.expr, YES, Position(order, s));
        var visible := CalcOr(prop.value.visible, YES, Position(order, s));
        t := TriAnd(val, visible);
      }
      if vis[s].implied != NO {
        t := TriOr(t, vis[s].implied);
        t := TriAnd(t, vis[s].dirDep);
      }
    }

    /** The value of a boolean or tristate symbol. */
    method CalcTri(s: Symbol) returns (t: Tristate)
      requires Valid() && Seen(s)
      modifies this
      ensures Valid() && Kept() && t == TriStep(Conf(), s, meaning)
      decreases Position(order, s), 2, 5
    {
      hide Meanings, VisibilityStep, ValueStep, EnvOf, Eval, Valid, Position, DefaultTri;
      if vis[s].visible != NO && s in user {
        t := TriAnd(user[s].tri, vis[s].visible);
      } else {
        t := CalcDefaultTri(s);
      }
      t := TriOr(t, vis[s].revDep);
      t := PromoteNow(s, t);
    }

    /** The value of a string, int or hex symbol. */
    method CalcStr(s: Symbol) returns (str: string)
      requires Valid() && Seen(s)
      modifies this
      ensures Valid() && Kept() && str == StrStep(Conf(), s, meaning)
      decreases Position(order, s), 2, 5
    {
      hide Meanings, VisibilityStep, ValueStep, EnvOf, Eval, Valid, Position;
      str := BaseValue(s).str;
      if vis[s].visible != NO && s in user {
        return user[s].str;
      }
      var prop := FindDefault(s);
      if prop.Some? && PropSymbol(prop.value).Some? {
        var ds := PropSymbol(prop.value).value;
        assert ds in OptSymbols(prop.value.expr);
        var x := CalcValue(ds);
        str := x.str;
      }
    }

    /** The part of `sym_calc_value` between marking the symbol valid and storing its value. */
    method CalcNew(s: Symbol) returns (v: Value)
      requires Valid() && InProgress(s)
      modifies this
      ensures Valid() && user == old(user) && busy == old(busy) && meaning == old(meaning) && valid >= old(valid)
      ensures v == ValueStep(Conf(), s, meaning)
      ensures !IsFixed(s) ==> s in vis && vis[s] == VisibilityStep(Conf(), s, meaning)
      ensures forall b :: b in busy && b != s && b in old(vis) ==> b in vis && vis[b] == old(vis)[b]
      decreases Position(order, s), 2, 6
    {
      hide Meanings, VisibilityStep, EnvOf, Eval, Position, TriStep, StrStep;
      if s.Type() == Unknown {
        return BaseValue(s);
      }
      CalcVisibility(s);
      curr := curr[s := BaseValue(s)];
      if s.IsTri() {
        var t := CalcTri(s);
        v := Value("n", t);
      } else {
        var str := CalcStr(s);
        v := Value(str, NO);
      }
    }

    /** Marks s valid before its value is known. */
    method Enter(s: Symbol)
      requires Valid() && s in order && s !in valid
      requires forall b :: b in busy ==> b in order && Position(order, s) < Position(order, b)
      modifies this`valid, this`busy
      ensures Valid() && InProgress(s)
      ensures valid == old(valid) + {s} && busy == old(busy) + {s}
    {
      hide Meanings, VisibilityStep, ValueStep, EnvOf, Eval, Position;
      forall d | d in Deps(k, s)
        ensures d in order && Position(order, d) < Position(order, s)
      {
        PositionDecreases(k, order, s, d);
      }
      valid, busy := valid + {s}, busy + {s};
    }

    /** Stores the value of s. */
    method Leave(s: Symbol, v: Value)
      requires Valid() && s in busy && v == ValueOf(meaning, s)
      requires !IsFixed(s) ==> s in vis && vis[s] == VisibilityStep(Conf(), s, meaning)
      modifies this`curr, this`busy
      ensures Valid() && Computed(s) && curr[s] == v
      ensures busy == old(busy) - {s}
    {
      hide Meanings, VisibilityStep, ValueStep, EnvOf, Eval, Position;
      curr := curr[s := v];
      busy := busy - {s};
    }

    /** `sym_calc_value`. It is never called for a symbol that is already being computed. */
    method CalcValue(s: Symbol) returns (v: Value)
      requires Valid() && s in order && s !in busy
      requires forall b :: b in busy ==> b in order && Position(order, s) < Position(order, b)
      modifies this
      ensures Valid() && Kept() && Computed(s) && v == curr[s]
      decreases Position(order, s), 3
    {
      hide Meanings, VisibilityStep, ValueStep, EnvOf, Eval, Position, Ordered, Deps, BaseValue, IsFixed, Before;
      if s in valid {
        return curr[s];
      }
      Enter(s);
      v := CalcNew(s);
      MeaningsEquation(Conf(), order, s);
      Leave(s, v);
    }

    // ---- user settings ----

    /** `sym_clear_all_valid`, for a symbol graph in which the value of MODULES is fixed. */
    method ClearAllValid()
      requires Ordered(k, order) && meaning == Meanings(Conf(), order) && busy == {}
      requires forall s :: s in ALWAYS_VALID ==> s in curr && curr[s] == BaseValue(s)
      modifies this`valid, this`cache
      ensures Valid() && valid == ALWAYS_VALID && cache == map[]
    {
      hide Meanings, VisibilityStep, ValueStep, EnvOf, Eval;
      valid, cache := ALWAYS_VALID, map[];
      ConstantsMeanThemselves(Conf(), order);
    }

    method StoreUser(s: Symbol, val: Tristate)
      requires meaning == Meanings(Conf(), order)
      modifies this`user, this`meaning
      ensures Conf() == WithUser(old(Conf()), s, val) && meaning == Meanings(Conf(), order)
    {
      hide Meanings;
      if s !in user || user[s].tri != val {
        user := user[s := Value(if s in user then user[s].str else "", val)];
      }
      assert Conf() == WithUser(old(Conf()), s, val);
      meaning := Meanings(Conf(), order);
    }

    /** `sym_set_tristate_value`. A value is refused if and only if the user has no choice or s would
        not get that value. Once the call has succeeded, s means the value set, and what does not
        depend on s means what it did. */
    method SetTristateValue(s: Symbol, val: Tristate) returns (ok: bool)
      requires Valid() && busy == {} && s in order && !IsFixed(s) && Computed(s)
      modifies this
      ensures Valid() && busy == {}
      ensures ok == WithinRange(old(Conf()), s, old(vis[s]), val)
      ensures ok <==>
        && s.IsTri() && old(vis[s]).visible != NO && old(vis[s]).revDep < old(vis[s]).visible
        && ValueOf(Meanings(WithUser(old(Conf()), s, val), order), s) == Value("n", val)
      ensures Conf() == if ok then WithUser(old(Conf()), s, val) else old(Conf())
      ensures ok ==> ValueOf(meaning, s) == Value("n", val)
      ensures forall t :: t in order && !(ok && Reaches(k, t, s)) ==> ValueOf(meaning, t) == ValueOf(old(meaning), t)
    {
      hide Meanings, VisibilityStep, ValueStep, EnvOf, Eval, Order, BaseValue, Deps, Reaches, WithUser;
      var oldVal := curr[s].tri;
      ok := WithinRange(Setup(k, modulesVal, user, compare), s, vis[s], val);
      if s.IsTri() {
        AcceptedExactly(Conf(), order, s, val);
      } else {
        OthersRefuse(Conf(), s, vis[s], val);
      }
      if !ok {
        return;
      }
      ghost var c := Conf();
      assert s.IsTri();
      hide WithinRange;
      StoreUser(s, val);
      SettingHonoured(c, Conf(), order, s, val);
      WithUserOnly(c, s, val);
      if oldVal != val {
        ConstantsMeanThemselves(c, order);
        ClearAllValid();
      } else {
        TextOfTri(c, order, s, curr[s]);
        SameValueSameCaches(c, Conf(), order, s);
      }
    }
  }
}
