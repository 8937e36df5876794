/** What the definition of a symbol promises about its value: defaults, prompts and settings. */
module SymPromises {
  import opened Tristates
  import opened Expressions
  import opened Symbols
  import opened SymMeaning

  // ---- which default counts ----

  /** Property i is a default whose condition is on, and no property before it is. */
  predicate IsFirstActive(props: seq<Property>, i: nat, env: Env) {
    && i < |props| && props[i].kind == Default && EvalOpt(props[i].visible, env) != NO
    && forall j: nat :: j < i ==> !(props[j].kind == Default && EvalOpt(props[j].visible, env) != NO)
  }

  predicate NoneActive(props: seq<Property>, env: Env) {
    forall p :: p in props ==> !(p.kind == Default && EvalOpt(p.visible, env) != NO)
  }

  lemma {:induction false} FirstActiveFound(props: seq<Property>, i: nat, env: Env)
    requires IsFirstActive(props, i, env)
    ensures DefaultProp(props, env) == Some(props[i])
  {
    if i > 0 {
      assert forall j: nat :: j < i - 1 ==> props[1..][j] == props[j + 1];
      FirstActiveFound(props[1..], i - 1, env);
    }
  }

  lemma {:induction false} NoneFound(props: seq<Property>, env: Env)
    requires NoneActive(props, env)
    ensures DefaultProp(props, env) == None
  {
    if props != [] {
      NoneFound(props[1..], env);
    }
  }

  /** A user value counts while the prompt is visible. */
  predicate Asked(c: Setup, s: Symbol, m: Values) {
    VisibilityStep(c, s, m).visible != NO && s in c.user
  }

  /** The value of a boolean or tristate symbol whose user value does not count, from what its default
      is worth. */
  function FromDefault(c: Setup, s: Symbol, worth: Tristate, vis: Visibility): Tristate {
    var implied := if vis.implied == NO then worth else TriAnd(TriOr(worth, vis.implied), vis.dirDep);
    Promote(c, s, TriOr(implied, vis.revDep))
  }

  /** A boolean or tristate symbol without a counting user value has the lesser of value and condition
      of its first active default, or n without one; raised by implies within the dependencies, and
      by selects. */
  lemma DefaultValue(c: Setup, order: seq<Symbol>, s: Symbol, i: nat)
    requires Ordered(c.k, order) && s in order && s.IsTri() && !IsFixed(s)
    requires !Asked(c, s, Meanings(c, order))
    ensures var m, props := Meanings(c, order), Info(c.k, s).props;
      var env, v, vis := EnvOf(c, m), ValueOf(m, s), VisibilityStep(c, s, m);
      && (IsFirstActive(props, i, env) ==>
            v == Value("n", FromDefault(c, s, TriAnd(EvalOpt(props[i].expr, env), EvalOpt(props[i].visible, env)), vis)))
      && (NoneActive(props, env) ==> v == Value("n", FromDefault(c, s, NO, vis)))
  {
    hide Meanings, Eval, EnvOf, DefaultProp, Info, PromptValue, Ordered, IsFirstActive, NoneActive, VisibilityStep;
    var m, props := Meanings(c, order), Info(c.k, s).props;
    MeaningsEquation(c, order, s);
    if IsFirstActive(props, i, EnvOf(c, m)) {
      FirstActiveFound(props, i, EnvOf(c, m));
      FirstActiveInside(props, i, EnvOf(c, m));
    }
    if NoneActive(props, EnvOf(c, m)) {
      NoneFound(props, EnvOf(c, m));
    }
  }

  lemma FirstActiveInside(props: seq<Property>, i: nat, env: Env)
    requires IsFirstActive(props, i, env)
    ensures i < |props|
  {
  }

  lemma NamedSymbol(p: Property, d: Symbol)
    ensures PropSymbol(p) == Some(d) <==> p.expr == Some(Sym(d))
  {
  }

  /** A string, int or hex symbol has its user value while the prompt is visible; otherwise the text of
      the symbol that its first active default names; otherwise the text of one that nothing sets. */
  lemma DefaultText(c: Setup, order: seq<Symbol>, s: Symbol, i: nat)
    requires Ordered(c.k, order) && s in order && !s.IsTri() && !IsFixed(s)
    ensures var m, props := Meanings(c, order), Info(c.k, s).props;
      var env, v := EnvOf(c, m), ValueOf(m, s);
      && (Asked(c, s, m) ==> v == Value(c.user[s].str, NO))
      && (!Asked(c, s, m) && IsFirstActive(props, i, env) ==>
            if PropSymbol(props[i]).Some? then v == Value(ValueOf(m, PropSymbol(props[i]).value).str, NO)
            else v == Value(BaseValue(s).str, NO))
      && (!Asked(c, s, m) && NoneActive(props, env) ==> v == Value(BaseValue(s).str, NO))
  {
    hide Meanings, Eval, EnvOf, DefaultProp, Info, PromptValue, Ordered, IsFirstActive, NoneActive, BaseValue, VisibilityStep;
    var m, props := Meanings(c, order), Info(c.k, s).props;
    MeaningsEquation(c, order, s);
    if IsFirstActive(props, i, EnvOf(c, m)) {
      FirstActiveFound(props, i, EnvOf(c, m));
      FirstActiveInside(props, i, EnvOf(c, m));
    }
    if NoneActive(props, EnvOf(c, m)) {
      NoneFound(props, EnvOf(c, m));
    }
  }

  // ---- visibility ----

  /** The condition under which a property shows a text; n without one. */
  function Shown(p: Property, env: Env): Tristate {
    if p.HasText() then EvalOpt(p.visible, env) else NO
  }

  lemma {:induction false} PromptIsBest(props: seq<Property>, env: Env)
    ensures forall p :: p in props ==> Shown(p, env) <= PromptValue(props, env)
    ensures PromptValue(props, env) != NO ==> exists p :: p in props && Shown(p, env) == PromptValue(props, env)
  {
    if props != [] {
      var rest, last := props[..|props| - 1], props[|props| - 1];
      PromptIsBest(rest, env);
      assert forall p :: p in props <==> p in rest || p == last;
      assert Shown(last, env) <= PromptValue(props, env);
      if PromptValue(props, env) == PromptValue(rest, env) && PromptValue(props, env) != NO {
        var p :| p in rest && Shown(p, env) == PromptValue(rest, env);
        assert p in props;
      }
    }
  }

  /** A symbol is as visible as the best of its prompts, and m only where it can be m itself; missing
      dependencies are y, missing selects and implies n. */
  lemma VisibilityMeaning(c: Setup, s: Symbol, m: Values)
    ensures var i, env, vis := Info(c.k, s), EnvOf(c, m), VisibilityStep(c, s, m);
      && (vis.visible != NO <==> exists p :: p in i.props && Shown(p, env) != NO)
      && (forall p :: p in i.props ==> Shown(p, env) <= vis.visible)
      && (vis.visible == MOD ==> CurrentType(c, s) == TristateType)
      && (CurrentType(c, s) == TristateType && vis.visible != NO ==>
            exists p :: p in i.props && Shown(p, env) == vis.visible)
      && vis.dirDep == Promote(c, s, if i.dirDep.None? then YES else Eval(i.dirDep.value, env))
      && vis.revDep == Promote(c, s, if i.revDep.None? then NO else Eval(i.revDep.value, env))
      && vis.implied == Promote(c, s, if i.implied.None? then NO else Eval(i.implied.value, env))
  {
    hide Eval, EnvOf, Info, PromptValue, Promote;
    PromptIsBest(Info(c.k, s).props, EnvOf(c, m));
  }

  // ---- which settings are accepted ----

  /** The value a boolean or tristate symbol has after a user value was stored for it. */
  lemma StoredValue(c: Setup, order: seq<Symbol>, s: Symbol, val: Tristate)
    requires Ordered(c.k, order) && s in order && s.IsTri() && !IsFixed(s)
    ensures var c', vis := WithUser(c, s, val), VisibilityStep(c, s, Meanings(c, order));
      vis.visible != NO ==>
        ValueOf(Meanings(c', order), s) == Value("n", Promote(c, s, TriOr(TriAnd(val, vis.visible), vis.revDep)))
  {
    hide Meanings, VisibilityStep, Ordered, DefaultTri;
    var c', m := WithUser(c, s, val), Meanings(c, order);
    WithUserOnly(c, s, val);
    DepsKeepTheirValue(c, c', order, s);
    VisibilityLocal(c, c', s, m, Meanings(c', order));
    MeaningsEquation(c', order, s);
  }

  /** A value is accepted for a boolean or tristate symbol if and only if the user can choose at all, the
      prompt reaching above the selects, and recomputation would yield just that value. */
  lemma AcceptedExactly(c: Setup, order: seq<Symbol>, s: Symbol, val: Tristate)
    requires Ordered(c.k, order) && s in order && s.IsTri() && !IsFixed(s)
    ensures var vis := VisibilityStep(c, s, Meanings(c, order));
      WithinRange(c, s, vis, val) <==>
        && vis.visible != NO && vis.revDep < vis.visible
        && ValueOf(Meanings(WithUser(c, s, val), order), s) == Value("n", val)
  {
    var vis := VisibilityStep(c, s, Meanings(c, order));
    StoredValue(c, order, s, val);
    VisibilityMeaning(c, s, Meanings(c, order));
    hide Meanings, VisibilityStep, Ordered;
  }

  /** No other symbol accepts a tristate value. */
  lemma OthersRefuse(c: Setup, s: Symbol, vis: Visibility, val: Tristate)
    requires !s.IsTri()
    ensures !WithinRange(c, s, vis, val)
  {
  }
}
