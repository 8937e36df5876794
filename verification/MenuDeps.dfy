/** Dependencies handed down the menu tree, and the test that puts entries into a submenu. */
module MenuDeps {
  import opened Tristates
  import opened Expressions
  import opened Symbols
  import opened ExprEquality
  import opened ExprDups
  import opened ExprTransform

  // ---- m stands for m && MODULES ----

  /** `rewrite_m` */
  function RewriteM(e: Expr, modules: Symbol): Expr {
    match e
    case Not(x) => Not(RewriteM(x, modules))
    case Bin(op, l, r) => Bin(op, RewriteM(l, modules), RewriteM(r, modules))
    case Sym(SymMod) => Bin(OpAnd, e, Sym(modules))
    case _ => e
  }

  /** The valuation as the author of a dependency sees it: the operand m is no more than MODULES. */
  function WithModules(env: Env, modules: Symbol): Env {
    var tri: Symbol -> Tristate :=
      (s: Symbol) => var t: Tristate := if s == SymMod then TriAnd(MOD, env.tri(modules)) else env.tri(s); t;
    Env(tri, env.order)
  }

  lemma {:induction false} RewriteMMeaning(e: Expr, modules: Symbol, env: Env)
    requires ConstantsFixed(env)
    ensures Eval(RewriteM(e, modules), env) == Eval(e, WithModules(env, modules))
  {
    match e
    case Not(x) => RewriteMMeaning(x, modules, env);
    case Bin(op, l, r) =>
      RewriteMMeaning(l, modules, env);
      RewriteMMeaning(r, modules, env);
    case _ =>
  }

  lemma {:induction false} RewriteMPlain(e: Expr, modules: Symbol, sole: Sole)
    requires PlainTests(e, sole)
    ensures PlainTests(RewriteM(e, modules), sole)
  {
    match e
    case Not(x) => RewriteMPlain(x, modules, sole);
    case Bin(op, l, r) =>
      RewriteMPlain(l, modules, sole);
      RewriteMPlain(r, modules, sole);
    case _ =>
  }

  lemma {:induction false} RewriteMUnequalYes(e: Expr, modules: Symbol)
    ensures NoUnequalYes(RewriteM(e, modules)) <==> NoUnequalYes(e)
  {
    match e
    case Not(x) => RewriteMUnequalYes(x, modules);
    case Bin(op, l, r) =>
      RewriteMUnequalYes(l, modules);
      RewriteMUnequalYes(r, modules);
    case _ =>
  }

  lemma {:induction false} TransformPlain(e: Expr, sole: Sole)
    requires PlainTests(e, sole)
    ensures PlainTests(Transform(e), sole)
    decreases Weight(e)
  {
    match e
    case Bin(op, l, r) =>
      TransformPlain(l, sole);
      TransformPlain(r, sole);
    case Not(x) =>
      TransformPlain(x, sole);
      if Transform(x).Bin? {
        var b := Transform(x);
        TransformPlain(DeMorgan(b.op, b.left, b.right), sole);
      }
    case _ =>
  }

  // ---- propagation ----

  predicate PlainOpt(e: Option<Expr>, sole: Sole) {
    e.Some? ==> PlainTests(e.value, sole)
  }

  function OptTests(e: Option<Expr>): set<(Symbol, Symbol)> {
    match e case None => {} case Some(x) => ConstantTests(x)
  }

  function MapOpt(f: Expr -> Expr, e: Option<Expr>): Option<Expr> {
    match e case None => None case Some(x) => Some(f(x))
  }

  /** What a child's condition becomes: that of its parent and its own, rewritten and simplified. */
  function Propagate(parentDep: Option<Expr>, dep: Option<Expr>, modules: Symbol): Option<Expr> {
    MapOpt(Dups, AllocAnd(parentDep, MapOpt(e => Transform(RewriteM(e, modules)), dep)))
  }

  /** The code can propagate a condition, its rules for tests of booleans being as documented, if and
      only if the condition tests no boolean with `!= y`. */
  lemma PropagateAsWritten(dep: Expr, modules: Symbol)
    ensures TransformAsWritten(RewriteM(dep, modules))
         == if NoUnequalYes(dep) then Some(Transform(RewriteM(dep, modules))) else None
  {
    AsWrittenExact(RewriteM(dep, modules));
    RewriteMUnequalYes(dep, modules);
  }

  lemma PropagateKeeps(parentDep: Option<Expr>, dep: Option<Expr>, modules: Symbol, env: Env, sole: Sole)
    requires Valuation(env)
    requires PlainOpt(parentDep, sole) && PlainOpt(dep, sole)
    ensures PlainOpt(Propagate(parentDep, dep, modules), sole)
    ensures EvalOpt(Propagate(parentDep, dep, modules), env)
         == TriAnd(EvalOpt(parentDep, env), EvalOpt(dep, WithModules(env, modules)))
  {
    if dep.Some? {
      RewriteMMeaning(dep.value, modules, env);
      RewriteMPlain(dep.value, modules, sole);
      TransformMeaning(RewriteM(dep.value, modules), env);
      TransformPlain(RewriteM(dep.value, modules), sole);
    }
    var whole := AllocAnd(parentDep, MapOpt(e => Transform(RewriteM(e, modules)), dep));
    if whole.Some? {
      DupsKeeps(whole.value, env, sole);
    }
  }

  lemma PropagateMeaning(parentDep: Option<Expr>, dep: Option<Expr>, modules: Symbol, env: Env)
    requires Valuation(env)
    requires TestsApart(OptTests(parentDep) + OptTests(dep))
    ensures EvalOpt(Propagate(parentDep, dep, modules), env)
         == TriAnd(EvalOpt(parentDep, env), EvalOpt(dep, WithModules(env, modules)))
  {
    var tests := OptTests(parentDep) + OptTests(dep);
    OptIsPlain(parentDep, tests);
    OptIsPlain(dep, tests);
    PropagateKeeps(parentDep, dep, modules, env, SoleOf(tests));
  }

  lemma OptIsPlain(e: Option<Expr>, tests: set<(Symbol, Symbol)>)
    requires TestsApart(tests) && OptTests(e) <= tests
    ensures PlainOpt(e, SoleOf(tests))
  {
    if e.Some? {
      ApartIsPlain(e.value, tests);
    }
  }

  /** The condition of the last entry of a path from the root, each entry having handed its own down. */
  function PathDep(deps: seq<Option<Expr>>, modules: Symbol): Option<Expr> {
    if deps == [] then None
    else Propagate(PathDep(deps[..|deps| - 1], modules), deps[|deps| - 1], modules)
  }

  function LeastValue(deps: seq<Option<Expr>>, env: Env): Tristate {
    if deps == [] then YES else TriAnd(LeastValue(deps[..|deps| - 1], env), EvalOpt(deps[|deps| - 1], env))
  }

  function PathTests(deps: seq<Option<Expr>>): set<(Symbol, Symbol)> {
    set d, t | d in deps && t in OptTests(d) :: t
  }

  lemma {:induction false} PathDepKeeps(deps: seq<Option<Expr>>, modules: Symbol, env: Env, sole: Sole)
    requires Valuation(env)
    requires forall d :: d in deps ==> PlainOpt(d, sole)
    ensures PlainOpt(PathDep(deps, modules), sole)
    ensures EvalOpt(PathDep(deps, modules), env) == LeastValue(deps, WithModules(env, modules))
  {
    if deps != [] {
      PathDepKeeps(deps[..|deps| - 1], modules, env, sole);
      PropagateKeeps(PathDep(deps[..|deps| - 1], modules), deps[|deps| - 1], modules, env, sole);
    }
  }

  /** After propagation an entry's condition is worth the least of the conditions written along the
      path to it. */
  lemma PathDepMeaning(deps: seq<Option<Expr>>, modules: Symbol, env: Env)
    requires Valuation(env)
    requires TestsApart(PathTests(deps))
    ensures EvalOpt(PathDep(deps, modules), env) == LeastValue(deps, WithModules(env, modules))
  {
    forall d | d in deps
      ensures PlainOpt(d, SoleOf(PathTests(deps)))
    {
      OptIsPlain(d, PathTests(deps));
    }
    PathDepKeeps(deps, modules, env, SoleOf(PathTests(deps)));
  }

  // ---- automatic submenus ----

  /** `expr_depends_symbol` */
  predicate DependsSymbol(e: Expr, s: Symbol) {
    match e
    case Bin(OpAnd, l, r) => DependsSymbol(l, s) || DependsSymbol(r, s)
    case Sym(a) => a == s
    case Compare(Equal, a, b) => a == s && (b == SymYes || b == SymMod)
    case Compare(Unequal, a, b) => a == s && b == SymNo
    case _ => false
  }

  /** `e != n`, simplified. */
  function IsOn(e: Option<Expr>): Expr {
    Dups(Transform(TransCompareOpt(e, false, SymNo)))
  }

  /** Whether an entry that follows symbol s, with condition dep, goes into the submenu of s, whose
      own prompt has the condition base. */
  predicate InSubmenu(s: Symbol, base: Option<Expr>, dep: Option<Expr>) {
    && dep.Some? && ContainsSymbol(dep.value, s)
    && (DependsSymbol(dep.value, s) || EliminateEq(IsOn(dep), IsOn(base)).e2 == Sym(SymYes))
  }

  /** Nothing that the translation of `e != n` tests goes wrong when it is simplified. */
  predicate Comparable(e: Option<Expr>) {
    TestsApart(ConstantTests(TransCompareOpt(e, false, SymNo)))
  }

  /** That is so whenever e itself tests no tristate symbol against a literal in disguise. */
  lemma {:induction false} ComparableTests(e: Expr, equal: bool)
    requires forall t :: t in ConstantTests(e) ==> !Disguised(t.1)
    ensures forall t :: t in ConstantTests(TransCompare(e, equal, SymNo)) ==> !Disguised(t.1)
  {
    match e
    case Bin(_, l, r) =>
      ComparableTests(l, true);
      ComparableTests(r, true);
    case Not(x) =>
      ComparableTests(x, !equal);
    case _ =>
  }

  lemma ComparableWithoutDisguise(e: Option<Expr>)
    requires forall t :: t in OptTests(e) ==> !Disguised(t.1)
    ensures Comparable(e)
  {
    if e.Some? {
      ComparableTests(e.value, false);
    }
  }

  predicate RightOpt(e: Option<Expr>, env: Env) {
    e.Some? ==> Right(e.value, SymNo, env)
  }

  /** The simplified `e != n` says whether e is on, if and only if its translation is right. */
  lemma IsOnExact(e: Option<Expr>, env: Env)
    requires Valuation(env) && Comparable(e)
    ensures Eval(IsOn(e), env) == Truth(EvalOpt(e, env) != NO) <==> RightOpt(e, env)
    ensures Eval(IsOn(e), env) != MOD
  {
    var t := TransCompareOpt(e, false, SymNo);
    if e.Some? {
      TransCompareExact(e.value, false, SymNo, env);
    }
    TransformMeaning(t, env);
    ApartIsPlain(t, ConstantTests(t));
    TransformPlain(t, SoleOf(ConstantTests(t)));
    DupsKeeps(Transform(t), env, SoleOf(ConstantTests(t)));
  }

  lemma {:induction false} DependsMeaning(e: Expr, s: Symbol, env: Env)
    requires Valuation(env) && s.IsTri()
    requires DependsSymbol(e, s) && Eval(e, env) != NO
    ensures env.tri(s) != NO
  {
    match e
    case Bin(OpAnd, l, r) =>
      if DependsSymbol(l, s) {
        DependsMeaning(l, s, env);
      } else {
        DependsMeaning(r, s, env);
      }
    case Compare(_, a, b) =>
      assert SameSign(env.order(a, b), env.tri(a) - env.tri(b));
    case _ =>
  }

  /** An entry taken into the submenu of s can only be on while s is on, or while the prompt of s is:
      wherever the translations of the two conditions are right. */
  lemma InSubmenuSound(s: Symbol, base: Option<Expr>, dep: Option<Expr>, env: Env)
    requires Valuation(env) && s.IsTri()
    requires Comparable(base) && Comparable(dep)
    requires RightOpt(base, env) && RightOpt(dep, env)
    requires InSubmenu(s, base, dep)
    ensures EvalOpt(dep, env) != NO ==> env.tri(s) != NO || EvalOpt(base, env) != NO
  {
    if DependsSymbol(dep.value, s) {
      if Eval(dep.value, env) != NO {
        DependsMeaning(dep.value, s, env);
      }
    } else {
      EliminatedToYesIsWeaker(IsOn(dep), IsOn(base), env);
      IsOnExact(dep, env);
      IsOnExact(base, env);
    }
  }

  /** With booleans and tristates as operands, an entry and a prompt that are y or n are safe. */
  lemma InSubmenuOfDecided(s: Symbol, base: Option<Expr>, dep: Option<Expr>, env: Env)
    requires Valuation(env) && s.IsTri()
    requires Comparable(base) && Comparable(dep)
    requires (base.Some? ==> TriOperands(base.value)) && (dep.Some? ==> TriOperands(dep.value))
    requires InSubmenu(s, base, dep)
    ensures EvalOpt(dep, env) == YES ==> env.tri(s) != NO || EvalOpt(base, env) != NO
  {
    if EvalOpt(dep, env) == YES && EvalOpt(base, env) == NO {
      RightOfTristates(dep.value, SymNo, env);
      RightOfTristates(base.value, SymNo, env);
      InSubmenuSound(s, base, dep, env);
    }
  }

  // ---- which entries are taken ----

  /** One operand of the expression's outermost && says that s is on. */
  predicate SaysOn(x: Expr, s: Symbol) {
    x == Sym(s) || x == Compare(Equal, s, SymYes) || x == Compare(Equal, s, SymMod) || x == Compare(Unequal, s, SymNo)
  }

  lemma {:induction false} DependsExactly(e: Expr, s: Symbol)
    ensures DependsSymbol(e, s) <==> exists x :: x in Operands(OpAnd, e) && SaysOn(x, s)
  {
    if IsOp(OpAnd, e) {
      DependsExactly(e.left, s);
      DependsExactly(e.right, s);
      var l, r := Operands(OpAnd, e.left), Operands(OpAnd, e.right);
      assert forall x :: x in l + r <==> x in l || x in r;
    } else {
      assert Operands(OpAnd, e) == [e] && e in [e];
      assert DependsSymbol(e, s) <==> SaysOn(e, s);
    }
  }

  /** An entry that depends on s like that is taken, whatever the prompt of s depends on. */
  lemma {:induction false} DependentTaken(s: Symbol, base: Option<Expr>, dep: Expr)
    requires exists x :: x in Operands(OpAnd, dep) && SaysOn(x, s)
    ensures InSubmenu(s, base, Some(dep))
  {
    DependsExactly(dep, s);
    DependingContains(dep, s);
  }

  lemma {:induction false} DependingContains(e: Expr, s: Symbol)
    requires DependsSymbol(e, s)
    ensures ContainsSymbol(e, s)
  {
    if e.Bin? {
      if DependsSymbol(e.left, s) {
        DependingContains(e.left, s);
      } else {
        DependingContains(e.right, s);
      }
    }
  }

  /** An entry that does not mention s is not taken. */
  lemma UnrelatedLeft(s: Symbol, base: Option<Expr>, dep: Expr)
    requires s !in ExprSymbols(dep)
    ensures !InSubmenu(s, base, Some(dep)) && !InSubmenu(s, base, None)
  {
    SymbolsAreContained(dep, s);
  }

  const R := Config("R", TristateType)
  const ON_R := Compare(Unequal, R, SymNo)

  lemma SupersetTransform()
    ensures Transform(TransCompare(Bin(OpAnd, Bin(OpOr, Sym(S), Sym(Q)), Sym(R)), false, SymNo)) == Bin(OpAnd, EITHER_ON, ON_R)
    ensures Transform(TransCompare(Bin(OpOr, Sym(S), Sym(Q)), false, SymNo)) == EITHER_ON
    ensures Transform(TransCompare(Sym(R), false, SymNo)) == ON_R
  {
    var or1 := Bin(OpOr, Sym(S), Sym(Q));
    var noneOn, offR := Bin(OpAnd, Compare(Equal, S, SymNo), Compare(Equal, Q, SymNo)), Compare(Equal, R, SymNo);
    assert TransCompare(or1, true, SymNo) == noneOn && TransCompare(or1, false, SymNo) == Not(noneOn);
    assert TransCompare(Bin(OpAnd, or1, Sym(R)), false, SymNo) == Not(Bin(OpOr, noneOn, offR));
    assert Transform(noneOn) == noneOn && Transform(Not(noneOn)) == EITHER_ON && Transform(Not(offR)) == ON_R;
  }

  lemma SupersetOn()
    ensures IsOn(Some(Bin(OpAnd, Bin(OpOr, Sym(S), Sym(Q)), Sym(R)))) == Bin(OpAnd, EITHER_ON, ON_R)
    ensures IsOn(Some(Bin(OpOr, Sym(S), Sym(Q)))) == EITHER_ON
    ensures IsOn(Some(Sym(R))) == ON_R
  {
    hide Dups, Transform, TransCompare;
    SupersetTransform();
    SupersetDups();
  }

  lemma SupersetDups()
    ensures Dups(EITHER_ON) == EITHER_ON && Dups(ON_R) == ON_R
    ensures Dups(Bin(OpAnd, EITHER_ON, ON_R)) == Bin(OpAnd, EITHER_ON, ON_R)
  {
    var onS, onQ := Compare(Unequal, S, SymNo), Compare(Unequal, Q, SymNo);
    LeafStays(onS);
    LeafStays(onQ);
    LeafStays(ON_R);
    assert Join(OpOr, onS, onQ) == None;
    assert FinishPass(OpOr, onS, onQ) == Pass(EITHER_ON, 0);
    assert Dups(EITHER_ON) == EITHER_ON;
    assert Join(OpAnd, EITHER_ON, ON_R) == None;
  }

  /** The two sides of the superset test: with S depending on R, `(S || Q) && R` is taken, and `S || Q`,
      which may be on without R, is not. */
  lemma SupersetTaken()
    ensures InSubmenu(S, Some(Sym(R)), Some(Bin(OpAnd, Bin(OpOr, Sym(S), Sym(Q)), Sym(R))))
    ensures !InSubmenu(S, Some(Sym(R)), Some(Bin(OpOr, Sym(S), Sym(Q))))
  {
    hide IsOn, EliminateEq;
    SupersetOn();
    SupersetEliminated();
    assert ContainsSymbol(Bin(OpOr, Sym(S), Sym(Q)), S);
  }

  lemma SupersetEliminated()
    ensures EliminateEq(Bin(OpAnd, EITHER_ON, ON_R), ON_R).e2 == Sym(SymYes)
    ensures EliminateEq(EITHER_ON, ON_R).e2 == ON_R
  {
    var yes := Sym(SymYes);
    var onS, onQ := Compare(Unequal, S, SymNo), Compare(Unequal, Q, SymNo);
    assert ExprEq(ON_R, ON_R) && !ExprEq(EITHER_ON, ON_R) && !ExprEq(onS, ON_R) && !ExprEq(onQ, ON_R);
    assert CancelLeaves(OpAnd, EITHER_ON, ON_R) == Rewritten(EITHER_ON, ON_R, 0);
    assert CancelLeaves(OpAnd, ON_R, ON_R) == Rewritten(yes, yes, 1);
    assert CancelOperands(OpAnd, EITHER_ON, ON_R) == Rewritten(EITHER_ON, ON_R, 0);
    assert CancelOperands(OpAnd, ON_R, ON_R) == Rewritten(yes, yes, 1);
    assert CancelOperands(OpAnd, Bin(OpAnd, EITHER_ON, ON_R), ON_R) == Rewritten(Bin(OpAnd, EITHER_ON, yes), yes, 1);
    assert CancelOperands(OpOr, onS, ON_R) == Rewritten(onS, ON_R, 0);
    assert CancelOperands(OpOr, onQ, ON_R) == Rewritten(onQ, ON_R, 0);
    assert CancelOperands(OpOr, EITHER_ON, ON_R) == Rewritten(EITHER_ON, ON_R, 0);
  }

  // ---- where the translations are wrong ----

  const A := Config("A", TristateType)
  const S := Config("S", TristateType)
  const Q := Config("Q", TristateType)
  const EITHER_ON := Bin(OpOr, Compare(Unequal, S, SymNo), Compare(Unequal, Q, SymNo))

  /** The entry depends on `!X && (S || Q)`, the prompt of S on `X = n`. */
  function EntryDep(x: Symbol): Expr {
    Bin(OpAnd, Not(Sym(x)), Bin(OpOr, Sym(S), Sym(Q)))
  }

  function PromptDep(x: Symbol): Expr {
    Compare(Equal, x, SymNo)
  }

  lemma EntryTransform(x: Symbol)
    requires x.Type() != Boolean
    ensures Transform(TransCompare(EntryDep(x), false, SymNo)) == Bin(OpAnd, PromptDep(x), EITHER_ON)
    ensures Transform(TransCompare(PromptDep(x), false, SymNo)) == PromptDep(x)
  {
    var noneOn := Bin(OpAnd, Compare(Equal, S, SymNo), Compare(Equal, Q, SymNo));
    assert TransCompare(Bin(OpOr, Sym(S), Sym(Q)), true, SymNo) == noneOn;
    assert TransCompare(Not(Sym(x)), true, SymNo) == Compare(Unequal, x, SymNo);
    assert TransCompare(EntryDep(x), false, SymNo) == Not(Bin(OpOr, Compare(Unequal, x, SymNo), noneOn));
    assert Transform(noneOn) == noneOn;
    assert Transform(Not(noneOn)) == EITHER_ON;
    assert Transform(Not(Compare(Unequal, x, SymNo))) == PromptDep(x);
    assert Transform(EITHER_ON) == EITHER_ON && Transform(PromptDep(x)) == PromptDep(x);
  }

  lemma EntryDups(x: Symbol)
    ensures Dups(PromptDep(x)) == PromptDep(x)
    ensures Dups(Bin(OpAnd, PromptDep(x), EITHER_ON)) == Bin(OpAnd, PromptDep(x), EITHER_ON)
  {
    var onS, onQ := Compare(Unequal, S, SymNo), Compare(Unequal, Q, SymNo);
    LeafStays(onS);
    LeafStays(onQ);
    LeafStays(PromptDep(x));
    assert Join(OpOr, onS, onQ) == None;
    assert FinishPass(OpOr, onS, onQ) == Pass(EITHER_ON, 0);
    assert Dups(EITHER_ON) == EITHER_ON;
    assert Join(OpAnd, PromptDep(x), EITHER_ON) == None;
  }

  lemma EntryEliminated(x: Symbol)
    ensures EliminateEq(Bin(OpAnd, PromptDep(x), EITHER_ON), PromptDep(x)).e2 == Sym(SymYes)
  {
    var yes, base := Sym(SymYes), PromptDep(x);
    assert ExprEq(base, base) && !ExprEq(EITHER_ON, yes);
    assert CancelLeaves(OpAnd, base, base) == Rewritten(yes, yes, 1);
    assert CancelLeaves(OpAnd, EITHER_ON, yes) == Rewritten(EITHER_ON, yes, 0);
    assert CancelOperands(OpAnd, base, base) == Rewritten(yes, yes, 1);
    assert CancelOperands(OpAnd, EITHER_ON, yes) == Rewritten(EITHER_ON, yes, 0);
    assert CancelOperands(OpAnd, Bin(OpAnd, base, EITHER_ON), base) == Rewritten(Bin(OpAnd, yes, EITHER_ON), yes, 1);
  }

  /** Such an entry behind S goes into the submenu of S. */
  lemma EntryTaken(x: Symbol)
    requires x.Type() != Boolean
    ensures InSubmenu(S, Some(PromptDep(x)), Some(EntryDep(x)))
  {
    hide Transform, TransCompare, Dups, EliminateEq;
    EntryTransform(x);
    EntryDups(x);
    EntryEliminated(x);
    assert ContainsSymbol(Bin(OpOr, Sym(S), Sym(Q)), S);
  }

  /** A is m, Q is y, S is n. */
  const HIDING: string -> Tristate := name => if name == "A" then MOD else if name == "Q" then YES else NO

  lemma HidingValues()
    ensures var env := NamedEnv(HIDING);
      env.tri(A) == MOD && env.tri(Q) == YES && env.tri(S) == NO && env.order(A, SymNo) == 1
  {
  }

  lemma EntryValue(x: Symbol, env: Env)
    ensures Eval(EntryDep(x), env) == TriAnd(TriNot(env.tri(x)), TriOr(env.tri(S), env.tri(Q)))
    ensures Eval(PromptDep(x), env) == Truth(env.order(x, SymNo) == 0)
  {
    assert Eval(Bin(OpOr, Sym(S), Sym(Q)), env) == TriOr(env.tri(S), env.tri(Q));
    assert Eval(Not(Sym(x)), env) == TriNot(env.tri(x));
  }

  /** How the value m goes wrong: with A = m the entry is on although S and the prompt of S are not. */
  lemma ModuleBehindNegation()
    ensures InSubmenu(S, Some(PromptDep(A)), Some(EntryDep(A)))
    ensures var env := NamedEnv(HIDING);
      Valuation(env) && Eval(EntryDep(A), env) == MOD && env.tri(S) == NO && Eval(PromptDep(A), env) == NO
  {
    hide InSubmenu, Valuation, NamedEnv, Eval;
    EntryTaken(A);
    NamedEnvIsValuation(HIDING);
    HidingValues();
    EntryValue(A, NamedEnv(HIDING));
  }

  const FOO := Config("FOO", Unknown)

  lemma UndefinedText(t: string -> Tristate)
    ensures NamedEnv(t).tri(FOO) == NO && NamedEnv(t).order(FOO, SymNo) == 1
  {
    assert !FOO.IsTri() && FOO != SymNo;
  }

  /** How an operand that is neither boolean nor tristate goes wrong: an undefined symbol FOO is n, but
      its text is not "n". The entry is y although S and the prompt of S are n. */
  lemma UndefinedBehindNegation()
    ensures InSubmenu(S, Some(PromptDep(FOO)), Some(EntryDep(FOO)))
    ensures var env := NamedEnv(HIDING);
      Valuation(env) && Eval(EntryDep(FOO), env) == YES && env.tri(S) == NO && Eval(PromptDep(FOO), env) == NO
  {
    hide InSubmenu, Valuation, NamedEnv, Eval;
    EntryTaken(FOO);
    NamedEnvIsValuation(HIDING);
    HidingValues();
    UndefinedText(HIDING);
    EntryValue(FOO, NamedEnv(HIDING));
  }
}
