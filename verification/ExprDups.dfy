/** Joining of redundant operands, and the loop that repeats it until nothing changes. */
module ExprDups {
  import opened Tristates
  import opened Expressions
  import opened ExprEquality

  // ---- joining two operands ----

  /** The symbol an operand of a join is about. The first operand may also be a negated test. */
  function PlainSubject(e: Expr): Option<Symbol> {
    match e
    case Compare(rel, a, _) => if rel == Equal || rel == Unequal then Some(a) else None
    case Sym(s) => Some(s)
    case _ => None
  }

  function FirstSubject(e: Expr): Option<Symbol> {
    if e.Not? then PlainSubject(e.operand) else PlainSubject(e)
  }

  function SecondSubject(e: Expr): Option<Symbol> {
    if e.Not? then (if e.operand.Sym? then Some(e.operand.sym) else None) else PlainSubject(e)
  }

  predicate IsPair(e1: Expr, e2: Expr, x: Expr, y: Expr) {
    (e1 == x && e2 == y) || (e1 == y && e2 == x)
  }

  /** The boolean or tristate symbol that both operands are about. */
  function CommonSubject(e1: Expr, e2: Expr): (r: Option<Symbol>)
    ensures r.Some? ==> r.value.IsTri()
  {
    var s := FirstSubject(e1);
    if s.Some? && s == SecondSubject(e2) && s.value.IsTri() then s else None
  }

  /** The rules of `expr_join_or` for operands that are not equal. */
  function RuleOr(e1: Expr, e2: Expr): Option<Expr> {
    if CommonSubject(e1, e2).None? then None
    else
      var a := CommonSubject(e1, e2).value;
      var isY, isM, isN := Compare(Equal, a, SymYes), Compare(Equal, a, SymMod), Compare(Equal, a, SymNo);
      if a.Type() == TristateType && IsPair(e1, e2, isY, isM) then Some(Compare(Unequal, a, SymNo))
      else if a.Type() == TristateType && IsPair(e1, e2, isY, isN) then Some(Compare(Unequal, a, SymMod))
      else if a.Type() == TristateType && IsPair(e1, e2, isM, isN) then Some(Compare(Unequal, a, SymYes))
      else if a.Type() == Boolean && IsPair(e1, e2, Not(Sym(a)), Sym(a)) then Some(Sym(SymYes))
      else None
  }

  /** `a = b` together with `a != c`, for constants b and c. */
  function JoinEqualUnequal(a: Symbol, b: Symbol, c: Symbol): Option<Expr> {
    if !b.IsConst() || !c.IsConst() then None
    else if b != c then Some(Compare(Equal, a, b))
    else Some(Sym(SymNo))
  }

  /** Two tests of a tristate symbol. */
  function RuleAndTests(a: Symbol, e1: Expr, e2: Expr): Option<Expr>
    requires e1.Compare? && e2.Compare?
  {
    var notY, notM, notN := Compare(Unequal, a, SymYes), Compare(Unequal, a, SymMod), Compare(Unequal, a, SymNo);
    if e1.rel == Equal && e2.rel == Unequal then JoinEqualUnequal(a, e1.rhs, e2.rhs)
    else if e1.rel == Unequal && e2.rel == Equal then JoinEqualUnequal(a, e2.rhs, e1.rhs)
    else if IsPair(e1, e2, notY, notN) then Some(Compare(Equal, a, SymMod))
    else if IsPair(e1, e2, notY, notM) then Some(Compare(Equal, a, SymNo))
    else if IsPair(e1, e2, notM, notN) then Some(Compare(Equal, a, SymYes))
    else None
  }

  /** The rules of `expr_join_and` for operands that are not equal. */
  function RuleAnd(e1: Expr, e2: Expr): Option<Expr> {
    if CommonSubject(e1, e2).None? then None
    else
      var a := CommonSubject(e1, e2).value;
      if IsPair(e1, e2, Sym(a), Compare(Equal, a, SymYes)) then Some(Compare(Equal, a, SymYes))
      else if IsPair(e1, e2, Sym(a), Compare(Unequal, a, SymNo)) then Some(Sym(a))
      else if IsPair(e1, e2, Sym(a), Compare(Unequal, a, SymMod)) then Some(Compare(Equal, a, SymYes))
      else if a.Type() != TristateType || !e1.Compare? || !e2.Compare? then None
      else RuleAndTests(a, e1, e2)
  }

  function Rule(op: Op, e1: Expr, e2: Expr): Option<Expr> {
    match op case OpAnd => RuleAnd(e1, e2) case OpOr => RuleOr(e1, e2)
  }

  function Join(op: Op, e1: Expr, e2: Expr): Option<Expr> {
    if ExprEq(e1, e2) then Some(e1) else Rule(op, e1, e2)
  }

  // ---- joining all operands of two expressions ----

  function JoinLeaves(op: Op, e1: Expr, e2: Expr): (w: Rewritten)
    ensures Size(w.e1) <= Size(e1)
  {
    match Join(op, e1, e2)
    case None => Rewritten(e1, e2, 0)
    case Some(joined) => Rewritten(Sym(Neutral(op)), joined, 1)
  }

  function JoinOperands(op: Op, e1: Expr, e2: Expr): (w: Rewritten)
    ensures Size(w.e1) <= Size(e1)
    decreases Size(e1), Size(e2)
  {
    if IsOp(op, e1) then
      var a := JoinOperands(op, e1.left, e2);
      var b := JoinOperands(op, e1.right, a.e2);
      Rewritten(Bin(op, a.e1, b.e1), b.e2, a.count + b.count)
    else if IsOp(op, e2) then
      var a := JoinOperands(op, e1, e2.left);
      var b := JoinOperands(op, a.e1, e2.right);
      Rewritten(b.e1, Bin(op, a.e2, b.e2), a.count + b.count)
    else
      JoinLeaves(op, e1, e2)
  }

  // ---- the measure of the loop ----

  /** Operands in the && / || skeleton. */
  function Leaves(e: Expr): (n: nat)
    ensures n >= 1
  {
    if e.Bin? then Leaves(e.left) + Leaves(e.right) else 1
  }

  /** No y or n anywhere in the && / || skeleton. */
  predicate Clean(e: Expr) {
    if e.Bin? then Clean(e.left) && Clean(e.right) else !IsYesNo(e)
  }

  predicate Normal(e: Expr) {
    IsYesNo(e) || Clean(e)
  }

  /** What a repetition lowers: the number of operands or, while that stays, whether both sides
      were already normal. */
  function Measure(e: Expr): nat {
    2 * Leaves(e) + if e.Bin? && Normal(e.left) && Normal(e.right) then 1 else 0
  }

  lemma {:induction false} EliminateYnLeaves(e: Expr)
    ensures EliminateYn(e) == e || Leaves(EliminateYn(e)) < Leaves(e)
    ensures e.Bin? && (IsYesNo(e.left) || IsYesNo(e.right)) ==> Leaves(EliminateYn(e)) < Leaves(e)
    ensures Normal(e) ==> EliminateYn(e) == e
    ensures e.Bin? && Normal(e.left) && Normal(e.right) ==> Normal(EliminateYn(e))
  {
    if e.Bin? {
      EliminateYnLeaves(e.left);
      EliminateYnLeaves(e.right);
      assert Clean(e.left) ==> !IsYesNo(e.left);
      assert Clean(e.right) ==> !IsYesNo(e.right);
    }
  }

  /** What the joins need of one another: no operand is added, a join leaves a y or n on the first
      side, and without a join nothing changes. */
  predicate Shrinks(e1: Expr, e2: Expr, w: Rewritten) {
    && Leaves(w.e1) + Leaves(w.e2) <= Leaves(e1) + Leaves(e2)
    && (w.count > 0 ==> !Clean(w.e1))
    && (w.count == 0 ==> w.e1 == e1 && w.e2 == e2)
    && (!Clean(e1) ==> !Clean(w.e1))
    && (IsYesNo(e1) ==> IsYesNo(w.e1))
  }

  lemma JoinLeavesShrinks(op: Op, e1: Expr, e2: Expr)
    requires !IsOp(op, e1)
    ensures Shrinks(e1, e2, JoinLeaves(op, e1, e2))
  {
    var joined := Join(op, e1, e2);
    assert joined.Some? ==> joined.value == e1 || Leaves(joined.value) == 1;
  }

  lemma {:induction false} JoinOperandsShrinks(op: Op, e1: Expr, e2: Expr)
    ensures Shrinks(e1, e2, JoinOperands(op, e1, e2))
    decreases Size(e1), Size(e2)
  {
    hide JoinLeaves;
    if IsOp(op, e1) {
      var a := JoinOperands(op, e1.left, e2);
      var b := JoinOperands(op, e1.right, a.e2);
      JoinOperandsShrinks(op, e1.left, e2);
      JoinOperandsShrinks(op, e1.right, a.e2);
      assert JoinOperands(op, e1, e2) == Rewritten(Bin(op, a.e1, b.e1), b.e2, a.count + b.count);
    } else if IsOp(op, e2) {
      var a := JoinOperands(op, e1, e2.left);
      var b := JoinOperands(op, a.e1, e2.right);
      JoinOperandsShrinks(op, e1, e2.left);
      JoinOperandsShrinks(op, a.e1, e2.right);
      assert JoinOperands(op, e1, e2) == Rewritten(b.e1, Bin(op, a.e2, b.e2), a.count + b.count);
    } else {
      JoinLeavesShrinks(op, e1, e2);
    }
  }

  // ---- the loop ----

  datatype Pass = Pass(e: Expr, joins: nat)

  /** The end of a pass over `e`, whose operands have become l and r. */
  function FinishPass(op: Op, l: Expr, r: Expr): Pass {
    var w := JoinOperands(op, l, r);
    Pass(EliminateYn(Bin(op, w.e1, w.e2)), w.count)
  }

  /** Normal operands end in a normal result, a smaller one, or one whose first side has become
      fit for simplification. */
  lemma FinishPassShrinks(op: Op, l: Expr, r: Expr)
    requires Normal(l) && Normal(r)
    ensures var p := FinishPass(op, l, r);
      && Leaves(p.e) <= Leaves(l) + Leaves(r)
      && (p.joins == 0 ==> Normal(p.e))
      && (IsYesNo(l) ==> Leaves(p.e) < Leaves(l) + Leaves(r))
      && (p.joins == 0 && IsYesNo(r) ==> Leaves(p.e) < Leaves(l) + Leaves(r))
      && (p.joins > 0 ==> Leaves(p.e) < Leaves(l) + Leaves(r) || (p.e.Bin? && !Normal(p.e.left)))
  {
    var w := JoinOperands(op, l, r);
    JoinOperandsShrinks(op, l, r);
    EliminateYnLeaves(Bin(op, w.e1, w.e2));
  }

  function OnePass(e: Expr): (p: Pass)
    ensures Leaves(p.e) <= Leaves(e)
    ensures p.joins > 0 ==> Measure(p.e) < Measure(e)
    ensures p.joins == 0 ==> Normal(p.e)
    ensures !Normal(e) ==> Leaves(p.e) < Leaves(e) || (p.joins > 0 && !Normal(p.e))
    decreases Measure(e), 0
  {
    match e
    case Bin(op, left, right) =>
      var l := Dups(left);
      var r := Dups(right);
      FinishPassShrinks(op, l, r);
      FinishPass(op, l, r)
    case _ => Pass(EliminateYn(e), 0)
  }

  /** `expr_eliminate_dups`: passes are repeated until one joins nothing. The result is y, n, or an
      expression without any y or n operand. */
  function Dups(e: Expr): (r: Expr)
    ensures Leaves(r) <= Leaves(e)
    ensures Normal(r)
    ensures !Normal(e) ==> Leaves(r) < Leaves(e)
    decreases Measure(e), 1
  {
    var p := OnePass(e);
    if p.joins == 0 then p.e else Dups(p.e)
  }

  // ---- the result is settled ----

  /** The operands of `e` at the level of `op`. */
  function Operands(op: Op, e: Expr): seq<Expr> {
    if IsOp(op, e) then Operands(op, e.left) + Operands(op, e.right) else [e]
  }

  predicate NoneJoin(op: Op, xs: seq<Expr>, ys: seq<Expr>) {
    forall i, j :: 0 <= i < |xs| && 0 <= j < |ys| ==> Join(op, xs[i], ys[j]).None?
  }

  lemma {:induction false} NothingJoined(op: Op, e1: Expr, e2: Expr)
    requires JoinOperands(op, e1, e2).count == 0
    ensures NoneJoin(op, Operands(op, e1), Operands(op, e2))
    decreases Size(e1), Size(e2)
  {
    if IsOp(op, e1) {
      JoinOperandsShrinks(op, e1.left, e2);
      NothingJoined(op, e1.left, e2);
      NothingJoined(op, e1.right, e2);
    } else if IsOp(op, e2) {
      JoinOperandsShrinks(op, e1, e2.left);
      NothingJoined(op, e1, e2.left);
      NothingJoined(op, e1, e2.right);
    }
  }

  /** At every level, no operand of one side can be joined with an operand of the other. */
  predicate Settled(e: Expr) {
    e.Bin? ==>
      && NoneJoin(e.op, Operands(e.op, e.left), Operands(e.op, e.right))
      && Settled(e.left)
      && Settled(e.right)
  }

  lemma {:induction false} DupsSettled(e: Expr)
    ensures Settled(Dups(e))
    decreases Measure(e)
  {
    var p := OnePass(e);
    if p.joins > 0 {
      DupsSettled(p.e);
    } else if e.Bin? {
      DupsSettled(e.left);
      DupsSettled(e.right);
      LastPass(e);
      NothingJoined(e.op, Dups(e.left), Dups(e.right));
    }
  }

  /** A pass that joins nothing puts the two operands together again, or keeps one of them. */
  lemma LastPass(e: Expr)
    requires e.Bin?
    requires OnePass(e).joins == 0
    ensures var l, r := Dups(e.left), Dups(e.right);
      && JoinOperands(e.op, l, r) == Rewritten(l, r, 0)
      && (OnePass(e).e == l || OnePass(e).e == r || OnePass(e).e == Bin(e.op, l, r))
  {
    var l, r := Dups(e.left), Dups(e.right);
    JoinOperandsShrinks(e.op, l, r);
    EliminateYnLeaves(l);
    EliminateYnLeaves(r);
  }

  /** A second run changes nothing. */
  lemma {:induction false} DupsIdempotent(e: Expr)
    ensures Dups(Dups(e)) == Dups(e)
    decreases Measure(e)
  {
    var p := OnePass(e);
    if p.joins > 0 {
      DupsIdempotent(p.e);
    } else if e.Bin? {
      DupsIdempotent(e.left);
      DupsIdempotent(e.right);
      LastPass(e);
    }
  }

  // ---- the result means the same ----

  /** A literal that reads as 0, 1 or 2: to a comparison it is n, m or y, to the join rules it is a
      constant different from these. */
  predicate Disguised(c: Symbol) {
    c.Literal? && c.number.Some? && 0 <= c.number.value <= 2
  }

  /** For some tristate symbols, the one constant they are tested against. */
  type Sole = Symbol -> Option<Symbol>

  /** A tristate symbol is tested against a literal in disguise only if that is its sole constant. */
  predicate PlainTest(rel: Relation, a: Symbol, c: Symbol, sole: Sole) {
    (rel == Equal || rel == Unequal) && a.Type() == TristateType && c.IsConst() ==>
      match sole(a)
      case Some(only) => c == only && Disguised(c)
      case None => !Disguised(c)
  }

  predicate PlainTests(e: Expr, sole: Sole) {
    match e
    case Bin(_, l, r) => PlainTests(l, sole) && PlainTests(r, sole)
    case Not(x) => PlainTests(x, sole)
    case Compare(rel, a, b) => PlainTest(rel, a, b, sole)
    case Sym(_) => true
  }

  lemma EliminateYnPlain(e: Expr, sole: Sole)
    requires PlainTests(e, sole)
    ensures PlainTests(EliminateYn(e), sole)
  {
    if e.Bin? {
      EliminateYnPlain(e.left, sole);
      EliminateYnPlain(e.right, sole);
    }
  }

  lemma JoinEqualUnequalMeaning(a: Symbol, b: Symbol, c: Symbol, env: Env, sole: Sole)
    requires Valuation(env)
    requires a.Type() == TristateType
    requires PlainTest(Equal, a, b, sole) && PlainTest(Unequal, a, c, sole)
    ensures var j := JoinEqualUnequal(a, b, c);
      j.Some? ==> Eval(j.value, env) == TriAnd(Eval(Compare(Equal, a, b), env), Eval(Compare(Unequal, a, c), env))
  {
  }

  /** What the tests of a boolean or tristate symbol against the constants say. */
  predicate TestsRead(a: Symbol, env: Env) {
    && Eval(Compare(Equal, a, SymYes), env) == Truth(env.tri(a) == YES)
    && Eval(Compare(Equal, a, SymMod), env) == Truth(env.tri(a) == MOD)
    && Eval(Compare(Equal, a, SymNo), env) == Truth(env.tri(a) == NO)
    && Eval(Compare(Unequal, a, SymYes), env) == Truth(env.tri(a) != YES)
    && Eval(Compare(Unequal, a, SymMod), env) == Truth(env.tri(a) != MOD)
    && Eval(Compare(Unequal, a, SymNo), env) == Truth(env.tri(a) != NO)
    && Eval(Sym(a), env) == env.tri(a) && Eval(Not(Sym(a)), env) == TriNot(env.tri(a))
    && Eval(Sym(SymYes), env) == YES && Eval(Sym(SymNo), env) == NO
    && (a.Type() == Boolean ==> env.tri(a) != MOD)
  }

  lemma TestMeanings(a: Symbol, env: Env)
    requires Valuation(env) && a.IsTri()
    ensures TestsRead(a, env)
  {
  }

  lemma PairMeaning(e1: Expr, e2: Expr, env: Env)
    ensures forall x, y :: IsPair(e1, e2, x, y) ==>
      && TriOr(Eval(e1, env), Eval(e2, env)) == TriOr(Eval(x, env), Eval(y, env))
      && TriAnd(Eval(e1, env), Eval(e2, env)) == TriAnd(Eval(x, env), Eval(y, env))
  {
    hide Eval;
  }

  lemma RuleOrMeaning(e1: Expr, e2: Expr, env: Env)
    requires Valuation(env) && RuleOr(e1, e2).Some?
    ensures Eval(RuleOr(e1, e2).value, env) == TriOr(Eval(e1, env), Eval(e2, env))
  {
    hide Valuation, Eval, CommonSubject, IsPair;
    var a := CommonSubject(e1, e2).value;
    TestMeanings(a, env);
    PairMeaning(e1, e2, env);
  }

  lemma SubjectOfTests(e1: Expr, e2: Expr)
    requires e1.Compare? && e2.Compare? && CommonSubject(e1, e2).Some?
    ensures e1.lhs == e2.lhs == CommonSubject(e1, e2).value
  {
  }

  lemma RuleAndTestsMeaning(a: Symbol, e1: Expr, e2: Expr, env: Env, sole: Sole)
    requires Valuation(env) && a.Type() == TristateType
    requires e1.Compare? && e2.Compare? && e1.lhs == e2.lhs == a && RuleAndTests(a, e1, e2).Some?
    requires PlainTests(e1, sole) && PlainTests(e2, sole)
    ensures Eval(RuleAndTests(a, e1, e2).value, env) == TriAnd(Eval(e1, env), Eval(e2, env))
  {
    hide Valuation, Eval, IsPair, JoinEqualUnequal;
    TestMeanings(a, env);
    PairMeaning(e1, e2, env);
    if e1.rel == Equal && e2.rel == Unequal {
      JoinEqualUnequalMeaning(a, e1.rhs, e2.rhs, env, sole);
    } else if e1.rel == Unequal && e2.rel == Equal {
      JoinEqualUnequalMeaning(a, e2.rhs, e1.rhs, env, sole);
    }
  }

  lemma RuleAndMeaning(e1: Expr, e2: Expr, env: Env, sole: Sole)
    requires Valuation(env) && RuleAnd(e1, e2).Some?
    requires PlainTests(e1, sole) && PlainTests(e2, sole)
    ensures Eval(RuleAnd(e1, e2).value, env) == TriAnd(Eval(e1, env), Eval(e2, env))
  {
    hide Valuation, Eval, IsPair, RuleAndTests, PlainTests, CommonSubject;
    var a := CommonSubject(e1, e2).value;
    TestMeanings(a, env);
    PairMeaning(e1, e2, env);
    if e1.Compare? && e2.Compare? && a.Type() == TristateType {
      SubjectOfTests(e1, e2);
      if RuleAndTests(a, e1, e2).Some? {
        RuleAndTestsMeaning(a, e1, e2, env, sole);
      }
    }
  }

  lemma RulePlain(op: Op, e1: Expr, e2: Expr, sole: Sole)
    requires Rule(op, e1, e2).Some? && PlainTests(e1, sole) && PlainTests(e2, sole)
    ensures PlainTests(Rule(op, e1, e2).value, sole)
  {
  }

  /** A join keeps the value of the two operands taken together. */
  lemma JoinMeaning(op: Op, e1: Expr, e2: Expr, env: Env, sole: Sole)
    requires Valuation(env)
    requires PlainTests(e1, sole) && PlainTests(e2, sole)
    requires Join(op, e1, e2).Some?
    ensures PlainTests(Join(op, e1, e2).value, sole)
    ensures Eval(Join(op, e1, e2).value, env) == Apply(op, Eval(e1, env), Eval(e2, env))
  {
    hide RuleOr, RuleAnd, Eval, PlainTests;
    if ExprEq(e1, e2) {
      ExprEqSound(e1, e2, env);
    } else if op == OpAnd {
      RuleAndMeaning(e1, e2, env, sole);
      RulePlain(op, e1, e2, sole);
    } else {
      RuleOrMeaning(e1, e2, env);
      RulePlain(op, e1, e2, sole);
    }
  }

  /** The constants two tests of one tristate symbol are about never stand in the way: one test of any
      two with different constants among y, m, n is always enough. */
  lemma TestsJoin(name: string, b: Symbol, c: Symbol)
    requires b.IsTriConst() && c.IsTriConst() && b != c
    ensures var a := Config(name, TristateType);
      && Join(OpOr, Compare(Equal, a, b), Compare(Equal, a, c)).Some?
      && Join(OpAnd, Compare(Unequal, a, b), Compare(Unequal, a, c)).Some?
      && Join(OpAnd, Compare(Equal, a, b), Compare(Unequal, a, c)).Some?
      && Join(OpAnd, Compare(Unequal, a, b), Compare(Equal, a, c)).Some?
  {
  }

  /** A symbol next to a test of it is joined where the two say the same or nothing together. */
  lemma SymbolJoins(name: string)
    ensures var a, b := Config(name, TristateType), Config(name, Boolean);
      && Join(OpAnd, Sym(a), Compare(Equal, a, SymYes)).Some? && Join(OpAnd, Compare(Equal, a, SymYes), Sym(a)).Some?
      && Join(OpAnd, Sym(a), Compare(Unequal, a, SymNo)).Some? && Join(OpAnd, Compare(Unequal, a, SymNo), Sym(a)).Some?
      && Join(OpAnd, Sym(a), Compare(Unequal, a, SymMod)).Some? && Join(OpAnd, Compare(Unequal, a, SymMod), Sym(a)).Some?
      && Join(OpOr, Sym(b), Not(Sym(b))).Some? && Join(OpOr, Not(Sym(b)), Sym(b)).Some?
  {
  }

  predicate SameTogether(op: Op, e1: Expr, e2: Expr, w: Rewritten, env: Env, sole: Sole) {
    && PlainTests(w.e1, sole) && PlainTests(w.e2, sole)
    && Apply(op, Eval(w.e1, env), Eval(w.e2, env)) == Apply(op, Eval(e1, env), Eval(e2, env))
  }

  lemma JoinLeavesMeaning(op: Op, e1: Expr, e2: Expr, env: Env, sole: Sole)
    requires Valuation(env)
    requires PlainTests(e1, sole) && PlainTests(e2, sole)
    ensures SameTogether(op, e1, e2, JoinLeaves(op, e1, e2), env, sole)
  {
    if Join(op, e1, e2).Some? {
      JoinMeaning(op, e1, e2, env, sole);
    }
  }

  /** First x with z, then y with what z has become: x op y op z is kept. */
  lemma Regroup(op: Op, x: Tristate, y: Tristate, z: Tristate, x1: Tristate, z1: Tristate, y2: Tristate, z2: Tristate)
    requires Apply(op, x1, z1) == Apply(op, x, z)
    requires Apply(op, y2, z2) == Apply(op, y, z1)
    ensures Apply(op, Apply(op, x1, y2), z2) == Apply(op, Apply(op, x, y), z)
    ensures Apply(op, z2, Apply(op, x1, y2)) == Apply(op, z, Apply(op, x, y))
  {
  }

  lemma LeftOperands(op: Op, l: Expr, r: Expr, e2: Expr, a: Rewritten, b: Rewritten, n: nat, env: Env, sole: Sole)
    requires SameTogether(op, l, e2, a, env, sole) && SameTogether(op, r, a.e2, b, env, sole)
    ensures SameTogether(op, Bin(op, l, r), e2, Rewritten(Bin(op, a.e1, b.e1), b.e2, n), env, sole)
  {
    hide Apply, PlainTest;
    Regroup(op, Eval(l, env), Eval(r, env), Eval(e2, env),
      Eval(a.e1, env), Eval(a.e2, env), Eval(b.e1, env), Eval(b.e2, env));
  }

  lemma RightOperands(op: Op, e1: Expr, l: Expr, r: Expr, a: Rewritten, b: Rewritten, n: nat, env: Env, sole: Sole)
    requires SameTogether(op, e1, l, a, env, sole) && SameTogether(op, a.e1, r, b, env, sole)
    ensures SameTogether(op, e1, Bin(op, l, r), Rewritten(b.e1, Bin(op, a.e2, b.e2), n), env, sole)
  {
    hide PlainTest;
    Regroup(op, Eval(l, env), Eval(r, env), Eval(e1, env),
      Eval(a.e2, env), Eval(a.e1, env), Eval(b.e2, env), Eval(b.e1, env));
  }

  /** Both expressions are rewritten, yet `e1 op e2` keeps its value throughout. */
  lemma {:induction false} JoinOperandsMeaning(op: Op, e1: Expr, e2: Expr, env: Env, sole: Sole)
    requires Valuation(env)
    requires PlainTests(e1, sole) && PlainTests(e2, sole)
    ensures SameTogether(op, e1, e2, JoinOperands(op, e1, e2), env, sole)
    decreases Size(e1), Size(e2)
  {
    hide Valuation, JoinLeaves, Apply, Eval;
    if IsOp(op, e1) {
      var a := JoinOperands(op, e1.left, e2);
      var b := JoinOperands(op, e1.right, a.e2);
      JoinOperandsMeaning(op, e1.left, e2, env, sole);
      JoinOperandsMeaning(op, e1.right, a.e2, env, sole);
      LeftOperands(op, e1.left, e1.right, e2, a, b, a.count + b.count, env, sole);
    } else if IsOp(op, e2) {
      var a := JoinOperands(op, e1, e2.left);
      var b := JoinOperands(op, a.e1, e2.right);
      JoinOperandsMeaning(op, e1, e2.left, env, sole);
      JoinOperandsMeaning(op, a.e1, e2.right, env, sole);
      RightOperands(op, e1, e2.left, e2.right, a, b, a.count + b.count, env, sole);
    } else {
      JoinLeavesMeaning(op, e1, e2, env, sole);
    }
  }

  lemma {:induction false} DupsKeeps(e: Expr, env: Env, sole: Sole)
    requires Valuation(env)
    requires PlainTests(e, sole)
    ensures PlainTests(Dups(e), sole)
    ensures Eval(Dups(e), env) == Eval(e, env)
    decreases Measure(e), 1
  {
    OnePassKeeps(e, env, sole);
    if OnePass(e).joins > 0 {
      DupsKeeps(OnePass(e).e, env, sole);
    }
  }

  lemma {:induction false} OnePassKeeps(e: Expr, env: Env, sole: Sole)
    requires Valuation(env)
    requires PlainTests(e, sole)
    ensures PlainTests(OnePass(e).e, sole)
    ensures Eval(OnePass(e).e, env) == Eval(e, env)
    decreases Measure(e), 0
  {
    if e.Bin? {
      var l, r := Dups(e.left), Dups(e.right);
      DupsKeeps(e.left, env, sole);
      DupsKeeps(e.right, env, sole);
      var w := JoinOperands(e.op, l, r);
      JoinOperandsMeaning(e.op, l, r, env, sole);
      EliminateYnMeaning(Bin(e.op, w.e1, w.e2), env);
      EliminateYnPlain(Bin(e.op, w.e1, w.e2), sole);
    }
  }

  /** The tests of tristate symbols against constants: which symbol, which constant. */
  function ConstantTests(e: Expr): set<(Symbol, Symbol)> {
    match e
    case Bin(_, l, r) => ConstantTests(l) + ConstantTests(r)
    case Not(x) => ConstantTests(x)
    case Compare(rel, a, c) =>
      if (rel == Equal || rel == Unequal) && a.Type() == TristateType && c.IsConst() then {(a, c)} else {}
    case Sym(_) => {}
  }

  /** A symbol that is tested against a literal in disguise is tested against no other constant. */
  predicate TestsApart(tests: set<(Symbol, Symbol)>) {
    forall t, u :: t in tests && u in tests && t.0 == u.0 && Disguised(t.1) ==> t == u
  }

  ghost function SoleOf(tests: set<(Symbol, Symbol)>): Sole {
    a => if c :| (a, c) in tests && Disguised(c) then Some(c) else None
  }

  lemma {:induction false} ApartIsPlain(e: Expr, tests: set<(Symbol, Symbol)>)
    requires TestsApart(tests) && ConstantTests(e) <= tests
    ensures PlainTests(e, SoleOf(tests))
  {
    match e
    case Bin(_, l, r) =>
      ApartIsPlain(l, tests);
      ApartIsPlain(r, tests);
    case Not(x) =>
      ApartIsPlain(x, tests);
    case Compare(rel, a, c) =>
      if (rel == Equal || rel == Unequal) && a.Type() == TristateType && c.IsConst() {
        assert (a, c) in tests;
      }
    case Sym(_) =>
  }

  /** `expr_eliminate_dups` preserves the value under every valuation. */
  lemma DupsMeaning(e: Expr, env: Env)
    requires Valuation(env)
    requires TestsApart(ConstantTests(e))
    ensures Eval(Dups(e), env) == Eval(e, env)
  {
    ApartIsPlain(e, ConstantTests(e));
    DupsKeeps(e, env, SoleOf(ConstantTests(e)));
  }

  // ---- why the tests have to be apart ----

  /** The number that a constant compares as with a tristate symbol. */
  function ConstNumber(c: Symbol): Option<int> {
    match c
    case SymYes => Some(2)
    case SymMod => Some(1)
    case SymNo => Some(0)
    case Literal(_, number) => number
    case Config(_, _) => None
  }

  /** Two different constants that stand for one and the same tristate value. */
  predicate OneValueTwice(b: Symbol, c: Symbol) {
    && b != c && b.IsConst() && c.IsConst()
    && ConstNumber(b).Some? && ConstNumber(b) == ConstNumber(c)
    && 0 <= ConstNumber(b).value <= 2
  }

  /** A valuation that gives tristate configuration symbols the values of t, by name. */
  function NamedEnv(t: string -> Tristate): Env {
    var tri := (s: Symbol) =>
      match s
      case SymYes => YES
      case SymMod => MOD
      case SymNo => NO
      case Config(name, TristateType) => t(name)
      case _ => NO;
    var order := (a: Symbol, b: Symbol) =>
      if a.IsTri() && b.Literal? then (if b.number.Some? then tri(a) - b.number.value else 1)
      else if a.IsTri() && b.IsTri() then tri(a) - tri(b)
      else if a == b then 0 else 1;
    Env(tri, order)
  }

  ghost predicate RuleRight(a: Symbol, b: Symbol, c: Symbol, env: Env)
    requires b.IsConst() && c.IsConst()
  {
    Eval(JoinEqualUnequal(a, b, c).value, env)
    == TriAnd(Eval(Compare(Equal, a, b), env), Eval(Compare(Unequal, a, c), env))
  }

  lemma EqualsConstNumber(a: Symbol, c: Symbol, env: Env)
    requires Valuation(env)
    requires a.IsTri() && c.IsConst()
    ensures env.order(a, c) == 0 <==> ConstNumber(c) == Some(env.tri(a))
  {
    assert SameSign(env.order(a, c), if ConstNumber(c).Some? then env.tri(a) - ConstNumber(c).value else env.order(a, c));
  }

  lemma NamedEnvIsValuation(t: string -> Tristate)
    ensures Valuation(NamedEnv(t))
  {
  }

  /** Every tristate configuration symbol has the value t. */
  function UniformEnv(t: Tristate): Env {
    NamedEnv(_ => t)
  }

  /** The rule `a = b && a != c -> a = b` for constants b, c is right under every valuation exactly
      when b and c are not two spellings of one tristate value. */
  lemma EqualUnequalExact(name: string, b: Symbol, c: Symbol)
    requires b.IsConst() && c.IsConst()
    ensures var a := Config(name, TristateType);
      (forall env: Env :: Valuation(env) ==> RuleRight(a, b, c, env)) <==> !OneValueTwice(b, c)
  {
    var a := Config(name, TristateType);
    if OneValueTwice(b, c) {
      var env := UniformEnv(ConstNumber(b).value);
      NamedEnvIsValuation(_ => ConstNumber(b).value);
      EqualsConstNumber(a, b, env);
      EqualsConstNumber(a, c, env);
      assert !RuleRight(a, b, c, env);
    } else {
      forall env: Env | Valuation(env)
        ensures RuleRight(a, b, c, env)
      {
        EqualsConstNumber(a, b, env);
        EqualsConstNumber(a, c, env);
      }
    }
  }

  lemma LeafStays(e: Expr)
    requires !e.Bin?
    ensures Dups(e) == e
  {
    assert OnePass(e) == Pass(e, 0);
  }

  lemma TwoTestsJoin(a: Symbol, b: Symbol, c: Symbol)
    requires a.Type() == TristateType && b.IsConst() && c.IsConst()
    ensures JoinOperands(OpAnd, Compare(Equal, a, b), Compare(Unequal, a, c))
         == Rewritten(Sym(SymYes), JoinEqualUnequal(a, b, c).value, 1)
  {
    assert Join(OpAnd, Compare(Equal, a, b), Compare(Unequal, a, c)) == JoinEqualUnequal(a, b, c);
  }

  lemma TwoTestsDups(a: Symbol, b: Symbol, c: Symbol)
    requires a.Type() == TristateType && b.IsConst() && c.IsConst()
    ensures Dups(Bin(OpAnd, Compare(Equal, a, b), Compare(Unequal, a, c))) == JoinEqualUnequal(a, b, c).value
  {
    hide Join, JoinOperands;
    var l, r := Compare(Equal, a, b), Compare(Unequal, a, c);
    LeafStays(l);
    LeafStays(r);
    var j := JoinEqualUnequal(a, b, c).value;
    TwoTestsJoin(a, b, c);
    LeafStays(j);
    assert EliminateYn(j) == j && EliminateYn(Bin(OpAnd, Sym(SymYes), j)) == j;
    assert FinishPass(OpAnd, l, r) == Pass(j, 1);
    assert OnePass(Bin(OpAnd, l, r)) == Pass(j, 1);
  }

  /** For the two tests together: the whole loop keeps the value of `A = b && A != c` under every
      valuation exactly when b and c are not two spellings of one tristate value. */
  lemma TwoTestsExact(name: string, b: Symbol, c: Symbol)
    requires b.IsConst() && c.IsConst()
    ensures var a := Config(name, TristateType);
      var e := Bin(OpAnd, Compare(Equal, a, b), Compare(Unequal, a, c));
      (forall env: Env :: Valuation(env) ==> Eval(Dups(e), env) == Eval(e, env)) <==> !OneValueTwice(b, c)
  {
    hide Dups, Valuation, JoinEqualUnequal;
    var a := Config(name, TristateType);
    var e := Bin(OpAnd, Compare(Equal, a, b), Compare(Unequal, a, c));
    EqualUnequalExact(name, b, c);
    TwoTestsDups(a, b, c);
    assert forall env: Env :: RuleRight(a, b, c, env) <==> Eval(Dups(e), env) == Eval(e, env);
  }

  /** The smallest case: A = y, and `A = "2" && A != y` becomes `A = "2"`. */
  lemma DisguisedConstantChangesValue()
    ensures var a, two := Config("A", TristateType), Literal("2", Some(2));
      var e := Bin(OpAnd, Compare(Equal, a, two), Compare(Unequal, a, SymYes));
      && Valuation(UniformEnv(YES))
      && Eval(e, UniformEnv(YES)) == NO
      && Eval(Dups(e), UniformEnv(YES)) == YES
  {
    var a, two := Config("A", TristateType), Literal("2", Some(2));
    var e := Bin(OpAnd, Compare(Equal, a, two), Compare(Unequal, a, SymYes));
    NamedEnvIsValuation(_ => YES);
    assert Join(OpAnd, e.left, e.right) == Some(Compare(Equal, a, two));
    assert OnePass(e) == Pass(Compare(Equal, a, two), 1);
    assert Dups(OnePass(e).e) == Compare(Equal, a, two);
  }
}
