/** Rewriting into negation normal form, and comparison of an expression with a constant. */
module ExprTransform {
  import opened Tristates
  import opened Expressions

  /** De Morgan's laws build a larger term; doubling under a negation makes it a lighter one. */
  function Weight(e: Expr): nat
    ensures Weight(e) >= 1
  {
    match e
    case Bin(_, l, r) => 1 + Weight(l) + Weight(r)
    case Not(x) => 2 * Weight(x)
    case Compare(_, _, _) => 2
    case Sym(_) => 1
  }

  function Dual(op: Op): Op {
    match op case OpAnd => OpOr case OpOr => OpAnd
  }

  function Opposite(rel: Relation): Relation {
    match rel
    case Equal => Unequal
    case Unequal => Equal
    case Less => GreaterEq
    case LessEq => Greater
    case Greater => LessEq
    case GreaterEq => Less
  }

  /** A boolean tested against y, m or n. */
  predicate IsBooleanTest(rel: Relation, a: Symbol, c: Symbol) {
    (rel == Equal || rel == Unequal) && a.Type() == Boolean && c.IsTriConst()
  }

  function TransformCompare(rel: Relation, a: Symbol, c: Symbol): (r: Expr)
    ensures Weight(r) <= 2
  {
    if !IsBooleanTest(rel, a, c) then Compare(rel, a, c)
    else match c
      case SymNo => if rel == Equal then Not(Sym(a)) else Sym(a)
      case SymMod => if rel == Equal then Sym(SymNo) else Sym(SymYes)
      case _ => if rel == Equal then Sym(a) else Not(Sym(a))
  }

  /** The negation of `l op r`, pushed down one level. */
  function DeMorgan(op: Op, l: Expr, r: Expr): (e: Expr)
    ensures Weight(e) < 2 * Weight(Bin(op, l, r))
  {
    assert Weight(Not(l)) == 2 * Weight(l) && Weight(Not(r)) == 2 * Weight(r);
    Bin(Dual(op), Not(l), Not(r))
  }

  /** `expr_transform` */
  function Transform(e: Expr): (r: Expr)
    ensures Weight(r) <= Weight(e)
    decreases Weight(e)
  {
    match e
    case Bin(op, l, r) => Bin(op, Transform(l), Transform(r))
    case Compare(rel, a, c) => TransformCompare(rel, a, c)
    case Sym(_) => e
    case Not(x) =>
      match Transform(x)
      case Not(y) => y
      case Compare(rel, a, c) => Compare(Opposite(rel), a, c)
      case Bin(op, l, r) => Transform(DeMorgan(op, l, r))
      case Sym(SymYes) => Sym(SymNo)
      case Sym(SymMod) => Sym(SymMod)
      case Sym(SymNo) => Sym(SymYes)
      case Sym(s) => Not(Sym(s))
  }

  lemma {:induction false} TransformMeaning(e: Expr, env: Env)
    requires Valuation(env)
    ensures Eval(Transform(e), env) == Eval(e, env)
    decreases Weight(e)
  {
    match e
    case Bin(op, l, r) =>
      TransformMeaning(l, env);
      TransformMeaning(r, env);
    case Compare(rel, a, c) =>
      TransformCompareMeaning(rel, a, c, env);
    case Sym(_) =>
    case Not(x) =>
      TransformMeaning(x, env);
      if Transform(x).Bin? {
        var b := Transform(x);
        TransformMeaning(DeMorgan(b.op, b.left, b.right), env);
      }
  }

  lemma TransformCompareMeaning(rel: Relation, a: Symbol, c: Symbol, env: Env)
    requires Valuation(env)
    ensures Eval(TransformCompare(rel, a, c), env) == Eval(Compare(rel, a, c), env)
  {
    if IsBooleanTest(rel, a, c) {
      assert SameSign(env.order(a, c), env.tri(a) - env.tri(c));
    }
  }

  /** Negation stands only directly above a symbol that is not y, m or n; no boolean is tested
      against one of these. */
  predicate NegationNormal(e: Expr) {
    match e
    case Bin(_, l, r) => NegationNormal(l) && NegationNormal(r)
    case Not(x) => x.Sym? && !x.sym.IsTriConst()
    case Compare(rel, a, c) => !IsBooleanTest(rel, a, c)
    case Sym(_) => true
  }

  lemma {:induction false} TransformNormal(e: Expr)
    ensures NegationNormal(Transform(e))
    decreases Weight(e)
  {
    match e
    case Bin(op, l, r) =>
      TransformNormal(l);
      TransformNormal(r);
    case Compare(rel, a, c) =>
    case Sym(_) =>
    case Not(x) =>
      TransformNormal(x);
      if Transform(x).Bin? {
        var b := Transform(x);
        TransformNormal(DeMorgan(b.op, b.left, b.right));
      }
  }

  lemma {:induction false} NormalUnchanged(e: Expr)
    requires NegationNormal(e)
    ensures Transform(e) == e
  {
    if e.Bin? {
      NormalUnchanged(e.left);
      NormalUnchanged(e.right);
    }
  }

  /** Applying the transformation again changes nothing; it changes nothing at all exactly on
      expressions in normal form. */
  lemma TransformIdempotent(e: Expr)
    ensures Transform(Transform(e)) == Transform(e)
    ensures Transform(e) == e <==> NegationNormal(e)
  {
    TransformNormal(e);
    NormalUnchanged(Transform(e));
    if NegationNormal(e) {
      NormalUnchanged(e);
    }
  }

  // ---- the code where it departs from its documented rules ----

  /** A boolean is tested with `!= y`. There the code takes the test's symbol for an expression. */
  predicate IsUnequalYes(rel: Relation, a: Symbol, c: Symbol) {
    rel == Unequal && a.Type() == Boolean && c == SymYes
  }

  predicate NoUnequalYes(e: Expr) {
    match e
    case Bin(_, l, r) => NoUnequalYes(l) && NoUnequalYes(r)
    case Not(x) => NoUnequalYes(x)
    case Compare(rel, a, c) => !IsUnequalYes(rel, a, c)
    case Sym(_) => true
  }

  /** `expr_transform` as written; None when it comes to such a test and builds a node that is no
      expression. */
  function TransformAsWritten(e: Expr): (r: Option<Expr>)
    ensures r.Some? ==> r.value == Transform(e)
    decreases Weight(e)
  {
    match e
    case Bin(op, l, r) =>
      var l1, r1 := TransformAsWritten(l), TransformAsWritten(r);
      if l1.Some? && r1.Some? then Some(Bin(op, l1.value, r1.value)) else None
    case Compare(rel, a, c) => if IsUnequalYes(rel, a, c) then None else Some(TransformCompare(rel, a, c))
    case Sym(_) => Some(e)
    case Not(x) =>
      var x1 := TransformAsWritten(x);
      if x1.None? then None
      else
        match x1.value
        case Not(y) => Some(y)
        case Compare(rel, a, c) => Some(Compare(Opposite(rel), a, c))
        case Bin(op, l, r) => TransformAsWritten(DeMorgan(op, l, r))
        case Sym(SymYes) => Some(Sym(SymNo))
        case Sym(SymMod) => Some(Sym(SymMod))
        case Sym(SymNo) => Some(Sym(SymYes))
        case Sym(s) => Some(Not(Sym(s)))
  }

  lemma {:induction false} NormalHasNoUnequalYes(e: Expr)
    requires NegationNormal(e)
    ensures NoUnequalYes(e)
  {
    if e.Bin? {
      NormalHasNoUnequalYes(e.left);
      NormalHasNoUnequalYes(e.right);
    }
  }

  /** The code follows its documented rules if and only if no boolean is tested with `!= y` anywhere
      in the expression; the results on `Transform` hold of the code exactly there. */
  lemma {:induction false} AsWrittenExact(e: Expr)
    ensures TransformAsWritten(e) == if NoUnequalYes(e) then Some(Transform(e)) else None
    decreases Weight(e)
  {
    match e
    case Bin(_, l, r) =>
      AsWrittenExact(l);
      AsWrittenExact(r);
    case Not(x) =>
      AsWrittenExact(x);
      TransformNormal(x);
      if Transform(x).Bin? && NoUnequalYes(x) {
        var b := Transform(x);
        NormalHasNoUnequalYes(b);
        AsWrittenExact(DeMorgan(b.op, b.left, b.right));
      }
    case _ =>
  }

  /** The smallest input on which it does not: A != y, for a boolean A. */
  lemma UnequalYesFails(name: string)
    ensures var e := Compare(Unequal, Config(name, Boolean), SymYes);
      TransformAsWritten(e) == None && Transform(e) == Not(Sym(Config(name, Boolean)))
  {
  }

  // ---- comparison with a constant ----

  /** `expr_trans_compare`, for the relations = and != and the constants y, m, n. */
  function TransCompare(e: Expr, equal: bool, c: Symbol): Expr
    requires c.IsTriConst()
  {
    match e
    case Bin(op, l, r) =>
      var l1, r1 := TransCompare(l, true, c), TransCompare(r, true, c);
      var whole :=
        match c
        case SymYes => Bin(op, l1, r1)
        case SymNo => Bin(Dual(op), l1, r1)
        case _ => e;
      if equal then whole else Not(whole)
    case Not(x) => TransCompare(x, !equal, c)
    case Compare(_, _, _) =>
      (match c
       case SymYes => if equal then e else Not(e)
       case SymMod => if equal then Sym(SymNo) else Sym(SymYes)
       case _ => if equal then Not(e) else e)
    case Sym(s) => Compare(if equal then Equal else Unequal, s, c)
  }

  function TransCompareOpt(e: Option<Expr>, equal: bool, c: Symbol): Expr
    requires c.IsTriConst()
  {
    match e
    case Some(x) => TransCompare(x, equal, c)
    case None => if equal then Sym(c) else Not(Sym(c))
  }

  /** Every symbol used as an operand is boolean or tristate. */
  predicate TriOperands(e: Expr) {
    match e
    case Bin(_, l, r) => TriOperands(l) && TriOperands(r)
    case Not(x) => TriOperands(x)
    case Compare(_, _, _) => true
    case Sym(s) => s.IsTri()
  }

  /** No negated operand has the value m. */
  predicate NegationsDecided(e: Expr, env: Env) {
    match e
    case Bin(_, l, r) => NegationsDecided(l, env) && NegationsDecided(r, env)
    case Not(x) => Eval(x, env) != MOD && NegationsDecided(x, env)
    case Compare(_, _, _) => true
    case Sym(_) => true
  }

  predicate Tests(v: Tristate, equal: bool, c: Tristate, result: Tristate) {
    result == Truth((v == c) == equal)
  }

  /** `e = y`, `e != y`, `e = n` and `e != n` are what the translation says, unless a negated operand
      has the value m. */
  lemma {:induction false} TransCompareMeaning(e: Expr, equal: bool, c: Symbol, env: Env)
    requires Valuation(env)
    requires TriOperands(e) && NegationsDecided(e, env)
    requires c == SymYes || c == SymNo
    ensures Tests(Eval(e, env), equal, env.tri(c), Eval(TransCompare(e, equal, c), env))
  {
    match e
    case Bin(op, l, r) =>
      TransCompareMeaning(l, true, c, env);
      TransCompareMeaning(r, true, c, env);
    case Not(x) =>
      TransCompareMeaning(x, !equal, c, env);
    case Compare(_, _, _) =>
    case Sym(s) =>
      assert SameSign(env.order(s, c), env.tri(s) - env.tri(c));
  }

  lemma ConstantTest(s: Symbol, equal: bool, c: Symbol, env: Env)
    requires Valuation(env) && s.IsTri() && c.IsTriConst()
    ensures Tests(env.tri(s), equal, env.tri(c), Eval(Compare(if equal then Equal else Unequal, s, c), env))
  {
    assert SameSign(env.order(s, c), env.tri(s) - env.tri(c));
  }

  /** Whatever is negated, an expression with the value y or n is translated rightly: only values of m
      can go wrong. */
  lemma {:induction false} TransCompareDecided(e: Expr, equal: bool, c: Symbol, env: Env)
    requires Valuation(env)
    requires TriOperands(e) && Eval(e, env) != MOD
    requires c == SymYes || c == SymNo
    ensures Tests(Eval(e, env), equal, env.tri(c), Eval(TransCompare(e, equal, c), env))
  {
    hide Valuation;
    ConstantsOf(env);
    match e
    case Bin(op, l, r) =>
      if Eval(l, env) != MOD {
        TransCompareDecided(l, true, c, env);
      }
      if Eval(r, env) != MOD {
        TransCompareDecided(r, true, c, env);
      }
    case Not(x) =>
      TransCompareDecided(x, !equal, c, env);
    case Compare(_, _, _) =>
    case Sym(s) =>
      ConstantTest(s, equal, c, env);
  }

  lemma ConstantsOf(env: Env)
    requires Valuation(env)
    ensures ConstantsFixed(env)
  {
  }

  // ---- exactly when the translation is right ----

  /** The text of a symbol reads as the constant exactly when its tristate value is that constant. For
      booleans and tristates it does; an undefined symbol FOO is n, but its text is "FOO". */
  predicate ReadsAs(s: Symbol, c: Symbol, env: Env) {
    s.IsTri() || (env.order(s, c) == 0 <==> c == SymNo)
  }

  /** Whether one operand with the value c is enough to give the whole the value c. */
  predicate OneSuffices(op: Op, c: Symbol) {
    (op == OpAnd) == (c == SymNo)
  }

  /** The translation of `e = c`, where c is y or n, is right: symbols read as their value; a negation
      of m is right where its operand goes wrong; of the operands of && and ||, all must get the
      right answer, unless one with this answer decides. */
  predicate Right(e: Expr, c: Symbol, env: Env)
    decreases e, 0
  {
    match e
    case Sym(s) => ReadsAs(s, c, env)
    case Compare(_, _, _) => true
    case Not(x) => Right(x, c, env) <==> Eval(x, env) != MOD
    case Bin(op, l, r) =>
      var whole := Eval(e, env) == env.tri(c);
      if OneSuffices(op, c) == whole then Answered(l, c, whole, env) || Answered(r, c, whole, env)
      else Answered(l, c, whole, env) && Answered(r, c, whole, env)
  }

  /** The question `e = c` gets this answer: a right one, or the other one by mistake. */
  predicate Answered(e: Expr, c: Symbol, yes: bool, env: Env)
    decreases e, 1
  {
    Right(e, c, env) <==> (Eval(e, env) == env.tri(c)) == yes
  }

  lemma ConstantTestRight(s: Symbol, equal: bool, c: Symbol, env: Env)
    requires Valuation(env) && c.IsTriConst()
    ensures Tests(env.tri(s), equal, env.tri(c), Eval(Compare(if equal then Equal else Unequal, s, c), env))
            <==> ReadsAs(s, c, env)
  {
    if s.IsTri() {
      ConstantTest(s, equal, c, env);
    }
  }

  lemma BinExact(op: Op, l: Expr, r: Expr, equal: bool, c: Symbol, env: Env)
    requires ConstantsFixed(env) && (c == SymYes || c == SymNo)
    requires Eval(TransCompare(l, true, c), env) == Truth(Answered(l, c, true, env))
    requires Eval(TransCompare(r, true, c), env) == Truth(Answered(r, c, true, env))
    ensures var e := Bin(op, l, r);
      Tests(Eval(e, env), equal, env.tri(c), Eval(TransCompare(e, equal, c), env)) <==> Right(e, c, env)
  {
  }

  /** `e = y`, `e != y`, `e = n` and `e != n` are translated rightly if and only if `Right`, for every
      expression under every valuation. */
  lemma {:induction false} TransCompareExact(e: Expr, equal: bool, c: Symbol, env: Env)
    requires Valuation(env)
    requires c == SymYes || c == SymNo
    ensures Tests(Eval(e, env), equal, env.tri(c), Eval(TransCompare(e, equal, c), env)) <==> Right(e, c, env)
    ensures Eval(TransCompare(e, equal, c), env) != MOD
  {
    hide Valuation;
    ConstantsOf(env);
    match e
    case Bin(op, l, r) =>
      TransCompareExact(l, true, c, env);
      TransCompareExact(r, true, c, env);
      BinExact(op, l, r, equal, c, env);
    case Not(x) =>
      TransCompareExact(x, !equal, c, env);
    case Compare(_, _, _) =>
    case Sym(s) =>
      ConstantTestRight(s, equal, c, env);
  }

  /** Among booleans and tristates only the value m goes wrong. Under it, a negation is right where its
      operand is not, and of the operands of && and || that are m, one or all have to be right. */
  lemma RightOfTristates(e: Expr, c: Symbol, env: Env)
    requires Valuation(env) && TriOperands(e)
    requires c == SymYes || c == SymNo
    ensures Eval(e, env) != MOD ==> Right(e, c, env)
    ensures Eval(e, env) == MOD && e.Not? ==> (Right(e, c, env) <==> !Right(e.operand, c, env))
    ensures Eval(e, env) == MOD && e.Bin? && OneSuffices(e.op, c) ==>
      (Right(e, c, env) <==> Right(e.left, c, env) && Right(e.right, c, env))
    ensures Eval(e, env) == MOD && e.Bin? && !OneSuffices(e.op, c) ==>
      (Right(e, c, env) <==>
        (Eval(e.left, env) == MOD && Right(e.left, c, env)) || (Eval(e.right, env) == MOD && Right(e.right, c, env)))
    ensures e.Sym? || e.Compare? ==> Right(e, c, env)
  {
    TransCompareExact(e, true, c, env);
    if Eval(e, env) != MOD {
      TransCompareDecided(e, true, c, env);
    } else if e.Bin? {
      if Eval(e.left, env) != MOD {
        TransCompareExact(e.left, true, c, env);
        TransCompareDecided(e.left, true, c, env);
      }
      if Eval(e.right, env) != MOD {
        TransCompareExact(e.right, true, c, env);
        TransCompareDecided(e.right, true, c, env);
      }
    }
  }

  /** A negation at the top, of an operand translated rightly, is so exactly when that is not m. */
  lemma TransCompareNotExact(x: Expr, equal: bool, c: Symbol, env: Env)
    requires Valuation(env) && Right(x, c, env)
    requires c == SymYes || c == SymNo
    ensures Tests(Eval(Not(x), env), equal, env.tri(c), Eval(TransCompare(Not(x), equal, c), env))
            <==> Eval(x, env) != MOD
  {
    TransCompareExact(Not(x), equal, c, env);
  }

  /** The translation of `e = m` is right: && and || stay as they are, which is right for n; a negation
      turns the answer round without turning the question. */
  predicate RightForMod(e: Expr, env: Env) {
    match e
    case Sym(s) => ReadsAs(s, SymMod, env)
    case Compare(_, _, _) => true
    case Bin(_, _, _) => Eval(e, env) == NO
    case Not(x) =>
      match x
      case Not(y) => RightForMod(y, env)
      case Bin(_, _, _) => Eval(x, env) == YES
      case Sym(s) => !ReadsAs(s, SymMod, env)
      case Compare(_, _, _) => false
  }

  /** `e = m` and `e != m` are translated rightly if and only if `RightForMod`. */
  lemma {:induction false} TransCompareModExact(e: Expr, equal: bool, env: Env)
    requires Valuation(env)
    ensures Tests(Eval(e, env), equal, MOD, Eval(TransCompare(e, equal, SymMod), env)) <==> RightForMod(e, env)
  {
    hide Valuation;
    ConstantsOf(env);
    match e
    case Sym(s) =>
      ConstantTestRight(s, equal, SymMod, env);
    case Not(x) =>
      if x.Not? {
        TransCompareModExact(x.operand, equal, env);
      } else if x.Sym? {
        ConstantTestRight(x.sym, !equal, SymMod, env);
      }
    case _ =>
  }

  /** Translation for n brings in no test with `!= y` and drops none. */
  lemma {:induction false} TransCompareUnequalYes(e: Expr, equal: bool)
    ensures NoUnequalYes(TransCompare(e, equal, SymNo)) <==> NoUnequalYes(e)
  {
    match e
    case Bin(_, l, r) =>
      TransCompareUnequalYes(l, true);
      TransCompareUnequalYes(r, true);
    case Not(x) =>
      TransCompareUnequalYes(x, !equal);
    case _ =>
  }
}
