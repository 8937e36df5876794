/** Elimination of common operands and the equality test built on it. */
module ExprEquality {
  import opened Tristates
  import opened Expressions

  /** Drops y and n operands. A node both of whose simplified operands are neither y nor n is
      returned as it was: its operands keep their unsimplified form. */
  function EliminateYn(e: Expr): (r: Expr)
    ensures Size(r) <= Size(e)
  {
    match e
    case Bin(op, left, right) =>
      var l := EliminateYn(left);
      var r := EliminateYn(right);
      if l == Sym(Absorbing(op)) then l
      else if l == Sym(Neutral(op)) then r
      else if r == Sym(Absorbing(op)) then r
      else if r == Sym(Neutral(op)) then l
      else e
    case _ => e
  }

  /** The two rewritten expressions, and how many operand pairs were eliminated. */
  datatype Rewritten = Rewritten(e1: Expr, e2: Expr, count: nat)

  predicate SharedYesNo(e1: Expr, e2: Expr) {
    e1 == e2 && IsYesNo(e1)
  }

  predicate IsOp(op: Op, e: Expr) {
    e.Bin? && e.op == op
  }

  function CancelLeaves(op: Op, e1: Expr, e2: Expr): (w: Rewritten)
    requires !IsOp(op, e1) && !IsOp(op, e2)
    ensures Size(w.e1) <= Size(e1) && Size(w.e2) <= Size(e2)
    decreases Size(e1) + Size(e2), 3
  {
    if SharedYesNo(e1, e2) || !ExprEq(e1, e2) then Rewritten(e1, e2, 0)
    else Rewritten(Sym(Neutral(op)), Sym(Neutral(op)), 1)
  }

  function CancelOperands(op: Op, e1: Expr, e2: Expr): (w: Rewritten)
    ensures Size(w.e1) <= Size(e1) && Size(w.e2) <= Size(e2)
    decreases Size(e1) + Size(e2), if IsOp(op, e1) || IsOp(op, e2) then 0 else 4
  {
    if IsOp(op, e1) then
      var a := CancelOperands(op, e1.left, e2);
      var b := CancelOperands(op, e1.right, a.e2);
      Rewritten(Bin(op, a.e1, b.e1), b.e2, a.count + b.count)
    else if IsOp(op, e2) then
      var a := CancelOperands(op, e1, e2.left);
      var b := CancelOperands(op, a.e1, e2.right);
      Rewritten(b.e1, Bin(op, a.e2, b.e2), a.count + b.count)
    else
      CancelLeaves(op, e1, e2)
  }

  function EliminateEq(e1: Expr, e2: Expr): (w: Rewritten)
    ensures Size(w.e1) <= Size(e1) && Size(w.e2) <= Size(e2)
    decreases Size(e1) + Size(e2), 1
  {
    var a := if e1.Bin? then CancelOperands(e1.op, e1, e2) else Rewritten(e1, e2, 0);
    var b :=
      if a.e2.Bin? && !IsOp(a.e2.op, a.e1) then CancelOperands(a.e2.op, a.e1, a.e2)
      else Rewritten(a.e1, a.e2, 0);
    Rewritten(EliminateYn(b.e1), EliminateYn(b.e2), a.count + b.count)
  }

  /** `expr_eq`: same node kind, and for && and || nothing left but one same symbol on each side
      once common operands are gone. */
  predicate ExprEq(e1: Expr, e2: Expr)
    decreases Size(e1) + Size(e2), 2
  {
    match (e1, e2)
    case (Compare(rel1, a1, b1), Compare(rel2, a2, b2)) => rel1 == rel2 && a1 == a2 && b1 == b2
    case (Sym(s1), Sym(s2)) => s1 == s2
    case (Not(x1), Not(x2)) => ExprEq(x1, x2)
    case (Bin(op1, _, _), Bin(op2, _, _)) =>
      op1 == op2 &&
      var w := EliminateEq(e1, e2);
      w.e1.Sym? && w.e1 == w.e2
    case _ => false
  }

  /** A missing expression counts as y, and so does the constant. */
  predicate IsYesOpt(e: Option<Expr>) {
    e.None? || e.value == Sym(SymYes)
  }

  /** `expr_eq`, where either expression may be missing. */
  predicate ExprEqOpt(e1: Option<Expr>, e2: Option<Expr>) {
    if e1.None? || e2.None? then IsYesOpt(e1) && IsYesOpt(e2) else ExprEq(e1.value, e2.value)
  }

  /** `expr_eliminate_eq`, which leaves both as they are if one is missing. */
  function EliminateEqOpt(e1: Option<Expr>, e2: Option<Expr>): (Option<Expr>, Option<Expr>, nat) {
    if e1.None? || e2.None? then (e1, e2, 0)
    else
      var w := EliminateEq(e1.value, e2.value);
      (Some(w.e1), Some(w.e2), w.count)
  }

  // ---- meaning ----

  lemma {:induction false} EliminateYnMeaning(e: Expr, env: Env)
    requires ConstantsFixed(env)
    ensures Eval(EliminateYn(e), env) == Eval(e, env)
  {
    if e.Bin? {
      EliminateYnMeaning(e.left, env);
      EliminateYnMeaning(e.right, env);
    }
  }

  /** `c` is a common operand whose removal turns values v1, v2 into w1, w2. */
  predicate TakenOut(op: Op, c: Tristate, v1: Tristate, v2: Tristate, w1: Tristate, w2: Tristate) {
    v1 == Apply(op, c, w1) && v2 == Apply(op, c, w2)
  }

  lemma TakenOutTwice(op: Op, c1: Tristate, c2: Tristate, l: Tristate, r: Tristate, l1: Tristate, r1: Tristate,
                      v: Tristate, v1: Tristate, v2: Tristate)
    requires TakenOut(op, c1, l, v, l1, v1)
    requires TakenOut(op, c2, r, v1, r1, v2)
    ensures TakenOut(op, Apply(op, c1, c2), Apply(op, l, r), v, Apply(op, l1, r1), v2)
    ensures TakenOut(op, Apply(op, c1, c2), v, Apply(op, l, r), v2, Apply(op, l1, r1))
  {
  }

  /** Cancelling operands takes one same operand, of value c, out of both sides. */
  lemma {:induction false} CancelMeaning(op: Op, e1: Expr, e2: Expr, env: Env) returns (c: Tristate)
    requires ConstantsFixed(env)
    ensures var w := CancelOperands(op, e1, e2);
      TakenOut(op, c, Eval(e1, env), Eval(e2, env), Eval(w.e1, env), Eval(w.e2, env))
    decreases Size(e1) + Size(e2), if IsOp(op, e1) || IsOp(op, e2) then 0 else 4, 0
  {
    if IsOp(op, e1) {
      var a := CancelOperands(op, e1.left, e2);
      var b := CancelOperands(op, e1.right, a.e2);
      var c1 := CancelMeaning(op, e1.left, e2, env);
      var c2 := CancelMeaning(op, e1.right, a.e2, env);
      c := Apply(op, c1, c2);
      TakenOutTwice(op, c1, c2, Eval(e1.left, env), Eval(e1.right, env), Eval(a.e1, env), Eval(b.e1, env),
        Eval(e2, env), Eval(a.e2, env), Eval(b.e2, env));
    } else if IsOp(op, e2) {
      var a := CancelOperands(op, e1, e2.left);
      var b := CancelOperands(op, a.e1, e2.right);
      var c1 := CancelMeaning(op, e1, e2.left, env);
      var c2 := CancelMeaning(op, a.e1, e2.right, env);
      c := Apply(op, c1, c2);
      TakenOutTwice(op, c1, c2, Eval(e2.left, env), Eval(e2.right, env), Eval(a.e2, env), Eval(b.e2, env),
        Eval(e1, env), Eval(a.e1, env), Eval(b.e1, env));
    } else {
      c := CancelLeavesMeaning(op, e1, e2, env);
    }
  }

  lemma {:induction false} CancelLeavesMeaning(op: Op, e1: Expr, e2: Expr, env: Env) returns (c: Tristate)
    requires ConstantsFixed(env)
    requires !IsOp(op, e1) && !IsOp(op, e2)
    ensures var w := CancelLeaves(op, e1, e2);
      TakenOut(op, c, Eval(e1, env), Eval(e2, env), Eval(w.e1, env), Eval(w.e2, env))
    decreases Size(e1) + Size(e2), 3
  {
    if SharedYesNo(e1, e2) || !ExprEq(e1, e2) {
      c := env.tri(Neutral(op));
    } else {
      ExprEqSound(e1, e2, env);
      c := Eval(e1, env);
    }
  }

  /** Every order between the values w1, w2 already holds between v1, v2. */
  predicate OrderReflected(v1: Tristate, v2: Tristate, w1: Tristate, w2: Tristate) {
    && (w1 <= w2 ==> v1 <= v2)
    && (w2 <= w1 ==> v2 <= v1)
  }

  lemma {:induction false} CancelOrder(op: Op, e1: Expr, e2: Expr, env: Env)
    requires ConstantsFixed(env)
    ensures var w := CancelOperands(op, e1, e2);
      OrderReflected(Eval(e1, env), Eval(e2, env), Eval(w.e1, env), Eval(w.e2, env))
    decreases Size(e1) + Size(e2), if IsOp(op, e1) || IsOp(op, e2) then 0 else 4, 1
  {
    var _ := CancelMeaning(op, e1, e2, env);
  }

  /** Eliminating common operands loses nothing about how the two sides compare: any order between
      the rewritten expressions already holds between the originals. */
  lemma {:induction false} EliminateEqOrder(e1: Expr, e2: Expr, env: Env)
    requires ConstantsFixed(env)
    ensures var w := EliminateEq(e1, e2);
      OrderReflected(Eval(e1, env), Eval(e2, env), Eval(w.e1, env), Eval(w.e2, env))
    decreases Size(e1) + Size(e2), 1
  {
    var a := if e1.Bin? then CancelOperands(e1.op, e1, e2) else Rewritten(e1, e2, 0);
    if e1.Bin? {
      CancelOrder(e1.op, e1, e2, env);
    }
    var b :=
      if a.e2.Bin? && !IsOp(a.e2.op, a.e1) then CancelOperands(a.e2.op, a.e1, a.e2)
      else Rewritten(a.e1, a.e2, 0);
    if a.e2.Bin? && !IsOp(a.e2.op, a.e1) {
      CancelOrder(a.e2.op, a.e1, a.e2, env);
    }
    EliminateYnMeaning(b.e1, env);
    EliminateYnMeaning(b.e2, env);
  }

  /** Equal by `expr_eq` means equal in value, under every valuation. */
  lemma {:induction false} ExprEqSound(e1: Expr, e2: Expr, env: Env)
    requires ConstantsFixed(env)
    requires ExprEq(e1, e2)
    ensures Eval(e1, env) == Eval(e2, env)
    decreases Size(e1) + Size(e2), 2
  {
    if e1.Not? {
      ExprEqSound(e1.operand, e2.operand, env);
    } else if e1.Bin? {
      EliminateEqOrder(e1, e2, env);
    }
  }

  /** The test of `menu.c` for a dependency that is a superset of another: once the common operands
      are gone and the second expression has become y, the first was never above it. */
  lemma {:induction false} EliminatedToYesIsWeaker(e1: Expr, e2: Expr, env: Env)
    requires ConstantsFixed(env)
    requires EliminateEq(e1, e2).e2 == Sym(SymYes)
    ensures Eval(e1, env) <= Eval(e2, env)
  {
    EliminateEqOrder(e1, e2, env);
  }

  lemma ExprEqOptSound(e1: Option<Expr>, e2: Option<Expr>, env: Env)
    requires ConstantsFixed(env)
    requires ExprEqOpt(e1, e2)
    ensures EvalOpt(e1, env) == EvalOpt(e2, env)
  {
    if e1.Some? && e2.Some? {
      ExprEqSound(e1.value, e2.value, env);
    }
  }

  lemma EliminateEqOptOrder(e1: Option<Expr>, e2: Option<Expr>, env: Env)
    requires ConstantsFixed(env)
    ensures var w := EliminateEqOpt(e1, e2);
      OrderReflected(EvalOpt(e1, env), EvalOpt(e2, env), EvalOpt(w.0, env), EvalOpt(w.1, env))
  {
    if e1.Some? && e2.Some? {
      EliminateEqOrder(e1.value, e2.value, env);
    }
  }
}
