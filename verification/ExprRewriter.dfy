/** The rewriters as the program runs them: expressions passed by reference come back as results,
    and one global counter says whether a pass has changed anything. */
module ExprRewriter {
  import opened Expressions
  import opened ExprEquality
  import opened ExprDups

  class Rewriter {
    /** `trans_count` */
    var transCount: int

    constructor ()
      ensures transCount == 0
    {
      transCount := 0;
    }

    method CancelInPlace(op: Op, e1: Expr, e2: Expr) returns (r1: Expr, r2: Expr)
      modifies this
      ensures var w := CancelOperands(op, e1, e2);
        r1 == w.e1 && r2 == w.e2 && transCount == old(transCount) + w.count
      decreases Size(e1) + Size(e2), if IsOp(op, e1) || IsOp(op, e2) then 0 else 4
    {
      r1, r2 := e1, e2;
      if IsOp(op, e1) {
        var l, r;
        l, r2 := CancelInPlace(op, e1.left, r2);
        r, r2 := CancelInPlace(op, e1.right, r2);
        r1 := Bin(op, l, r);
        return;
      }
      if IsOp(op, e2) {
        var l, r;
        r1, l := CancelInPlace(op, r1, e2.left);
        r1, r := CancelInPlace(op, r1, e2.right);
        r2 := Bin(op, l, r);
        return;
      }
      if SharedYesNo(e1, e2) {
        return;
      }
      var same := Equal(e1, e2);
      if !same {
        return;
      }
      transCount := transCount + 1;
      r1, r2 := Sym(Neutral(op)), Sym(Neutral(op));
    }

    method EliminateEqInPlace(e1: Expr, e2: Expr) returns (r1: Expr, r2: Expr)
      modifies this
      ensures var w := EliminateEq(e1, e2);
        r1 == w.e1 && r2 == w.e2 && transCount == old(transCount) + w.count
      decreases Size(e1) + Size(e2), 1
    {
      r1, r2 := e1, e2;
      if r1.Bin? {
        r1, r2 := CancelInPlace(r1.op, r1, r2);
      }
      if r2.Bin? && !IsOp(r2.op, r1) {
        r1, r2 := CancelInPlace(r2.op, r1, r2);
      }
      r1 := EliminateYn(r1);
      r2 := EliminateYn(r2);
    }

    /** The comparison works by rewriting copies, so it has to put the counter back. */
    method Equal(e1: Expr, e2: Expr) returns (same: bool)
      modifies this
      ensures same == ExprEq(e1, e2)
      ensures transCount == old(transCount)
      decreases Size(e1) + Size(e2), 2
    {
      if e1.Compare? || e1.Sym? {
        return e1 == e2;
      }
      if e1.Not? && e2.Not? {
        same := Equal(e1.operand, e2.operand);
        return;
      }
      if e1.Bin? && IsOp(e1.op, e2) {
        var oldCount := transCount;
        var r1, r2 := EliminateEqInPlace(e1, e2);
        same := r1.Sym? && r2.Sym? && r1.sym == r2.sym;
        transCount := oldCount;
        return;
      }
      return false;
    }

    /** Where the expressions may be missing. */
    method EliminateEqOrAbsent(e1: Option<Expr>, e2: Option<Expr>) returns (r1: Option<Expr>, r2: Option<Expr>)
      modifies this
      ensures (r1, r2, transCount - old(transCount)) == EliminateEqOpt(e1, e2)
    {
      r1, r2 := e1, e2;
      if e1.None? || e2.None? {
        return;
      }
      var x1, x2 := EliminateEqInPlace(e1.value, e2.value);
      r1, r2 := Some(x1), Some(x2);
    }

    method EqualOrAbsent(e1: Option<Expr>, e2: Option<Expr>) returns (same: bool)
      modifies this
      ensures same == ExprEqOpt(e1, e2)
      ensures transCount == old(transCount)
    {
      if e1.None? || e2.None? {
        return IsYesOpt(e1) && IsYesOpt(e2);
      }
      same := Equal(e1.value, e2.value);
    }

    method JoinInPlace(op: Op, e1: Expr, e2: Expr) returns (r1: Expr, r2: Expr)
      modifies this
      ensures var w := JoinOperands(op, e1, e2);
        r1 == w.e1 && r2 == w.e2 && transCount == old(transCount) + w.count
      decreases Size(e1), Size(e2)
    {
      r1, r2 := e1, e2;
      if IsOp(op, e1) {
        var l, r;
        l, r2 := JoinInPlace(op, e1.left, r2);
        r, r2 := JoinInPlace(op, e1.right, r2);
        r1 := Bin(op, l, r);
        return;
      }
      if IsOp(op, e2) {
        var l, r;
        r1, l := JoinInPlace(op, r1, e2.left);
        r1, r := JoinInPlace(op, r1, e2.right);
        r2 := Bin(op, l, r);
        return;
      }
      var same := Equal(e1, e2);
      var joined := if same then Some(e1) else Rule(op, e1, e2);
      if joined.Some? {
        r1, r2 := Sym(Neutral(op)), joined.value;
        transCount := transCount + 1;
      }
    }

    /** The counter is zeroed at the start of each pass and restored at the end, so that the
        recursive calls do not disturb the pass they are part of. */
    method EliminateDups(e: Expr) returns (r: Expr)
      modifies this
      ensures r == Dups(e)
      ensures transCount == old(transCount)
      decreases Measure(e)
    {
      r := e;
      var oldCount := transCount;
      while true
        invariant Measure(r) <= Measure(e)
        invariant Dups(e) == Dups(r)
        decreases Measure(r)
      {
        transCount := 0;
        if r.Bin? {
          var l := EliminateDups(r.left);
          var right := EliminateDups(r.right);
          l, right := JoinInPlace(r.op, l, right);
          r := Bin(r.op, l, right);
        }
        r := EliminateYn(r);
        if transCount == 0 {
          break;
        }
      }
      transCount := oldCount;
    }
  }
}
