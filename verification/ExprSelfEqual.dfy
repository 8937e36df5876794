/** Every expression is equal to itself, although the test works by cancelling operands one by one. */
module ExprSelfEqual {
  import opened Tristates
  import opened Expressions
  import opened ExprEquality
  import opened ExprDups

  /** What is left of two operands compared with each other. */
  function CancelPair(op: Op, x: Expr, y: Expr): (Expr, Expr) {
    if SharedYesNo(x, y) || !ExprEq(x, y) then (x, y) else (Sym(Neutral(op)), Sym(Neutral(op)))
  }

  /** One operand against a row of operands. */
  function AgainstRow(op: Op, x: Expr, ys: seq<Expr>): (r: (Expr, seq<Expr>))
    ensures |r.1| == |ys|
    decreases |ys|
  {
    if ys == [] then (x, [])
    else
      var p := CancelPair(op, x, ys[0]);
      var r := AgainstRow(op, p.0, ys[1..]);
      (r.0, [p.1] + r.1)
  }

  /** A row against a row. */
  function RowAgainstRow(op: Op, xs: seq<Expr>, ys: seq<Expr>): (r: (seq<Expr>, seq<Expr>))
    ensures |r.0| == |xs| && |r.1| == |ys|
    decreases |xs|
  {
    if xs == [] then ([], ys)
    else
      var first := AgainstRow(op, xs[0], ys);
      var r := RowAgainstRow(op, xs[1..], first.1);
      ([first.0] + r.0, r.1)
  }

  lemma {:induction false} AgainstConcat(op: Op, x: Expr, ys: seq<Expr>, zs: seq<Expr>)
    ensures var a := AgainstRow(op, x, ys);
      var b := AgainstRow(op, a.0, zs);
      AgainstRow(op, x, ys + zs) == (b.0, a.1 + b.1)
    decreases |ys|
  {
    if ys == [] {
      assert ys + zs == zs && AgainstRow(op, x, zs).1 == ys + AgainstRow(op, x, zs).1;
    } else {
      var p := CancelPair(op, x, ys[0]);
      AgainstConcat(op, p.0, ys[1..], zs);
      assert (ys + zs)[0] == ys[0] && (ys + zs)[1..] == ys[1..] + zs;
      var a := AgainstRow(op, p.0, ys[1..]);
      var b := AgainstRow(op, a.0, zs);
      assert [p.1] + (a.1 + b.1) == ([p.1] + a.1) + b.1;
    }
  }

  lemma {:induction false} RowConcat(op: Op, ws: seq<Expr>, xs: seq<Expr>, ys: seq<Expr>)
    ensures var a := RowAgainstRow(op, ws, ys);
      var b := RowAgainstRow(op, xs, a.1);
      RowAgainstRow(op, ws + xs, ys) == (a.0 + b.0, b.1)
    decreases |ws|
  {
    if ws == [] {
      assert ws + xs == xs && RowAgainstRow(op, xs, ys).0 == ws + RowAgainstRow(op, xs, ys).0;
    } else {
      RowConcat(op, ws[1..], xs, AgainstRow(op, ws[0], ys).1);
      assert (ws + xs)[0] == ws[0] && (ws + xs)[1..] == ws[1..] + xs;
      var first := AgainstRow(op, ws[0], ys);
      var a := RowAgainstRow(op, ws[1..], first.1);
      var b := RowAgainstRow(op, xs, a.1);
      assert [first.0] + (a.0 + b.0) == ([first.0] + a.0) + b.0;
    }
  }

  /** The recursion over two trees is the double loop over their operands. */
  lemma {:induction false} CancelIsRows(op: Op, e1: Expr, e2: Expr)
    ensures var w := CancelOperands(op, e1, e2);
      (Operands(op, w.e1), Operands(op, w.e2)) == RowAgainstRow(op, Operands(op, e1), Operands(op, e2))
    decreases Size(e1), Size(e2)
  {
    if IsOp(op, e1) {
      var a := CancelOperands(op, e1.left, e2);
      CancelIsRows(op, e1.left, e2);
      CancelIsRows(op, e1.right, a.e2);
      RowConcat(op, Operands(op, e1.left), Operands(op, e1.right), Operands(op, e2));
    } else {
      CancelIsRow(op, e1, e2);
      assert [e1][0] == e1 && [e1][1..] == [];
      var a := AgainstRow(op, e1, Operands(op, e2));
      assert RowAgainstRow(op, [], a.1) == ([], a.1);
      assert [a.0] + [] == [a.0];
    }
  }

  lemma {:induction false} CancelIsRow(op: Op, x: Expr, e2: Expr)
    requires !IsOp(op, x)
    ensures var w := CancelOperands(op, x, e2);
      !IsOp(op, w.e1) && (w.e1, Operands(op, w.e2)) == AgainstRow(op, x, Operands(op, e2))
    decreases Size(e2)
  {
    if IsOp(op, e2) {
      var a := CancelOperands(op, x, e2.left);
      CancelIsRow(op, x, e2.left);
      CancelIsRow(op, a.e1, e2.right);
      AgainstConcat(op, x, Operands(op, e2.left), Operands(op, e2.right));
    } else {
      var p := CancelPair(op, x, e2);
      assert [e2][0] == e2 && [e2][1..] == [] && [p.1] + [] == [p.1];
      assert AgainstRow(op, p.0, []) == (p.0, []);
    }
  }

  predicate AllYesNo(xs: seq<Expr>) {
    forall i :: 0 <= i < |xs| ==> IsYesNo(xs[i])
  }

  /** What a row leaves of itself. */
  function Wiped(op: Op, xs: seq<Expr>): (r: seq<Expr>)
    ensures AllYesNo(r)
  {
    if xs == [] then [] else [Remains(op, xs[0])] + Wiped(op, xs[1..])
  }

  /** A y or n cancels nothing, and is cancelled by nothing. */
  lemma {:induction false} YesNoStays(op: Op, x: Expr, ys: seq<Expr>)
    requires IsYesNo(x) || AllYesNo(ys)
    ensures AgainstRow(op, x, ys) == (x, ys)
    decreases |ys|
  {
    if ys != [] {
      assert CancelPair(op, x, ys[0]) == (x, ys[0]);
      YesNoStays(op, x, ys[1..]);
      assert [ys[0]] + ys[1..] == ys;
    }
  }

  function Remains(op: Op, x: Expr): (r: Expr)
    ensures IsYesNo(r)
  {
    if IsYesNo(x) then x else Sym(Neutral(op))
  }

  lemma TwinCancels(op: Op, x: Expr, rest: seq<Expr>)
    requires ExprEq(x, x)
    ensures AgainstRow(op, x, [x] + rest) == (Remains(op, x), [Remains(op, x)] + rest)
  {
    hide ExprEq;
    YesNoStays(op, Remains(op, x), rest);
    assert ([x] + rest)[0] == x && ([x] + rest)[1..] == rest;
    assert CancelPair(op, x, x) == (Remains(op, x), Remains(op, x));
  }

  /** Behind operands that are y or n, an operand meets its twin before any other it could cancel. */
  lemma MeetsTwin(op: Op, done: seq<Expr>, x: Expr, rest: seq<Expr>)
    requires AllYesNo(done) && ExprEq(x, x)
    ensures AgainstRow(op, x, done + ([x] + rest)) == (Remains(op, x), (done + [Remains(op, x)]) + rest)
  {
    hide ExprEq, AgainstRow, AllYesNo, Remains;
    AgainstConcat(op, x, done, [x] + rest);
    YesNoStays(op, x, done);
    TwinCancels(op, x, rest);
    assert done + ([Remains(op, x)] + rest) == (done + [Remains(op, x)]) + rest;
  }

  lemma {:induction false} RowAgainstItself(op: Op, done: seq<Expr>, xs: seq<Expr>)
    requires AllYesNo(done)
    requires forall i :: 0 <= i < |xs| ==> ExprEq(xs[i], xs[i])
    ensures RowAgainstRow(op, xs, done + xs) == (Wiped(op, xs), done + Wiped(op, xs))
    decreases |xs|
  {
    hide ExprEq, AgainstRow, Remains;
    if xs == [] {
      assert done + xs == done && done + Wiped(op, xs) == done;
    } else {
      var x, rest := xs[0], xs[1..];
      assert xs == [x] + rest;
      MeetsTwin(op, done, x, rest);
      RowAgainstItself(op, done + [Remains(op, x)], rest);
      assert done + [Remains(op, x)] + Wiped(op, rest) == done + Wiped(op, xs);
    }
  }

  /** A tree of nothing but y and n simplifies to one of them, which the operands decide. */
  lemma {:induction false} YesNoTree(op: Op, e: Expr)
    requires AllYesNo(Operands(op, e))
    ensures EliminateYn(e) == Sym(if Sym(Absorbing(op)) in Operands(op, e) then Absorbing(op) else Neutral(op))
  {
    if IsOp(op, e) {
      var l, r := Operands(op, e.left), Operands(op, e.right);
      assert forall i :: 0 <= i < |l| ==> l[i] == (l + r)[i];
      assert forall i :: 0 <= i < |r| ==> r[i] == (l + r)[|l| + i];
      YesNoTree(op, e.left);
      YesNoTree(op, e.right);
      assert Sym(Absorbing(op)) in l + r <==> Sym(Absorbing(op)) in l || Sym(Absorbing(op)) in r;
    } else {
      assert Operands(op, e) == [e] && Operands(op, e)[0] == e;
    }
  }

  lemma {:induction false} SmallerOperands(op: Op, e: Expr)
    ensures forall i :: 0 <= i < |Operands(op, e)| ==>
      Size(Operands(op, e)[i]) <= Size(e) && (IsOp(op, e) ==> Size(Operands(op, e)[i]) < Size(e))
  {
    if IsOp(op, e) {
      SmallerOperands(op, e.left);
      SmallerOperands(op, e.right);
    }
  }

  lemma {:induction false} OperandsCount(op: Op, e: Expr)
    ensures |Operands(op, e)| >= 1 && (IsOp(op, e) <==> |Operands(op, e)| >= 2)
  {
    if IsOp(op, e) {
      OperandsCount(op, e.left);
      OperandsCount(op, e.right);
    }
  }

  /** Nothing but y and n is left of an expression compared with itself, and the same on both sides. */
  lemma SelfCancelled(e: Expr)
    requires e.Bin?
    requires forall i :: 0 <= i < |Operands(e.op, e)| ==> ExprEq(Operands(e.op, e)[i], Operands(e.op, e)[i])
    ensures var w := CancelOperands(e.op, e, e);
      && IsOp(e.op, w.e1) && IsOp(e.op, w.e2)
      && Operands(e.op, w.e1) == Operands(e.op, w.e2) && AllYesNo(Operands(e.op, w.e1))
  {
    hide CancelOperands, RowAgainstRow, AgainstRow, ExprEq;
    var xs := Operands(e.op, e);
    RowAgainstItself(e.op, [], xs);
    assert [] + xs == xs && [] + Wiped(e.op, xs) == Wiped(e.op, xs);
    CancelIsRows(e.op, e, e);
    var w := CancelOperands(e.op, e, e);
    RowLength(e.op, xs);
    OperandsCount(e.op, e);
    OperandsCount(e.op, w.e1);
    OperandsCount(e.op, w.e2);
  }

  lemma {:induction false} RowLength(op: Op, xs: seq<Expr>)
    ensures |Wiped(op, xs)| == |xs|
  {
    if xs != [] {
      RowLength(op, xs[1..]);
    }
  }

  /** `expr_eq` recognises every expression as equal to itself. */
  lemma {:induction false} ExprEqReflexive(e: Expr)
    ensures ExprEq(e, e)
    decreases Size(e)
  {
    if e.Not? {
      ExprEqReflexive(e.operand);
    } else if e.Bin? {
      var xs := Operands(e.op, e);
      SmallerOperands(e.op, e);
      forall i | 0 <= i < |xs|
        ensures ExprEq(xs[i], xs[i])
      {
        ExprEqReflexive(xs[i]);
      }
      SelfCancelled(e);
      var w := CancelOperands(e.op, e, e);
      YesNoTree(e.op, w.e1);
      YesNoTree(e.op, w.e2);
    }
  }

  /** So a repeated operand is always joined, whatever it is. */
  lemma RepeatedJoined(op: Op, e: Expr)
    ensures Join(op, e, e) == Some(e)
  {
    ExprEqReflexive(e);
  }

  // ---- what two expressions share is taken out ----

  /** An operand that stands in a row cancels. */
  lemma {:induction false} MetInRow(op: Op, x: Expr, ys: seq<Expr>)
    requires x in ys && !IsYesNo(x) && ExprEq(x, x)
    ensures AgainstRow(op, x, ys).0 == Sym(Neutral(op))
    decreases |ys|
  {
    hide ExprEq;
    if ExprEq(x, ys[0]) {
      YesNoStays(op, Sym(Neutral(op)), ys[1..]);
    } else {
      assert x in ys[1..];
      MetInRow(op, x, ys[1..]);
    }
  }

  /** So does the single operand of a row that it stands in. */
  lemma {:induction false} RowMeets(op: Op, xs: seq<Expr>, x: Expr)
    requires x in xs && !IsYesNo(x) && ExprEq(x, x)
    ensures RowAgainstRow(op, xs, [x]).1 == [Sym(Neutral(op))]
    decreases |xs|
  {
    hide ExprEq;
    var neutral := [Sym(Neutral(op))];
    var p := CancelPair(op, xs[0], x);
    assert [x][0] == x && [x][1..] == [] && AgainstRow(op, p.0, []) == (p.0, []);
    assert AgainstRow(op, xs[0], [x]).1 == [p.1];
    if ExprEq(xs[0], x) && !SharedYesNo(xs[0], x) {
      RowAgainstYesNo(op, xs[1..], neutral);
    } else {
      assert x in xs[1..];
      RowMeets(op, xs[1..], x);
    }
  }

  lemma {:induction false} RowAgainstYesNo(op: Op, xs: seq<Expr>, ys: seq<Expr>)
    requires AllYesNo(ys)
    ensures RowAgainstRow(op, xs, ys).1 == ys
    decreases |xs|
  {
    if xs != [] {
      YesNoStays(op, xs[0], ys);
      RowAgainstYesNo(op, xs[1..], ys);
    }
  }

  /** An expression that is an operand of the other one is taken out of both: it becomes y for &&, n for
      ||, on whichever side it stands. */
  lemma SharedOperandGone(x: Expr, e: Expr)
    requires e.Bin? && !x.Bin? && !IsYesNo(x) && x in Operands(e.op, e)
    ensures EliminateEq(x, e).e1 == Sym(Neutral(e.op)) && EliminateEq(e, x).e2 == Sym(Neutral(e.op))
  {
    hide ExprEq;
    ExprEqReflexive(x);
    MetInRow(e.op, x, Operands(e.op, e));
    CancelIsRow(e.op, x, e);
    RowMeets(e.op, Operands(e.op, e), x);
    CancelIsRows(e.op, e, x);
    OperandsCount(e.op, CancelOperands(e.op, e, x).e2);
    assert Operands(e.op, CancelOperands(e.op, e, x).e2)[0] == Sym(Neutral(e.op));
  }
}
