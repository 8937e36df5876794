/** The three values of a configuration symbol and their logic. */
module Tristates {

  /** `enum tristate`: no = 0, mod = 1, yes = 2. */
  type Tristate = t: int | 0 <= t <= 2

  const NO: Tristate := 0
  const MOD: Tristate := 1
  const YES: Tristate := 2

  function TriAnd(a: Tristate, b: Tristate): Tristate {
    if a < b then a else b
  }

  function TriOr(a: Tristate, b: Tristate): Tristate {
    if a > b then a else b
  }

  function TriNot(a: Tristate): Tristate {
    2 - a
  }

  function Truth(b: bool): Tristate {
    if b then YES else NO
  }
}

/** Dependency expressions, the symbols in them, and their value under a valuation. */
module Expressions {
  import opened Tristates

  datatype Option<+T> = None | Some(value: T)

  datatype SymbolType = Unknown | Boolean | TristateType | Int | Hex | Str

  /** `y`, `m` and `n` are three fixed constants. Every other constant is a literal: a text, with
      the number a complete `strtoll` of that text yields (if it yields one). A configuration symbol
      is known by its name and type. */
  datatype Symbol =
    | SymYes
    | SymMod
    | SymNo
    | Literal(text: string, number: Option<int>)
    | Config(name: string, typ: SymbolType)
  {
    function Type(): SymbolType {
      match this
      case Literal(_, _) => Unknown
      case Config(_, typ) => typ
      case _ => TristateType
    }

    predicate IsTri() {
      Type() == Boolean || Type() == TristateType
    }

    predicate IsConst() {
      !Config?
    }

    /** One of the constants y, m, n. */
    predicate IsTriConst() {
      SymYes? || SymMod? || SymNo?
    }
  }

  datatype Op = OpAnd | OpOr

  datatype Relation = Equal | Unequal | Less | LessEq | Greater | GreaterEq

  /** An expression. Nodes are never changed after they are built, and `expr_lookup` builds at most
      one node per content, so that comparing node pointers is comparing these values. */
  datatype Expr =
    | Bin(op: Op, left: Expr, right: Expr)
    | Not(operand: Expr)
    | Compare(rel: Relation, lhs: Symbol, rhs: Symbol)
    | Sym(sym: Symbol)

  /** The operand that `op` drops, and the one that decides `op`. */
  function Neutral(op: Op): Symbol {
    match op case OpAnd => SymYes case OpOr => SymNo
  }

  function Absorbing(op: Op): Symbol {
    match op case OpAnd => SymNo case OpOr => SymYes
  }

  /** Constants that `expr_eliminate_yn` removes. */
  predicate IsYesNo(e: Expr) {
    e == Sym(SymYes) || e == Sym(SymNo)
  }

  // ---- values ----

  /** A valuation: the tristate value of every symbol, and for every ordered pair of symbols the
      three-way result of comparing their values. */
  datatype Env = Env(tri: Symbol -> Tristate, order: (Symbol, Symbol) -> int)

  predicate SameSign(a: int, b: int) {
    (a < 0 <==> b < 0) && (a > 0 <==> b > 0)
  }

  /** What every valuation that symbol evaluation can produce satisfies: the constants have their
      own value, a boolean is never m, a symbol that is neither boolean nor tristate has tristate
      value n, and boolean and tristate symbols compare by the number of their value. No literal
      is spelled y, m or n, so a literal that is not a number equals none of them. */
  ghost predicate Valuation(env: Env) {
    && ConstantsFixed(env)
    && (forall s: Symbol {:trigger env.tri(s)} :: s.Type() == Boolean ==> env.tri(s) != MOD)
    && (forall s: Symbol {:trigger env.tri(s)} :: !s.IsTri() ==> env.tri(s) == NO)
    && (forall a: Symbol, b: Symbol {:trigger env.order(a, b)} ::
          a.IsTri() && b.IsTri() ==> SameSign(env.order(a, b), env.tri(a) - env.tri(b)))
    && (forall a: Symbol, b: Symbol {:trigger env.order(a, b)} ::
          a.IsTri() && b.Literal? ==>
            if b.number.Some? then SameSign(env.order(a, b), env.tri(a) - b.number.value)
            else env.order(a, b) != 0)
  }

  predicate ConstantsFixed(env: Env) {
    env.tri(SymYes) == YES && env.tri(SymMod) == MOD && env.tri(SymNo) == NO
  }

  predicate Holds(rel: Relation, order: int) {
    match rel
    case Equal => order == 0
    case Unequal => order != 0
    case Less => order < 0
    case LessEq => order <= 0
    case Greater => order > 0
    case GreaterEq => order >= 0
  }

  function Apply(op: Op, a: Tristate, b: Tristate): Tristate {
    match op case OpAnd => TriAnd(a, b) case OpOr => TriOr(a, b)
  }

  function Eval(e: Expr, env: Env): Tristate {
    match e
    case Bin(op, l, r) => Apply(op, Eval(l, env), Eval(r, env))
    case Not(x) => TriNot(Eval(x, env))
    case Compare(rel, a, b) => Truth(Holds(rel, env.order(a, b)))
    case Sym(s) => env.tri(s)
  }

  /** A missing expression counts as y. */
  function EvalOpt(e: Option<Expr>, env: Env): Tristate {
    match e case None => YES case Some(x) => Eval(x, env)
  }

  function AllocAnd(a: Option<Expr>, b: Option<Expr>): (r: Option<Expr>)
    ensures forall env: Env :: EvalOpt(r, env) == TriAnd(EvalOpt(a, env), EvalOpt(b, env))
  {
    if a.None? then b else if b.None? then a else Some(Bin(OpAnd, a.value, b.value))
  }

  function Size(e: Expr): nat {
    match e
    case Bin(_, l, r) => 1 + Size(l) + Size(r)
    case Not(x) => 1 + Size(x)
    case Compare(_, _, _) => 1
    case Sym(_) => 1
  }
}
