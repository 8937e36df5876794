/** The search for recursive dependencies, without choices. */
module DepCheck {
  import opened Expressions
  import opened Symbols

  class Checker {
    const k: Kconfig
    /** The symbols with SYMBOL_CHECK and with SYMBOL_CHECKED set. */
    var check: set<Symbol>
    var checked: set<Symbol>
    /** The symbols on the `check_top` stack, bottom first. */
    var stack: seq<Symbol>
    /** The symbols whose check has ended without finding anything, in that order. */
    ghost var finished: seq<Symbol>
    ghost var done: set<Symbol>

    constructor (k: Kconfig)
      ensures this.k == k
      ensures Valid(None) && Clean()
      ensures stack == [] && finished == []
    {
      this.k := k;
      check, checked, stack, finished, done := {}, {}, [], [], {};
    }

    /** The stack is a path of distinct symbols; they and, while it is about to be pushed, s are
        the ones being checked. */
    ghost predicate Valid(s: Option<Symbol>)
      reads this
    {
      && (stack != [] ==> IsPath(k, stack))
      && (forall t :: t in check <==> t in stack || s == Some(t))
      && (s.Some? ==> s.value !in stack && MayVisit({s.value}))
      && check <= checked
      && (forall t :: t in done <==> t in finished)
    }

    /** As long as no cycle has been found, every symbol seen is being checked or finished, and
        finished symbols depend on earlier finished ones only. */
    ghost predicate Clean()
      reads this
    {
      && checked == check + done && check !! done
      && Ordered(k, finished)
    }

    /** The symbols are dependencies of the one on top of the stack. */
    ghost predicate MayVisit(syms: set<Symbol>)
      reads this
    {
      syms <= Universe(k) && (stack != [] ==> syms <= Deps(k, stack[|stack| - 1]))
    }

    ghost function Unseen(): set<Symbol>
      reads this
    {
      Universe(k) - checked
    }

    /** What every call leaves as it was, and what only grows. */
    twostate predicate Kept()
      reads this
    {
      stack == old(stack) && check == old(check) && checked >= old(checked) && done >= old(done)
    }

    /** The outcome of exploring a set of symbols: a symbol on a cycle that one of them reaches, or
        all of them finished. */
    twostate predicate Outcome(new r: Option<Symbol>, syms: set<Symbol>)
      reads this
    {
      && (r.Some? ==> CycleFrom(k, syms, r.value))
      && (r.None? && old(Clean()) ==> Clean() && syms <= done)
    }

    /** `sym_check_expr_deps` */
    method CheckExprDeps(e: Option<Expr>) returns (r: Option<Symbol>)
      requires Valid(None) && stack != []
      requires MayVisit(OptSymbols(e))
      modifies this
      ensures Valid(None) && Kept() && Outcome(r, OptSymbols(e))
      decreases Unseen(), 1, if e.None? then 0 else Size(e.value)
    {
      r := None;
      if e.None? {
        return;
      }
      match e.value {
        case Bin(_, left, right) =>
          r := CheckExprDeps(Some(left));
          if r.Some? {
            return;
          }
          r := CheckExprDeps(Some(right));
        case Not(x) =>
          r := CheckExprDeps(Some(x));
        case Compare(_, a, b) =>
          r := CheckDeps(a);
          if r.Some? {
            return;
          }
          r := CheckDeps(b);
        case Sym(s) =>
          r := CheckDeps(s);
      }
    }

    /** The loop of `sym_check_sym_deps` over the properties. */
    method CheckProps(props: seq<Property>) returns (r: Option<Symbol>)
      requires Valid(None) && stack != []
      requires MayVisit(PropsSymbols(props))
      modifies this
      ensures Valid(None) && Kept() && Outcome(r, PropsSymbols(props))
      decreases Unseen(), 2
    {
      hide Ordered, IsPath, Deps, Universe;
      r := None;
      var i := 0;
      while r.None? && i < |props|
        invariant 0 <= i <= |props|
        invariant Valid(None) && Kept()
        invariant r.Some? ==> CycleFrom(k, PropsSymbols(props), r.value)
        invariant r.None? && old(Clean()) ==> Clean()
        invariant r.None? && old(Clean()) ==> forall j :: 0 <= j < i ==> PropertySymbols(props[j]) <= done
      {
        var prop := props[i];
        assert PropertySymbols(prop) <= PropsSymbols(props);
        if prop.kind != Select && prop.kind != Imply {
          r := CheckExprDeps(prop.visible);
          if r.None? && prop.kind == Default {
            r := CheckExprDeps(prop.expr);
          }
        }
        i := i + 1;
      }
    }

    /** All conditions of the symbol on top of the stack. */
    method CheckInfo(info: SymbolInfo) returns (r: Option<Symbol>)
      requires Valid(None) && stack != []
      requires MayVisit(InfoSymbols(info))
      modifies this
      ensures Valid(None) && Kept() && Outcome(r, InfoSymbols(info))
      decreases Unseen(), 3
    {
      r := CheckExprDeps(info.dirDep);
      if r.None? {
        r := CheckExprDeps(info.revDep);
      }
      if r.None? {
        r := CheckExprDeps(info.implied);
      }
      if r.Some? {
        assert CycleFrom(k, InfoSymbols(info), r.value);
        return;
      }
      r := CheckProps(info.props);
    }

    /** `sym_check_sym_deps` */
    method CheckSymDeps(s: Symbol) returns (r: Option<Symbol>)
      requires Valid(Some(s))
      modifies this
      ensures Valid(Some(s)) && Kept() && Outcome(r, Deps(k, s))
      decreases Unseen(), 4
    {
      hide CycleFrom, Ordered, Universe, IsPath, Info, InfoSymbols;
      ghost var below := stack;
      DepsInUniverse(k, s);
      PathExtends(k, stack, s);
      stack := stack + [s];
      assert stack[|stack| - 1] == s && forall t :: t in stack <==> t in below || t == s;
      r := CheckInfo(Info(k, s));
      stack := stack[..|stack| - 1];
      assert stack == below;
    }

    /** `sym_check_deps` */
    method CheckDeps(s: Symbol) returns (r: Option<Symbol>)
      requires Valid(None) && MayVisit({s})
      modifies this
      ensures Valid(None) && Kept() && Outcome(r, {s})
      decreases Unseen(), 0
    {
      hide CycleFrom, Ordered, IsPath, Deps;
      if s in check {
        CycleCloses(k, stack, s);
        return Some(s);
      }
      if s in checked {
        return None;
      }
      check, checked := check + {s}, checked + {s};
      r := CheckSymDeps(s);
      check := check - {s};
      if r.Some? {
        CycleFromDeps(k, s, r.value);
      } else {
        if old(Clean()) {
          assert AllIn(Deps(k, s), finished);
          OrderedSnoc(k, finished, s);
        }
        finished, done := finished + [s], done + {s};
      }
    }

    /** The check that ends parsing: every symbol of the menu tree in turn, errors counted. No error
        is counted exactly when nothing that these symbols reach lies on a dependency cycle; the
        symbols then have an order in which each comes after all it depends on. */
    method CheckAll(menuSymbols: seq<Symbol>) returns (errors: nat)
      requires Valid(None) && Clean() && stack == []
      requires forall s :: s in menuSymbols ==> s in Universe(k)
      modifies this
      ensures errors == 0 <==> Acyclic(k, menuSymbols)
      ensures errors == 0 ==> Ordered(k, finished) && forall s :: s in menuSymbols ==> s in finished
    {
      errors := 0;
      for i := 0 to |menuSymbols|
        invariant Valid(None) && stack == []
        invariant errors == 0 ==> Clean() && forall j :: 0 <= j < i ==> menuSymbols[j] in done
        invariant errors > 0 ==> !Acyclic(k, menuSymbols)
      {
        var r := CheckDeps(menuSymbols[i]);
        if r.Some? {
          errors := errors + 1;
        }
      }
      if errors == 0 {
        OrderedAllAcyclic(k, finished, menuSymbols);
      }
    }
  }
}
