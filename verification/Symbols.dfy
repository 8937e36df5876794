/** Configuration symbols with their properties, and the dependency graph they form. */
module Symbols {
  import opened Expressions

  datatype PropertyKind = Prompt | Comment | Menu | Default | Select | Imply | Range

  datatype Property = Property(kind: PropertyKind, visible: Option<Expr>, expr: Option<Expr>)
  {
    /** `menu_add_prompt` gives a text to these kinds and to no others. */
    predicate HasText() {
      kind == Prompt || kind == Comment || kind == Menu
    }
  }

  datatype SymbolInfo = SymbolInfo(dirDep: Option<Expr>, revDep: Option<Expr>, implied: Option<Expr>,
                                   props: seq<Property>)

  /** All symbols that have a definition. A symbol without one depends on nothing. */
  type Kconfig = map<Symbol, SymbolInfo>

  function Info(k: Kconfig, s: Symbol): SymbolInfo {
    if s in k then k[s] else SymbolInfo(None, None, None, [])
  }

  function ExprSymbols(e: Expr): set<Symbol> {
    match e
    case Bin(_, l, r) => ExprSymbols(l) + ExprSymbols(r)
    case Not(x) => ExprSymbols(x)
    case Compare(_, a, b) => {a, b}
    case Sym(s) => {s}
  }

  function OptSymbols(e: Option<Expr>): set<Symbol> {
    if e.None? then {} else ExprSymbols(e.value)
  }

  /** What a symbol depends on through one of its properties. */
  function PropertySymbols(p: Property): set<Symbol> {
    if p.kind == Select || p.kind == Imply then {}
    else OptSymbols(p.visible) + if p.kind == Default then OptSymbols(p.expr) else {}
  }

  function PropsSymbols(props: seq<Property>): set<Symbol> {
    set p, s | p in props && s in PropertySymbols(p) :: s
  }

  function InfoSymbols(i: SymbolInfo): set<Symbol> {
    OptSymbols(i.dirDep) + OptSymbols(i.revDep) + OptSymbols(i.implied) + PropsSymbols(i.props)
  }

  function Deps(k: Kconfig, s: Symbol): set<Symbol> {
    InfoSymbols(Info(k, s))
  }

  // ---- what a symbol depends on ----

  /** `expr_contains_symbol` */
  predicate ContainsSymbol(e: Expr, s: Symbol) {
    match e
    case Bin(_, l, r) => ContainsSymbol(l, s) || ContainsSymbol(r, s)
    case Not(x) => ContainsSymbol(x, s)
    case Compare(_, a, b) => a == s || b == s
    case Sym(a) => a == s
  }

  predicate OptContains(e: Option<Expr>, s: Symbol) {
    e.Some? && ContainsSymbol(e.value, s)
  }

  lemma {:induction false} SymbolsAreContained(e: Expr, s: Symbol)
    ensures s in ExprSymbols(e) <==> ContainsSymbol(e, s)
  {
    match e
    case Bin(_, l, r) =>
      SymbolsAreContained(l, s);
      SymbolsAreContained(r, s);
    case Not(x) => SymbolsAreContained(x, s);
    case _ =>
  }

  lemma OptSymbolsAreContained(e: Option<Expr>, s: Symbol)
    ensures s in OptSymbols(e) <==> OptContains(e, s)
  {
    if e.Some? {
      SymbolsAreContained(e.value, s);
    }
  }

  /** t stands in the condition of the property, selects and implies apart, or in the value of a default. */
  predicate Mentions(p: Property, t: Symbol) {
    && p.kind != Select && p.kind != Imply
    && (OptContains(p.visible, t) || (p.kind == Default && OptContains(p.expr, t)))
  }

  /** s depends on t if and only if t stands in its direct, reverse or implied dependency, or one of its
      properties mentions t. */
  lemma DepsExactly(k: Kconfig, s: Symbol, t: Symbol)
    ensures var i := Info(k, s);
      t in Deps(k, s) <==>
        || OptContains(i.dirDep, t) || OptContains(i.revDep, t) || OptContains(i.implied, t)
        || exists p :: p in i.props && Mentions(p, t)
  {
    var i := Info(k, s);
    OptSymbolsAreContained(i.dirDep, t);
    OptSymbolsAreContained(i.revDep, t);
    OptSymbolsAreContained(i.implied, t);
    forall p | p in i.props
      ensures t in PropertySymbols(p) <==> Mentions(p, t)
    {
      OptSymbolsAreContained(p.visible, t);
      OptSymbolsAreContained(p.expr, t);
    }
  }

  /** The properties without selects and implies. */
  function WithoutSelects(props: seq<Property>): seq<Property> {
    if props == [] then []
    else (if props[0].kind == Select || props[0].kind == Imply then [] else [props[0]]) + WithoutSelects(props[1..])
  }

  lemma {:induction false} WithoutSelectsKeeps(props: seq<Property>, p: Property)
    ensures p in WithoutSelects(props) <==> p in props && p.kind != Select && p.kind != Imply
  {
    if props != [] {
      WithoutSelectsKeeps(props[1..], p);
      assert p in props <==> p == props[0] || p in props[1..];
    }
  }

  /** Definitions that differ in their selects and implies only. */
  ghost predicate SameButSelects(k: Kconfig, k': Kconfig) {
    && k.Keys == k'.Keys
    && forall s :: Info(k, s).dirDep == Info(k', s).dirDep && Info(k, s).revDep == Info(k', s).revDep
         && Info(k, s).implied == Info(k', s).implied
         && WithoutSelects(Info(k, s).props) == WithoutSelects(Info(k', s).props)
  }

  /** What a symbol selects or implies is no dependency of it: the symbols have the same dependencies,
      and so the same cycles, whatever these properties are. */
  lemma SelectsNotFollowed(k: Kconfig, k': Kconfig, syms: seq<Symbol>)
    requires SameButSelects(k, k')
    ensures forall s :: Deps(k, s) == Deps(k', s)
    ensures Acyclic(k, syms) <==> Acyclic(k', syms)
  {
    hide Deps;
    forall s
      ensures Deps(k, s) == Deps(k', s)
    {
      forall t
        ensures t in Deps(k, s) <==> t in Deps(k', s)
      {
        SelectsNotMentioned(k, k', s, t);
      }
    }
    assert forall p :: IsPath(k, p) <==> IsPath(k', p);
    assert forall s, t :: Reaches(k, s, t) <==> Reaches(k', s, t) by {
      forall s, t
        ensures Reaches(k, s, t) <==> Reaches(k', s, t)
      {
        assert forall p :: Connects(k, p, s, t) <==> Connects(k', p, s, t);
      }
    }
    assert forall s :: OnCycle(k, s) <==> OnCycle(k', s);
  }

  lemma SelectsNotMentioned(k: Kconfig, k': Kconfig, s: Symbol, t: Symbol)
    requires SameButSelects(k, k')
    ensures t in Deps(k, s) <==> t in Deps(k', s)
  {
    hide Deps;
    DepsExactly(k, s, t);
    DepsExactly(k', s, t);
    forall p | Mentions(p, t)
      ensures p in Info(k, s).props <==> p in Info(k', s).props
    {
      WithoutSelectsKeeps(Info(k, s).props, p);
      WithoutSelectsKeeps(Info(k', s).props, p);
    }
  }

  /** Every symbol that is defined or mentioned. */
  function Universe(k: Kconfig): set<Symbol> {
    k.Keys + set s, t | s in k.Keys && t in Deps(k, s) :: t
  }

  lemma DepsInUniverse(k: Kconfig, s: Symbol)
    ensures Deps(k, s) <= Universe(k)
  {
    forall t | t in Deps(k, s)
      ensures t in Universe(k)
    {
      assert s in k.Keys;
    }
  }

  lemma OrderedSnoc(k: Kconfig, order: seq<Symbol>, s: Symbol)
    requires Ordered(k, order)
    requires s !in order && AllIn(Deps(k, s), order)
    ensures Ordered(k, order + [s])
  {
    forall i | 0 <= i < |order + [s]|
      ensures (order + [s])[i] !in (order + [s])[..i] && AllIn(Deps(k, (order + [s])[i]), (order + [s])[..i])
    {
      assert (order + [s])[..i] == order[..i];
    }
  }

  // ---- paths ----

  ghost predicate IsPath(k: Kconfig, p: seq<Symbol>) {
    |p| > 0 && forall i :: 0 <= i < |p| - 1 ==> p[i + 1] in Deps(k, p[i])
  }

  ghost predicate Connects(k: Kconfig, p: seq<Symbol>, s: Symbol, t: Symbol) {
    IsPath(k, p) && p[0] == s && p[|p| - 1] == t
  }

  ghost predicate Reaches(k: Kconfig, s: Symbol, t: Symbol) {
    exists p :: Connects(k, p, s, t)
  }

  ghost predicate OnCycle(k: Kconfig, s: Symbol) {
    exists p :: |p| > 1 && Connects(k, p, s, s)
  }

  lemma ReachesItself(k: Kconfig, s: Symbol)
    ensures Reaches(k, s, s)
  {
    assert Connects(k, [s], s, s);
  }

  lemma ReachesThrough(k: Kconfig, s: Symbol, d: Symbol, t: Symbol)
    requires d in Deps(k, s) && Reaches(k, d, t)
    ensures Reaches(k, s, t)
  {
    var p :| Connects(k, p, d, t);
    assert Connects(k, [s] + p, s, t);
  }

  lemma PathExtends(k: Kconfig, p: seq<Symbol>, s: Symbol)
    requires p == [] || (IsPath(k, p) && s in Deps(k, p[|p| - 1]))
    ensures IsPath(k, p + [s])
  {
  }

  /** t lies on a cycle and one of the symbols reaches it. */
  ghost predicate CycleFrom(k: Kconfig, syms: set<Symbol>, t: Symbol) {
    OnCycle(k, t) && exists s :: s in syms && Reaches(k, s, t)
  }

  lemma CycleFromDeps(k: Kconfig, s: Symbol, t: Symbol)
    requires CycleFrom(k, Deps(k, s), t)
    ensures CycleFrom(k, {s}, t)
  {
    var d :| d in Deps(k, s) && Reaches(k, d, t);
    ReachesThrough(k, s, d, t);
  }

  /** A path whose last symbol depends on an earlier one closes a cycle. */
  lemma CycleCloses(k: Kconfig, p: seq<Symbol>, s: Symbol)
    requires IsPath(k, p) && s in p && s in Deps(k, p[|p| - 1])
    ensures CycleFrom(k, {s}, s)
  {
    var i :| 0 <= i < |p| && p[i] == s;
    assert Connects(k, p[i..] + [s], s, s);
    ReachesItself(k, s);
  }

  // ---- orders ----

  predicate AllIn(syms: set<Symbol>, order: seq<Symbol>) {
    forall s :: s in syms ==> s in order
  }

  /** Every symbol of `order` comes once, after all it depends on. */
  ghost predicate Ordered(k: Kconfig, order: seq<Symbol>) {
    forall i :: 0 <= i < |order| ==> order[i] !in order[..i] && AllIn(Deps(k, order[i]), order[..i])
  }

  ghost function Position(order: seq<Symbol>, s: Symbol): (i: nat)
    requires s in order
    ensures i < |order| && order[i] == s && s !in order[..i]
  {
    if order[0] == s then 0 else
      var j := Position(order[1..], s);
      assert order[..1 + j] == [order[0]] + order[1..][..j];
      1 + j
  }

  lemma PositionDecreases(k: Kconfig, order: seq<Symbol>, s: Symbol, d: Symbol)
    requires Ordered(k, order) && s in order && d in Deps(k, s)
    ensures d in order && Position(order, d) < Position(order, s)
  {
    assert d in order[..Position(order, s)];
    var j :| 0 <= j < Position(order, s) && order[j] == d;
  }

  /** Along a path that starts in an ordered sequence, positions fall. */
  lemma {:induction false} PathDescends(k: Kconfig, order: seq<Symbol>, p: seq<Symbol>)
    requires Ordered(k, order) && IsPath(k, p) && p[0] in order
    ensures p[|p| - 1] in order
    ensures |p| > 1 ==> Position(order, p[|p| - 1]) < Position(order, p[0])
    decreases |p|
  {
    if |p| > 1 {
      PositionDecreases(k, order, p[0], p[1]);
      PathDescends(k, order, p[1..]);
    }
  }

  /** What an ordered sequence reaches is in it and on no cycle. */
  lemma OrderedAcyclic(k: Kconfig, order: seq<Symbol>, s: Symbol, t: Symbol)
    requires Ordered(k, order) && s in order && Reaches(k, s, t)
    ensures t in order && !OnCycle(k, t)
  {
    var p :| Connects(k, p, s, t);
    PathDescends(k, order, p);
    if OnCycle(k, t) {
      var c :| |c| > 1 && Connects(k, c, t, t);
      PathDescends(k, order, c);
    }
  }

  /** Nothing that the given symbols reach is on a cycle. */
  ghost predicate Acyclic(k: Kconfig, syms: seq<Symbol>) {
    forall s, t :: s in syms && Reaches(k, s, t) ==> !OnCycle(k, t)
  }

  lemma OrderedAllAcyclic(k: Kconfig, order: seq<Symbol>, syms: seq<Symbol>)
    requires Ordered(k, order) && forall s :: s in syms ==> s in order
    ensures Acyclic(k, syms)
  {
    forall s, t | s in syms && Reaches(k, s, t)
      ensures !OnCycle(k, t)
    {
      OrderedAcyclic(k, order, s, t);
    }
  }
}
