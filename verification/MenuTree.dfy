/** The menu tree: how finalisation rearranges it, and how it is walked. */
module MenuTree {

  /** An entry with its links. `hasSym`: it has a symbol; `isChoice`: that symbol is a choice;
      `hasText`: it has a prompt with a text. */
  class Menu {
    var next: Menu?
    var parent: Menu?
    var list: Menu?
    const hasSym: bool
    const isChoice: bool
    const hasText: bool

    constructor (hasSym: bool, isChoice: bool, hasText: bool)
      ensures next == null && parent == null && list == null
      ensures this.hasSym == hasSym && this.isChoice == isChoice && this.hasText == hasText
    {
      this.hasSym, this.isChoice, this.hasText := hasSym, isChoice, hasText;
      next, parent, list := null, null, null;
    }
  }

  /** What the dependency tests answer for a symbol's entry and an entry that follows it. */
  type Test = (Menu, Menu) -> bool

  /** An entry with all below it. A level of the tree is a sequence of these. */
  datatype Tree = Tree(menu: Menu, children: seq<Tree>)

  /** The entries in depth-first order. */
  ghost function Preorder(ts: seq<Tree>): seq<Menu> {
    if ts == [] then [] else [ts[0].menu] + Preorder(ts[0].children) + Preorder(ts[1..])
  }

  ghost function Count(ts: seq<Tree>): nat {
    |Preorder(ts)|
  }

  lemma {:induction false} PreorderConcat(a: seq<Tree>, b: seq<Tree>)
    ensures Preorder(a + b) == Preorder(a) + Preorder(b)
  {
    if a == [] {
      assert a + b == b;
    } else {
      assert (a + b)[1..] == a[1..] + b && (a + b)[0] == a[0];
      PreorderConcat(a[1..], b);
      var first, middle, last := [a[0].menu] + Preorder(a[0].children), Preorder(a[1..]), Preorder(b);
      Regroup(first, middle, last);
    }
  }

  lemma Regroup(a: seq<Menu>, b: seq<Menu>, c: seq<Menu>)
    ensures a + (b + c) == (a + b) + c
  {
  }

  lemma PreorderCons(t: Tree, ts: seq<Tree>)
    ensures Preorder([t] + ts) == [t.menu] + Preorder(t.children) + Preorder(ts)
  {
    assert ([t] + ts)[1..] == ts;
  }

  lemma PreorderSplit(ts: seq<Tree>)
    requires ts != []
    ensures Preorder(ts) == [ts[0].menu] + Preorder(ts[0].children) + Preorder(ts[1..])
  {
  }

  lemma PreorderLift(ts: seq<Tree>)
    requires ts != []
    ensures Preorder(ts) == [ts[0].menu] + Preorder(ts[0].children + ts[1..])
  {
    PreorderConcat(ts[0].children, ts[1..]);
  }

  // ---- what finalisation does to a level ----

  /** Lifts the children of entries without a prompt text into the level, behind their parent. */
  ghost function Flatten(ts: seq<Tree>): (r: seq<Tree>)
    ensures Preorder(r) == Preorder(ts)
    decreases Count(ts)
  {
    if ts == [] then []
    else if ts[0].children != [] && !ts[0].menu.hasText then
      PreorderLift(ts);
      PreorderCons(Tree(ts[0].menu, []), Flatten(ts[0].children + ts[1..]));
      [Tree(ts[0].menu, [])] + Flatten(ts[0].children + ts[1..])
    else
      PreorderSplit(ts);
      PreorderCons(ts[0], Flatten(ts[1..]));
      [ts[0]] + Flatten(ts[1..])
  }

  /** The entry at the head of a level is finalised; it may take over entries that follow it. */
  ghost function Finalized(ts: seq<Tree>, insideChoice: bool, test: Test): (r: seq<Tree>)
    requires ts != []
    ensures r != [] && r[0].menu == ts[0].menu
    ensures Preorder(r) == Preorder(ts)
    decreases Count(ts), 1
  {
    var p := ts[0].menu;
    PreorderSplit(ts);
    if ts[0].children != [] then
      var below := AllFinalized(ts[0].children, p.hasSym && p.isChoice, test);
      var finished := Tree(p, Flatten(below));
      assert Preorder(finished.children) == Preorder(ts[0].children);
      PreorderCons(finished, ts[1..]);
      [finished] + ts[1..]
    else if !insideChoice && p.hasSym then
      var (taken, left) := Absorbed(p, ts[1..], test);
      PreorderCons(Tree(p, Flatten(taken)), left);
      Regroup([p], Preorder(taken), Preorder(left));
      [Tree(p, Flatten(taken))] + left
    else ts
  }

  ghost function AllFinalized(ts: seq<Tree>, insideChoice: bool, test: Test): (r: seq<Tree>)
    ensures Preorder(r) == Preorder(ts)
    ensures r == [] <==> ts == []
    ensures ts != [] ==> r[0].menu == ts[0].menu
    decreases Count(ts), 2
  {
    if ts == [] then []
    else
      var f := Finalized(ts, insideChoice, test);
      PreorderSplit(f);
      PreorderCons(f[0], AllFinalized(f[1..], insideChoice, test));
      [f[0]] + AllFinalized(f[1..], insideChoice, test)
  }

  /** The entries that go into the submenu of p, finalised, and those left on the level. */
  ghost function Absorbed(p: Menu, ts: seq<Tree>, test: Test): (r: (seq<Tree>, seq<Tree>))
    ensures Preorder(r.0) + Preorder(r.1) == Preorder(ts)
    decreases Count(ts), 2
  {
    if ts == [] || !test(p, ts[0].menu) then ([], ts)
    else
      var f := Finalized(ts, false, test);
      PreorderSplit(f);
      var (taken, left) := Absorbed(p, f[1..], test);
      PreorderCons(f[0], taken);
      ([f[0]] + taken, left)
  }

  /** Just the entries up to the first that fails the test are taken. */
  lemma {:induction false} AbsorbedExactly(p: Menu, ts: seq<Tree>, test: Test)
    ensures var (taken, left) := Absorbed(p, ts, test);
      && (forall t :: t in taken ==> test(p, t.menu))
      && (left != [] ==> !test(p, left[0].menu))
    decreases Count(ts)
  {
    if ts != [] && test(p, ts[0].menu) {
      var f := Finalized(ts, false, test);
      PreorderSplit(f);
      AbsorbedExactly(p, f[1..], test);
    }
  }

  /** When a childless symbol's entry outside a choice is finalised, it does not stop before an entry
      that passes the test; any other entry leaves what follows it alone. */
  lemma FinalizedHead(ts: seq<Tree>, insideChoice: bool, test: Test)
    requires ts != []
    ensures var p, f := ts[0].menu, Finalized(ts, insideChoice, test);
      if ts[0].children == [] && !insideChoice && p.hasSym then |f| > 1 ==> !test(p, f[1].menu)
      else f[1..] == ts[1..]
  {
    if ts[0].children == [] && !insideChoice && ts[0].menu.hasSym {
      AbsorbedExactly(ts[0].menu, ts[1..], test);
    }
  }

  /** An entry with a prompt text keeps its place with all its children. */
  lemma {:induction false} FlattenKeeps(ts: seq<Tree>, t: Tree)
    requires t in ts && t.menu.hasText
    ensures t in Flatten(ts)
    decreases Count(ts)
  {
    PreorderSplit(ts);
    if ts[0].children != [] && !ts[0].menu.hasText {
      PreorderLift(ts);
      FlattenKeeps(ts[0].children + ts[1..], t);
    } else if t != ts[0] {
      FlattenKeeps(ts[1..], t);
    }
  }

  // ---- no entry without a prompt text keeps a submenu ----

  ghost predicate HeadsTidy(ts: seq<Tree>) {
    ts != [] ==> Tidy(ts[0].children) && HeadsTidy(ts[1..])
  }

  /** Below a level and on it, only entries with a prompt text have children. */
  ghost predicate Tidy(ts: seq<Tree>) {
    ts != [] ==> (ts[0].children == [] || ts[0].menu.hasText) && Tidy(ts[0].children) && Tidy(ts[1..])
  }

  lemma {:induction false} HeadsTidyConcat(a: seq<Tree>, b: seq<Tree>)
    requires Tidy(a) && HeadsTidy(b)
    ensures HeadsTidy(a + b)
  {
    if a == [] {
      assert a + b == b;
    } else {
      HeadsTidyConcat(a[1..], b);
      assert (a + b)[1..] == a[1..] + b;
    }
  }

  lemma {:induction false} FlattenTidy(ts: seq<Tree>)
    requires HeadsTidy(ts)
    ensures Tidy(Flatten(ts))
    decreases Count(ts)
  {
    if ts != [] {
      PreorderConcat(ts[0].children, ts[1..]);
      HeadsTidyConcat(ts[0].children, ts[1..]);
      if ts[0].children != [] && !ts[0].menu.hasText {
        FlattenTidy(ts[0].children + ts[1..]);
      } else {
        FlattenTidy(ts[1..]);
      }
    }
  }

  /** What has been finalised is tidy, whatever it looked like before. */
  lemma {:induction false} FinalizedTidy(ts: seq<Tree>, insideChoice: bool, test: Test)
    requires ts != []
    ensures Tidy(Finalized(ts, insideChoice, test)[0].children)
    decreases Count(ts), 1
  {
    var p := ts[0].menu;
    if ts[0].children != [] {
      AllFinalizedTidy(ts[0].children, p.hasSym && p.isChoice, test);
      FlattenTidy(AllFinalized(ts[0].children, p.hasSym && p.isChoice, test));
    } else if !insideChoice && p.hasSym {
      AbsorbedTidy(p, ts[1..], test);
      FlattenTidy(Absorbed(p, ts[1..], test).0);
    }
  }

  lemma {:induction false} AllFinalizedTidy(ts: seq<Tree>, insideChoice: bool, test: Test)
    ensures HeadsTidy(AllFinalized(ts, insideChoice, test))
    decreases Count(ts), 2
  {
    if ts != [] {
      var f := Finalized(ts, insideChoice, test);
      FinalizedTidy(ts, insideChoice, test);
      assert Preorder(f) == [f[0].menu] + Preorder(f[0].children) + Preorder(f[1..]);
      AllFinalizedTidy(f[1..], insideChoice, test);
    }
  }

  lemma {:induction false} AbsorbedTidy(p: Menu, ts: seq<Tree>, test: Test)
    ensures HeadsTidy(Absorbed(p, ts, test).0)
    decreases Count(ts), 2
  {
    if ts != [] && test(p, ts[0].menu) {
      var f := Finalized(ts, false, test);
      FinalizedTidy(ts, false, test);
      assert Preorder(f) == [f[0].menu] + Preorder(f[0].children) + Preorder(f[1..]);
      AbsorbedTidy(p, f[1..], test);
    }
  }

  // ---- which entries get a submenu ----

  /** The first entry below each entry, as the tree before tells it: its first child or, for a childless
      symbol's entry outside a choice, the entry behind it if that passes the test. */
  ghost predicate Promised(ts: seq<Tree>, insideChoice: bool, test: Test, first: Menu -> Menu?) {
    ts != [] ==>
      var p := ts[0].menu;
      && first(p) == (if ts[0].children != [] then ts[0].children[0].menu
                      else if !insideChoice && p.hasSym && |ts| > 1 && test(p, ts[1].menu) then ts[1].menu
                      else null)
      && Promised(ts[0].children, p.hasSym && p.isChoice, test, first)
      && Promised(ts[1..], insideChoice, test, first)
  }

  ghost function FirstOf(ts: seq<Tree>): Menu? {
    if ts == [] then null else ts[0].menu
  }

  /** Each entry with a prompt text has that first child, and no other entry has children. */
  ghost predicate Kept(ts: seq<Tree>, first: Menu -> Menu?) {
    ts != [] ==>
      && FirstOf(ts[0].children) == (if ts[0].menu.hasText then first(ts[0].menu) else null)
      && Kept(ts[0].children, first) && Kept(ts[1..], first)
  }

  /** The same before the level itself is flattened. */
  ghost predicate HeadsKept(ts: seq<Tree>, first: Menu -> Menu?) {
    ts != [] ==>
      && (ts[0].menu.hasText ==> FirstOf(ts[0].children) == first(ts[0].menu))
      && Kept(ts[0].children, first) && HeadsKept(ts[1..], first)
  }

  lemma {:induction false} HeadsKeptConcat(a: seq<Tree>, b: seq<Tree>, first: Menu -> Menu?)
    requires Kept(a, first) && HeadsKept(b, first)
    ensures HeadsKept(a + b, first)
  {
    if a == [] {
      assert a + b == b;
    } else {
      HeadsKeptConcat(a[1..], b, first);
      assert (a + b)[1..] == a[1..] + b;
    }
  }

  lemma {:induction false} FlattenKept(ts: seq<Tree>, first: Menu -> Menu?)
    requires HeadsKept(ts, first)
    ensures Kept(Flatten(ts), first) && FirstOf(Flatten(ts)) == FirstOf(ts)
    decreases Count(ts)
  {
    if ts != [] {
      PreorderSplit(ts);
      var c, rest := ts[0].children, ts[1..];
      if c != [] && !ts[0].menu.hasText {
        PreorderLift(ts);
        HeadsKeptConcat(c, rest, first);
        FlattenKept(c + rest, first);
        assert Flatten(ts)[1..] == Flatten(c + rest);
      } else {
        FlattenKept(rest, first);
        assert Flatten(ts)[1..] == Flatten(rest);
      }
    }
  }

  /** Finalising keeps the promise for the head, and leaves it open for the rest of the level. */
  lemma {:induction false} FinalizedKept(ts: seq<Tree>, insideChoice: bool, test: Test, first: Menu -> Menu?)
    requires ts != [] && Promised(ts, insideChoice, test, first)
    ensures var f := Finalized(ts, insideChoice, test);
      && FirstOf(f[0].children) == first(f[0].menu) && Kept(f[0].children, first)
      && Promised(f[1..], insideChoice, test, first)
    decreases Count(ts), 1
  {
    var p := ts[0].menu;
    PreorderSplit(ts);
    if ts[0].children != [] {
      AllFinalizedKept(ts[0].children, p.hasSym && p.isChoice, test, first);
      FlattenKept(AllFinalized(ts[0].children, p.hasSym && p.isChoice, test), first);
    } else if !insideChoice && p.hasSym {
      AbsorbedKept(p, ts[1..], test, first);
      FlattenKept(Absorbed(p, ts[1..], test).0, first);
    }
  }

  lemma {:induction false} AllFinalizedKept(ts: seq<Tree>, insideChoice: bool, test: Test, first: Menu -> Menu?)
    requires Promised(ts, insideChoice, test, first)
    ensures HeadsKept(AllFinalized(ts, insideChoice, test), first)
    decreases Count(ts), 2
  {
    if ts != [] {
      var f := Finalized(ts, insideChoice, test);
      FinalizedKept(ts, insideChoice, test, first);
      PreorderSplit(f);
      AllFinalizedKept(f[1..], insideChoice, test, first);
      assert AllFinalized(ts, insideChoice, test)[1..] == AllFinalized(f[1..], insideChoice, test);
    }
  }

  lemma {:induction false} AbsorbedKept(p: Menu, ts: seq<Tree>, test: Test, first: Menu -> Menu?)
    requires Promised(ts, false, test, first)
    ensures var (taken, left) := Absorbed(p, ts, test);
      && HeadsKept(taken, first) && Promised(left, false, test, first)
      && FirstOf(taken) == if ts != [] && test(p, ts[0].menu) then ts[0].menu else null
    decreases Count(ts), 2
  {
    if ts != [] && test(p, ts[0].menu) {
      var f := Finalized(ts, false, test);
      FinalizedKept(ts, false, test, first);
      PreorderSplit(f);
      AbsorbedKept(p, f[1..], test, first);
      assert Absorbed(p, ts, test).0[1..] == Absorbed(p, f[1..], test).0;
    }
  }

  // ---- the links that represent a level ----

  ghost function Nodes(ts: seq<Tree>): set<Menu> {
    if ts == [] then {} else {ts[0].menu} + Nodes(ts[0].children) + Nodes(ts[1..])
  }

  /** No entry occurs twice. */
  ghost predicate Distinct(ts: seq<Tree>) {
    ts != [] ==>
      && ts[0].menu !in Nodes(ts[0].children) && ts[0].menu !in Nodes(ts[1..])
      && Nodes(ts[0].children) !! Nodes(ts[1..])
      && Distinct(ts[0].children) && Distinct(ts[1..])
  }

  /** The first entry of a level that continues with `after`. */
  ghost function Head(ts: seq<Tree>, after: Menu?): Menu? {
    if ts == [] then after else ts[0].menu
  }

  /** The entries of ts are linked as a piece of a level below `parent`, and `after` comes next. */
  ghost predicate Linked(ts: seq<Tree>, parent: Menu?, after: Menu?)
    reads Nodes(ts)
  {
    ts != [] ==>
      && ts[0].menu.parent == parent
      && ts[0].menu.next == Head(ts[1..], after)
      && ts[0].menu.list == Head(ts[0].children, null)
      && Linked(ts[0].children, ts[0].menu, null)
      && Linked(ts[1..], parent, after)
  }

  lemma {:induction false} NodesConcat(a: seq<Tree>, b: seq<Tree>)
    ensures Nodes(a + b) == Nodes(a) + Nodes(b)
    ensures Distinct(a + b) <==> Distinct(a) && Distinct(b) && Nodes(a) !! Nodes(b)
  {
    if a == [] {
      assert a + b == b;
    } else {
      NodesConcat(a[1..], b);
      assert (a + b)[1..] == a[1..] + b;
    }
  }

  /** Two pieces make one. */
  lemma {:induction false} LinkedConcat(a: seq<Tree>, b: seq<Tree>, parent: Menu?, after: Menu?)
    ensures Linked(a + b, parent, after) <==> Linked(a, parent, Head(b, after)) && Linked(b, parent, after)
  {
    if a == [] {
      assert a + b == b;
    } else {
      LinkedConcat(a[1..], b, parent, after);
      assert (a + b)[1..] == a[1..] + b;
    }
  }

  ghost function Elements<T>(s: seq<T>): set<T> {
    if s == [] then {} else {s[0]} + Elements(s[1..])
  }

  ghost predicate NoDuplicates<T>(s: seq<T>) {
    s != [] ==> s[0] !in Elements(s[1..]) && NoDuplicates(s[1..])
  }

  lemma {:induction false} NoDuplicatesConcat<T>(a: seq<T>, b: seq<T>)
    ensures Elements(a + b) == Elements(a) + Elements(b)
    ensures NoDuplicates(a + b) <==> NoDuplicates(a) && NoDuplicates(b) && Elements(a) !! Elements(b)
  {
    if a == [] {
      assert a + b == b;
    } else {
      NoDuplicatesConcat(a[1..], b);
      assert (a + b)[1..] == a[1..] + b && (a + b)[0] == a[0];
    }
  }

  /** The links of a level do not repeat an entry exactly when its depth-first order does not. */
  lemma {:induction false} DistinctPreorder(ts: seq<Tree>)
    ensures Nodes(ts) == Elements(Preorder(ts))
    ensures Distinct(ts) <==> NoDuplicates(Preorder(ts))
  {
    if ts != [] {
      var m, c, r := ts[0].menu, ts[0].children, ts[1..];
      DistinctPreorder(c);
      DistinctPreorder(r);
      NoDuplicatesConcat(Preorder(c), Preorder(r));
      assert Preorder(ts) == [m] + (Preorder(c) + Preorder(r));
      assert Preorder(ts)[1..] == Preorder(c) + Preorder(r);
    }
  }

  /** Rearranging entries loses none and duplicates none. */
  lemma SamePreorder(a: seq<Tree>, b: seq<Tree>)
    requires Preorder(a) == Preorder(b)
    ensures Nodes(a) == Nodes(b) && (Distinct(a) <==> Distinct(b))
  {
    DistinctPreorder(a);
    DistinctPreorder(b);
  }

  // ---- relinking ----

  /** Sets what comes after a piece of a level. */
  method SetAfter(last: Menu, after: Menu?, ghost ts: seq<Tree>, ghost parent: Menu?, ghost before: Menu?)
    requires ts != [] && last == ts[|ts| - 1].menu
    requires Linked(ts, parent, before) && Distinct(ts)
    modifies last`next
    ensures Linked(ts, parent, after) && last.next == after && old(last.next) == before
  {
    ghost var init, t := ts[..|ts| - 1], ts[|ts| - 1];
    assert ts == init + [t];
    LinkedConcat(init, [t], parent, before);
    NodesConcat(init, [t]);
    LinkedOne(t, parent, before);
    last.next := after;
    LinkedOne(t, parent, after);
    LinkedConcat(init, [t], parent, after);
  }

  lemma LinkedOne(t: Tree, parent: Menu?, after: Menu?)
    ensures Linked([t], parent, after) <==>
      && t.menu.parent == parent && t.menu.next == after
      && t.menu.list == Head(t.children, null) && Linked(t.children, t.menu, null)
    ensures Nodes([t]) == {t.menu} + Nodes(t.children)
    ensures Distinct([t]) <==> t.menu !in Nodes(t.children) && Distinct(t.children)
  {
    assert [t][1..] == [];
  }

  /** A level is its first tree and the level behind it. */
  lemma LinkedFirst(ts: seq<Tree>, parent: Menu?, after: Menu?)
    requires ts != []
    ensures Linked(ts, parent, after) <==>
      Linked([ts[0]], parent, Head(ts[1..], after)) && Linked(ts[1..], parent, after)
    ensures Nodes(ts) == Nodes([ts[0]]) + Nodes(ts[1..])
    ensures Distinct(ts) <==> Distinct([ts[0]]) && Distinct(ts[1..]) && Nodes([ts[0]]) !! Nodes(ts[1..])
    ensures ts[0].menu in Nodes([ts[0]])
  {
    assert ts == [ts[0]] + ts[1..];
    LinkedConcat([ts[0]], ts[1..], parent, after);
    NodesConcat([ts[0]], ts[1..]);
    LinkedOne(ts[0], parent, after);
  }

  /** A piece of a level grows by the entry behind it. */
  lemma LinkedGrow(done: seq<Tree>, t: Tree, parent: Menu?, after: Menu?)
    requires Linked(done, parent, t.menu) && Linked([t], parent, after)
    ensures Linked(done + [t], parent, after)
    ensures Nodes(done + [t]) == Nodes(done) + Nodes([t])
    ensures Distinct(done + [t]) <==> Distinct(done) && Distinct([t]) && Nodes(done) !! Nodes([t])
  {
    LinkedConcat(done, [t], parent, after);
    NodesConcat(done, [t]);
  }

  /** A level in the middle of a loop: some trees are done, the rest is still to do. */
  ghost predicate Halfway(done: seq<Tree>, todo: seq<Tree>, doneParent: Menu?, parent: Menu?, menu: Menu?)
    reads Nodes(done), Nodes(todo)
  {
    && menu == Head(todo, null)
    && Linked(done, doneParent, menu) && Linked(todo, parent, null)
    && Distinct(done) && Distinct(todo) && Nodes(done) !! Nodes(todo)
  }

  /** One round: the first entry still to do gets its new parent. */
  method ReparentOne(menu: Menu, p: Menu, ghost done: seq<Tree>, ghost todo: seq<Tree>, ghost parent: Menu?)
    requires Halfway(done, todo, p, parent, menu)
    modifies menu`parent
    ensures Halfway(done + [todo[0]], todo[1..], p, parent, menu.next)
    ensures Nodes(done + [todo[0]]) + Nodes(todo[1..]) == Nodes(done) + Nodes(todo)
    ensures menu in Nodes(done + [todo[0]])
  {
    hide Nodes, Distinct;
    ghost var t := todo[0];
    LinkedFirst(todo, parent, null);
    LinkedOne(t, parent, menu.next);
    menu.parent := p;
    LinkedOne(t, p, menu.next);
    LinkedGrow(done, t, p, menu.next);
  }

  /** One round in which the entry keeps its parent. */
  lemma HalfwayNext(done: seq<Tree>, todo: seq<Tree>, p: Menu, menu: Menu)
    requires Halfway(done, todo, p, p, menu)
    ensures Halfway(done + [todo[0]], todo[1..], p, p, menu.next)
    ensures Nodes(done + [todo[0]]) + Nodes(todo[1..]) == Nodes(done) + Nodes(todo)
  {
    hide Nodes, Distinct;
    LinkedFirst(todo, p, null);
    LinkedOne(todo[0], p, menu.next);
    LinkedGrow(done, todo[0], p, menu.next);
  }

  /** Gives the entries of a level a new parent; returns the last of them. */
  method Reparent(first: Menu, parent: Menu, ghost ts: seq<Tree>, ghost oldParent: Menu?) returns (last: Menu)
    requires ts != [] && first == ts[0].menu
    requires Linked(ts, oldParent, null) && Distinct(ts)
    modifies Nodes(ts)
    ensures Linked(ts, parent, null) && last == ts[|ts| - 1].menu && last in Nodes(ts)
  {
    hide Nodes, Distinct, Linked;
    last := first;
    ghost var done, todo := [], ts;
    LinkedNone(parent, last);
    while true
      invariant done + todo == ts && todo != [] && Halfway(done, todo, parent, oldParent, last)
      invariant Nodes(done) + Nodes(todo) == Nodes(ts)
      decreases |todo|
    {
      LinkedFirst(todo, oldParent, null);
      ReparentOne(last, parent, done, todo, oldParent);
      done, todo := done + [todo[0]], todo[1..];
      if last.next == null {
        assert done == ts;
        break;
      }
      last := last.next;
    }
  }

  lemma LinkedNone(parent: Menu?, after: Menu?)
    ensures Linked([], parent, after) && Nodes([]) == {} && Distinct([]) && Flatten([]) == []
  {
  }

  /** The last loop of `_menu_finalize`. */
  method FlattenLevel(parent: Menu, ghost ts: seq<Tree>)
    requires parent.list == Head(ts, null) && Linked(ts, parent, null)
    requires Distinct(ts) && parent !in Nodes(ts)
    modifies Nodes(ts)
    ensures parent.list == Head(Flatten(ts), null) && Linked(Flatten(ts), parent, null)
  {
    hide Nodes, Distinct, Flatten, Preorder, Linked;
    var menu := parent.list;
    ghost var done, todo := [], ts;
    LinkedNone(parent, menu);
    if ts != [] {
      FlattenFirst(ts);
    }
    while menu != null
      invariant Halfway(done, todo, parent, parent, menu)
      invariant Nodes(done) + Nodes(todo) == Nodes(ts)
      invariant Flatten(ts) == done + Flatten(todo)
      decreases Count(todo)
    {
      ghost var before := done;
      FlattenFirst(todo);
      done, todo := FlattenEntry(menu, parent, done, todo);
      assert before + ([done[|before|]] + Flatten(todo)) == done + Flatten(todo);
      menu := menu.next;
    }
    LinkedNone(parent, null);
    assert done + [] == done;
  }

  /** One round of that loop. */
  method FlattenEntry(menu: Menu, parent: Menu, ghost done: seq<Tree>, ghost todo: seq<Tree>)
      returns (ghost done': seq<Tree>, ghost todo': seq<Tree>)
    requires Halfway(done, todo, parent, parent, menu)
    modifies Nodes(todo)
    ensures var t, rest := todo[0], todo[1..];
      if t.children != [] && !menu.hasText then
        done' == done + [Tree(menu, [])] && todo' == t.children + rest
      else
        done' == done + [t] && todo' == rest
    ensures Halfway(done', todo', parent, parent, menu.next)
    ensures Nodes(done') + Nodes(todo') == Nodes(done) + Nodes(todo)
  {
    hide Nodes, Distinct;
    ghost var t, rest := todo[0], todo[1..];
    LinkedFirst(todo, parent, null);
    LinkedOne(t, parent, Head(rest, null));
    if menu.list != null && !menu.hasText {
      assert allocated(Nodes(done));
      Lift(menu, parent, t.children, rest);
      t, rest := Tree(menu, []), t.children + rest;
      LinkedNone(menu, null);
      LinkedOne(t, parent, menu.next);
    }
    LinkedGrow(done, t, parent, menu.next);
    done', todo' := done + [t], rest;
  }

  /** One step of flattening. */
  lemma FlattenFirst(ts: seq<Tree>)
    requires ts != []
    ensures var m, c, rest := ts[0].menu, ts[0].children, ts[1..];
      if c != [] && !m.hasText then
        Flatten(ts) == [Tree(m, [])] + Flatten(c + rest) && Count(c + rest) < Count(ts)
      else
        Flatten(ts) == [ts[0]] + Flatten(rest) && Count(rest) < Count(ts)
  {
    PreorderConcat(ts[0].children, ts[1..]);
  }

  /** Puts the children of an entry between it and what follows it. */
  method Lift(menu: Menu, parent: Menu, ghost children: seq<Tree>, ghost rest: seq<Tree>)
    requires menu.list != null && menu.list == Head(children, null) && menu.next == Head(rest, null)
    requires Linked(children, menu, null) && Linked(rest, parent, null)
    requires Distinct(children) && Distinct(rest) && Nodes(children) !! Nodes(rest)
    requires menu !in Nodes(children) && menu !in Nodes(rest)
    modifies Nodes(children), menu
    ensures menu.list == null && menu.next == Head(children + rest, null) && menu.parent == old(menu.parent)
    ensures Linked(children + rest, parent, null)
    ensures Distinct(children + rest) && Nodes(children + rest) == Nodes(children) + Nodes(rest)
  {
    hide Nodes, Distinct, Preorder;
    assert allocated(Nodes(rest));
    var last := Reparent(menu.list, parent, children, menu);
    SetAfter(last, menu.next, children, parent, null);
    menu.next := menu.list;
    menu.list := null;
    LinkedConcat(children, rest, parent, null);
    NodesConcat(children, rest);
  }

  // ---- finalisation ----

  /** `_menu_finalize` of p, which stands at the head of ts among its siblings. */
  method Finalize(p: Menu, insideChoice: bool, test: Test, ghost ts: seq<Tree>, ghost parent: Menu?)
    requires ts != [] && p == ts[0].menu
    requires Linked(ts, parent, null) && Distinct(ts)
    modifies Nodes(ts)
    ensures Linked(Finalized(ts, insideChoice, test), parent, null)
    decreases Count(ts), 1
  {
    hide Nodes, Distinct, Preorder, Flatten, AllFinalized, Absorbed;
    ghost var t, rest := ts[0], ts[1..];
    LinkedFirst(ts, parent, null);
    LinkedOne(t, parent, Head(rest, null));
    CountFirst(ts);
    assert allocated(Nodes(rest));
    ghost var level := [];
    if p.list != null {
      level := FinalizeChildren(p, p.hasSym && p.isChoice, test, t.children);
    } else if !insideChoice && p.hasSym {
      level, rest := Absorb(p, test, rest, parent);
    } else {
      LinkedNone(p, null);
    }
    assert allocated(Nodes(rest));
    FlattenLevel(p, level);
    SamePreorder(level, Flatten(level));
    LinkedOne(Tree(p, Flatten(level)), parent, Head(rest, null));
    LinkedFirst([Tree(p, Flatten(level))] + rest, parent, null);
  }

  /** The loop over the children of p. */
  method FinalizeChildren(p: Menu, insideChoice: bool, test: Test, ghost ts: seq<Tree>)
      returns (ghost level: seq<Tree>)
    requires p.list == Head(ts, null) && Linked(ts, p, null)
    requires Distinct(ts) && p !in Nodes(ts)
    modifies Nodes(ts)
    ensures level == AllFinalized(ts, insideChoice, test)
    ensures p.list == Head(level, null) && Linked(level, p, null)
    ensures Distinct(level) && Nodes(level) == Nodes(ts)
    decreases Count(ts), 3
  {
    hide Nodes, Distinct, Preorder, Flatten, Finalized, Linked;
    var menu := p.list;
    ghost var done, todo := [], ts;
    LinkedNone(p, menu);
    while menu != null
      invariant Halfway(done, todo, p, p, menu)
      invariant Nodes(done) + Nodes(todo) == Nodes(ts) && Count(todo) <= Count(ts)
      invariant AllFinalized(ts, insideChoice, test) == done + AllFinalized(todo, insideChoice, test)
      decreases Count(todo)
    {
      ghost var f := Finalized(todo, insideChoice, test);
      FinalizeEntry(menu, insideChoice, test, done, todo, p, p);
      HalfwayNext(done, f, p, menu);
      CountFirst(f);
      menu := menu.next;
      assert done + ([f[0]] + AllFinalized(f[1..], insideChoice, test)) == done + [f[0]] + AllFinalized(f[1..], insideChoice, test);
      done, todo := done + [f[0]], f[1..];
    }
    assert done + [] == done;
    level := done;
  }

  /** One round of the loops: the first tree still to do is finalised. */
  method FinalizeEntry(menu: Menu, insideChoice: bool, test: Test, ghost done: seq<Tree>, ghost todo: seq<Tree>,
                       ghost p: Menu, ghost parent: Menu?)
    requires Halfway(done, todo, p, parent, menu)
    modifies Nodes(todo)
    ensures var f := Finalized(todo, insideChoice, test);
      Halfway(done, f, p, parent, menu) && Nodes(f) == Nodes(todo) && Count(f) == Count(todo)
    decreases Count(todo), 2
  {
    hide Nodes, Distinct, Preorder, Flatten, Finalized;
    assert allocated(Nodes(done));
    Finalize(menu, insideChoice, test, todo, parent);
    SamePreorder(todo, Finalized(todo, insideChoice, test));
  }

  lemma AbsorbedStep(p: Menu, ts: seq<Tree>, test: Test)
    ensures if ts == [] || !test(p, ts[0].menu) then Absorbed(p, ts, test) == ([], ts)
      else
        var f := Finalized(ts, false, test);
        var r := Absorbed(p, f[1..], test);
        Absorbed(p, ts, test) == ([f[0]] + r.0, r.1)
  {
  }

  /** One round of the automatic submenu: the entry is finalised and put below p. */
  method AbsorbEntry(menu: Menu, p: Menu, test: Test, ghost taken: seq<Tree>, ghost left: seq<Tree>, ghost parent: Menu?)
    requires Halfway(taken, left, p, parent, menu)
    modifies Nodes(left)
    ensures var f := Finalized(left, false, test);
      && Halfway(taken + [f[0]], f[1..], p, parent, menu.next)
      && Nodes(taken + [f[0]]) + Nodes(f[1..]) == Nodes(taken) + Nodes(left)
      && Count(f) == Count(left)
    decreases Count(left), 3
  {
    hide Nodes, Distinct, Preorder, Flatten, Finalized, Linked;
    ghost var f := Finalized(left, false, test);
    FinalizeEntry(menu, false, test, taken, left, p, parent);
    LinkedFirst(f, parent, null);
    ReparentOne(menu, p, taken, f, parent);
  }

  /** The automatic submenu of p, which takes entries from those that follow it. */
  method Absorb(p: Menu, test: Test, ghost ts: seq<Tree>, ghost parent: Menu?)
      returns (ghost taken: seq<Tree>, ghost left: seq<Tree>)
    requires p.list == null && p.next == Head(ts, null) && Linked(ts, parent, null)
    requires Distinct(ts) && p !in Nodes(ts)
    modifies Nodes(ts), p
    ensures (taken, left) == Absorbed(p, ts, test)
    ensures p.parent == old(p.parent) && p.list == Head(taken, null) && p.next == Head(left, null)
    ensures Linked(taken, p, null) && Linked(left, parent, null)
    ensures Distinct(taken) && Distinct(left) && Nodes(taken) !! Nodes(left) && Nodes(taken) + Nodes(left) == Nodes(ts)
    decreases Count(ts), 4
  {
    hide Nodes, Distinct, Preorder, Flatten, Finalized, Linked, Absorbed;
    var menu := p.next;
    var lastMenu: Menu? := null;
    taken, left := [], ts;
    LinkedNone(p, menu);
    assert [] + Absorbed(p, ts, test).0 == Absorbed(p, ts, test).0;
    while menu != null && test(p, menu)
      invariant Halfway(taken, left, p, parent, menu)
      invariant Nodes(taken) + Nodes(left) == Nodes(ts) && Count(left) <= Count(ts)
      invariant p.next == Head(taken, menu) && p.list == null && p.parent == old(p.parent)
      invariant if taken == [] then lastMenu == null else lastMenu == taken[|taken| - 1].menu && lastMenu in Nodes(taken)
      invariant var r := Absorbed(p, left, test); Absorbed(p, ts, test) == (taken + r.0, r.1)
      decreases Count(left)
    {
      ghost var f := Finalized(left, false, test);
      AbsorbedStep(p, left, test);
      AbsorbEntry(menu, p, test, taken, left, parent);
      CountFirst(f);
      lastMenu := menu;
      menu := menu.next;
      LastInNodes(taken, f[0]);
      ghost var r := Absorbed(p, f[1..], test);
      assert taken + ([f[0]] + r.0) == taken + [f[0]] + r.0;
      taken, left := taken + [f[0]], f[1..];
    }
    AbsorbedStep(p, left, test);
    assert taken + [] == taken;
    if lastMenu != null {
      TakeOver(p, lastMenu, taken, left, parent);
    } else {
      LinkedNone(p, null);
    }
  }

  /** Cuts the entries up to lastMenu off the level of p and makes them its submenu. */
  method TakeOver(p: Menu, lastMenu: Menu, ghost taken: seq<Tree>, ghost left: seq<Tree>, ghost parent: Menu?)
    requires taken != [] && lastMenu == taken[|taken| - 1].menu && p.next == taken[0].menu
    requires Halfway(taken, left, p, parent, Head(left, null))
    requires p !in Nodes(taken) && p !in Nodes(left) && lastMenu in Nodes(taken)
    modifies p`list, p`next, lastMenu`next
    ensures p.list == Head(taken, null) && p.next == Head(left, null)
    ensures Linked(taken, p, null) && Linked(left, parent, null)
  {
    hide Nodes, Distinct;
    assert allocated(Nodes(left));
    p.list := p.next;
    p.next := lastMenu.next;
    SetAfter(lastMenu, null, taken, p, Head(left, null));
  }

  lemma LastInNodes(ts: seq<Tree>, t: Tree)
    ensures t.menu in Nodes(ts + [t])
  {
    NodesConcat(ts, [t]);
  }

  /** The first tree of a level and the level behind it are smaller than the level. */
  lemma CountFirst(ts: seq<Tree>)
    requires ts != []
    ensures Count(ts[0].children) < Count(ts) && Count(ts[1..]) < Count(ts)
  {
  }

  /** The first entry below an entry, as its links tell it before finalisation. */
  ghost function FirstBelow(m: Menu, test: Test): Menu?
    reads m
  {
    if m.list != null then m.list
    else if m.hasSym && m.next != null && test(m, m.next)
         && !(m.parent != null && m.parent.hasSym && m.parent.isChoice) then m.next
    else null
  }

  /** What the links tell is what the tree tells. */
  lemma {:induction false} LinksPromise(ts: seq<Tree>, parent: Menu?, test: Test, first: Menu -> Menu?)
    requires Linked(ts, parent, null) && forall m :: m in Nodes(ts) ==> first(m) == FirstBelow(m, test)
    ensures Promised(ts, parent != null && parent.hasSym && parent.isChoice, test, first)
  {
    if ts != [] {
      LinksPromise(ts[0].children, ts[0].menu, test, first);
      LinksPromise(ts[1..], parent, test, first);
    }
  }

  lemma {:induction false} KeptLinks(ts: seq<Tree>, parent: Menu?, first: Menu -> Menu?)
    requires Linked(ts, parent, null) && Kept(ts, first)
    ensures forall m :: m in Nodes(ts) ==> m.list == if m.hasText then first(m) else null
  {
    if ts != [] {
      KeptLinks(ts[0].children, ts[0].menu, first);
      KeptLinks(ts[1..], parent, first);
    }
  }

  /** `menu_finalize`: whatever the tests answer, the tree below the root has afterwards the same
      entries in the same depth-first order, and every link is right. Only entries with a prompt text
      have a submenu: the one they had or, childless symbols outside a choice, one that begins with
      the entry behind them, if and only if that passes the test. */
  method FinalizeRoot(root: Menu, test: Test, ghost children: seq<Tree>) returns (ghost result: seq<Tree>)
    requires IsTree(root, children)
    modifies {root} + Nodes(children)
    ensures IsTree(root, result)
    ensures Preorder(result) == Preorder(children)
    ensures Tidy(result)
    ensures root.list == old(root.list)
    ensures forall m :: m in Nodes(children) && old(allocated(m)) ==>
      m.list == if m.hasText then old(FirstBelow(m, test)) else null
  {
    hide Nodes, Distinct, Preorder, Linked;
    ghost var before := Tree(root, children);
    ghost var links := map m | m in Nodes([before]) :: FirstBelow(m, test);
    ghost var first: Menu -> Menu? := m => if m in links then links[m] else null;
    ghost var after := Finalized([before], false, test);
    RootLinked(before);
    LinksPromise([before], null, test, first);
    FinalizedKept([before], false, test, first);
    Finalize(root, false, test, [before], null);
    FinalizedTidy([before], false, test);
    FinalizedRoot(before, false, test);
    SamePreorder([before], after);
    result := after[0].children;
    SamePreorder(children, result);
    RootLinked(after[0]);
    KeptLinks(result, root, first);
    FinalizedRootFirst(before, false, test);
  }

  /** The root's first child stays. */
  lemma FinalizedRootFirst(t: Tree, insideChoice: bool, test: Test)
    ensures FirstOf(Finalized([t], insideChoice, test)[0].children) == FirstOf(t.children)
  {
    FinalizedRoot(t, insideChoice, test);
    var f := Finalized([t], insideChoice, test);
    assert f[0].children != [] ==> Preorder(f[0].children)[0] == f[0].children[0].menu;
    assert t.children != [] ==> Preorder(t.children)[0] == t.children[0].menu;
  }

  /** An entry with the levels below it, wherever it stands. */
  ghost predicate IsSubtree(top: Menu, children: seq<Tree>)
    reads top, Nodes(children)
  {
    && top.list == Head(children, null)
    && Linked(children, top, null) && top !in Nodes(children) && Distinct(children)
  }

  /** The root with the levels below it. */
  ghost predicate IsTree(root: Menu, children: seq<Tree>)
    reads root, Nodes(children)
  {
    root.parent == null && root.next == null && IsSubtree(root, children)
  }

  lemma RootLinked(t: Tree)
    ensures IsTree(t.menu, t.children) <==> Linked([t], null, null) && Distinct([t])
    ensures Nodes([t]) == {t.menu} + Nodes(t.children)
  {
    LinkedOne(t, null, null);
  }

  lemma FinalizedRoot(t: Tree, insideChoice: bool, test: Test)
    ensures var f := Finalized([t], insideChoice, test);
      f == [Tree(t.menu, f[0].children)] && Preorder(f[0].children) == Preorder(t.children)
  {
    var f := Finalized([t], insideChoice, test);
    assert [t][1..] == [];
    assert Absorbed(t.menu, [], test) == ([], []);
    assert Preorder([t]) == [t.menu] + Preorder(t.children);
    assert Preorder(f) == [t.menu] + Preorder(f[0].children);
    assert Preorder(t.children) == Preorder([t])[1..] == Preorder(f)[1..] == Preorder(f[0].children);
  }

  /** Each entry of a tree is the top of a subtree. */
  lemma {:induction false} SubtreeAt(ts: seq<Tree>, k: nat, parent: Menu?, after: Menu?)
    requires Linked(ts, parent, after) && Distinct(ts) && k < |ts|
    ensures IsSubtree(ts[k].menu, ts[k].children)
  {
    if k > 0 {
      SubtreeAt(ts[1..], k - 1, parent, after);
    }
  }

  // ---- walking the tree ----

  /** Where a walk is: at the root, or at the first of the trees that remain on a level, below the
      place it came from. */
  datatype Place = AtRoot | Below(todo: seq<Tree>, up: Place)

  ghost function Current(pl: Place, root: Menu): Menu {
    if pl.Below? && pl.todo != [] then pl.todo[0].menu else root
  }

  ghost function PlaceNodes(pl: Place): set<Menu> {
    if pl.AtRoot? then {} else Nodes(pl.todo) + PlaceNodes(pl.up)
  }

  ghost predicate Located(pl: Place, root: Menu)
    reads PlaceNodes(pl)
  {
    pl.Below? ==>
      && pl.todo != [] && root !in Nodes(pl.todo)
      && Linked(pl.todo, Current(pl.up, root), null)
      && Located(pl.up, root)
  }

  /** The entries still to come behind the subtree of the current one. */
  ghost function Behind(pl: Place): seq<Menu> {
    if pl.Below? && pl.todo != [] then Preorder(pl.todo[1..]) + Behind(pl.up) else []
  }

  ghost function ChildrenAt(pl: Place, children: seq<Tree>): seq<Tree> {
    if pl.Below? && pl.todo != [] then pl.todo[0].children else children
  }

  /** All entries still to come. */
  ghost function ToCome(pl: Place, children: seq<Tree>): seq<Menu> {
    Preorder(ChildrenAt(pl, children)) + Behind(pl)
  }

  /** A walk ends at the top of the subtree that is named as its root or, if null is given, at the top
      of the whole tree. */
  ghost predicate EndsAt(root: Menu?, top: Menu)
    reads top
  {
    root == top || (root == null && top.parent == null && top.next == null)
  }

  /** `menu_next`: the next entry below `top` in depth-first order, or null behind the last one. */
  method MenuNext(menu: Menu, root: Menu?, ghost top: Menu, ghost pl: Place, ghost children: seq<Tree>)
      returns (r: Menu?, ghost pl': Place)
    requires IsSubtree(top, children) && EndsAt(root, top)
    requires Located(pl, top) && menu == Current(pl, top)
    ensures IsSubtree(top, children)
    ensures r == null <==> ToCome(pl, children) == []
    ensures r != null ==>
      Located(pl', top) && r == Current(pl', top) && ToCome(pl, children) == [r] + ToCome(pl', children)
  {
    hide Nodes, Distinct, ToCome, Preorder;
    LevelOf(pl, top, children);
    ToComeParts(pl, children);
    if menu.list != null {
      Downward(pl, top, children);
      pl' := Below(ChildrenAt(pl, children), pl);
      return menu.list, pl';
    }
    assert allocated(Nodes(children));
    r, pl' := NextUp(menu, root, top, pl);
    if r != null {
      ToComeParts(pl', children);
    }
  }

  lemma ToComeParts(pl: Place, children: seq<Tree>)
    ensures ToCome(pl, children) == Preorder(ChildrenAt(pl, children)) + Behind(pl)
    ensures Preorder([]) == [] && (ChildrenAt(pl, children) != [] ==> ToCome(pl, children) != [])
  {
  }

  /** From an entry to the first one of the level below it. */
  lemma Downward(pl: Place, root: Menu, children: seq<Tree>)
    requires IsSubtree(root, children) && Located(pl, root) && ChildrenAt(pl, children) != []
    ensures var level, down := ChildrenAt(pl, children), Below(ChildrenAt(pl, children), pl);
      && Located(down, root) && level[0].menu == Current(down, root)
      && ToCome(pl, children) == [level[0].menu] + ToCome(down, children)
  {
    hide Preorder, ToCome, Nodes, Distinct;
    LevelOf(pl, root, children);
    DownwardToCome(pl, children);
  }

  lemma DownwardToCome(pl: Place, children: seq<Tree>)
    requires ChildrenAt(pl, children) != []
    ensures var level := ChildrenAt(pl, children);
      ToCome(pl, children) == [level[0].menu] + ToCome(Below(level, pl), children)
  {
    var level := ChildrenAt(pl, children);
    assert Preorder(level) == [level[0].menu] + Preorder(level[0].children) + Preorder(level[1..]);
  }

  /** The children of the current entry hang below it. */
  lemma LevelOf(pl: Place, root: Menu, children: seq<Tree>)
    requires IsSubtree(root, children) && Located(pl, root)
    ensures var level, menu := ChildrenAt(pl, children), Current(pl, root);
      && menu.list == Head(level, null) && Linked(level, menu, null) && root !in Nodes(level)
  {
  }

  /** The climb of `menu_next` to the next entry on a level above. */
  method NextUp(menu: Menu, root: Menu?, ghost top: Menu, ghost pl: Place) returns (r: Menu?, ghost pl': Place)
    requires EndsAt(root, top) && Located(pl, top) && menu == Current(pl, top)
    ensures r == null <==> Behind(pl) == []
    ensures r != null ==>
      && pl'.Below? && Located(pl', top) && r == Current(pl', top)
      && Behind(pl) == [r] + Preorder(pl'.todo[0].children) + Behind(pl')
  {
    hide Distinct;
    var m: Menu? := menu;
    pl' := pl;
    while m != root && m.next == null
      invariant Located(pl', top) && Behind(pl') == Behind(pl)
      invariant if m == null then root == null && pl'.AtRoot? else m == Current(pl', top)
      decreases pl', m != null
    {
      m := m.parent;
      if pl'.Below? {
        pl' := pl'.up;
      }
    }
    if m == root {
      return null, pl';
    }
    r := m.next;
    ghost var todo := pl'.todo[1..];
    pl' := Below(todo, pl'.up);
    assert Preorder(todo) == [r] + Preorder(todo[0].children) + Preorder(todo[1..]);
  }

  /** `menu_for_each_sub_entry`, of the whole tree or of any entry in it, visits every entry below the
      given one exactly once, in depth-first order, and nothing else. */
  method Walk(root: Menu, ghost children: seq<Tree>) returns (visited: seq<Menu>)
    requires IsSubtree(root, children)
    ensures visited == Preorder(children)
  {
    hide Nodes, Distinct, Linked, Preorder, ToCome;
    visited := [];
    ghost var pl := AtRoot;
    assert ToCome(pl, children) == Preorder(children) by {
      WalkAll(children);
    }
    var menu: Menu?;
    menu, pl := MenuNext(root, root, root, pl, children);
    while menu != null
      invariant IsSubtree(root, children)
      invariant menu == null ==> visited == Preorder(children)
      invariant menu != null ==>
        && Located(pl, root) && menu == Current(pl, root)
        && visited + ([menu] + ToCome(pl, children)) == Preorder(children)
      decreases |Preorder(children)| - |visited|, if menu == null then 0 else 1
    {
      visited := visited + [menu];
      menu, pl := MenuNext(menu, root, root, pl, children);
    }
  }

  lemma WalkAll(children: seq<Tree>)
    ensures ToCome(AtRoot, children) == Preorder(children)
  {
  }
}
