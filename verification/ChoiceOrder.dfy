/** In which order a choice looks for its member, and in which order it keeps its members. */
module ChoiceOrder {
  import opened Tristates
  import opened Expressions
  import opened Lists
  import opened Choice

  // ---- the search ----

  /** The member of the scan: visible, and y by the user. */
  predicate Wants(user: TriMap, current: Symbol -> Tristate, s: Symbol) {
    current(s) != NO && s in user && user[s] == YES
  }

  /** The scan finds the first such member on the priority list. */
  lemma {:induction false} ScanFirst(priority: seq<Symbol>, user: TriMap, visible: TriMap, current: Symbol -> Tristate, k: nat)
    requires k < |priority| && Wants(user, current, priority[k])
    requires forall j :: 0 <= j < k ==> !Wants(user, current, priority[j])
    ensures Scan(priority, user, visible, current).1 == Some(priority[k])
  {
    if k > 0 {
      assert !Wants(user, current, priority[0]);
      ScanFirst(priority[1..], user, visible[priority[0] := current(priority[0])], current, k - 1);
    }
  }

  /** An entry that can be chosen: visible and, if so asked, without a user value. */
  predicate Qualifies(st: State, e: Option<Symbol>, unset: bool) {
    e.Some? && IsVisible(st.visible, e.value) && (unset ==> e.value !in st.user)
  }

  predicate IsFirstEntry(st: State, k: nat, unset: bool) {
    && k < |st.entries| && Qualifies(st, st.entries[k], unset)
    && forall j :: 0 <= j < k ==> !Qualifies(st, st.entries[j], unset)
  }

  predicate NoEntry(st: State, unset: bool) {
    forall e :: e in st.entries ==> !Qualifies(st, e, unset)
  }

  lemma {:induction false} FirstEntryFound(st: State, k: nat, unset: bool)
    requires IsFirstEntry(st, k, unset)
    ensures FirstEntry(st.entries, st.visible, st.user, unset) == st.entries[k]
    decreases k
  {
    if k > 0 {
      var rest := st.(entries := st.entries[1..]);
      assert !Qualifies(st, st.entries[0], unset);
      assert forall j :: 0 <= j < k - 1 ==> rest.entries[j] == st.entries[j + 1];
      FirstEntryFound(rest, k - 1, unset);
    }
  }

  lemma {:induction false} NoEntryFound(st: State, unset: bool)
    requires NoEntry(st, unset)
    ensures FirstEntry(st.entries, st.visible, st.user, unset) == None
    decreases |st.entries|
  {
    if st.entries != [] {
      assert !Qualifies(st, st.entries[0], unset);
      var rest := st.(entries := st.entries[1..]);
      assert forall e :: e in rest.entries ==> e in st.entries && Qualifies(rest, e, unset) == Qualifies(st, e, unset);
      NoEntryFound(rest, unset);
    }
  }

  predicate Applies(st: State, d: ChoiceDefault) {
    d.cond != NO && IsVisible(st.visible, d.sym)
  }

  predicate IsFirstDefault(st: State, i: nat) {
    i < |st.defaults| && Applies(st, st.defaults[i]) && forall j :: 0 <= j < i ==> !Applies(st, st.defaults[j])
  }

  predicate NoDefault(st: State) {
    forall d :: d in st.defaults ==> !Applies(st, d)
  }

  lemma {:induction false} FirstDefaultFound(st: State, i: nat)
    requires IsFirstDefault(st, i)
    ensures FirstDefault(st.defaults, st.visible) == Some(st.defaults[i].sym)
    decreases i
  {
    if i > 0 {
      var rest := st.(defaults := st.defaults[1..]);
      assert !Applies(st, st.defaults[0]);
      assert forall j :: 0 <= j < i - 1 ==> rest.defaults[j] == st.defaults[j + 1];
      FirstDefaultFound(rest, i - 1);
    }
  }

  lemma {:induction false} NoDefaultFound(st: State)
    requires NoDefault(st)
    ensures FirstDefault(st.defaults, st.visible) == None
    decreases |st.defaults|
  {
    if st.defaults != [] {
      assert !Applies(st, st.defaults[0]);
      var rest := st.(defaults := st.defaults[1..]);
      assert forall d :: d in rest.defaults ==> d in st.defaults && Applies(rest, d) == Applies(st, d);
      NoDefaultFound(rest);
    }
  }

  predicate IsLastVisible(st: State, k: nat) {
    && k < |st.priority| && IsVisible(st.visible, st.priority[k])
    && forall j :: k < j < |st.priority| ==> !IsVisible(st.visible, st.priority[j])
  }

  lemma {:induction false} LastVisibleFound(st: State, k: nat)
    requires IsLastVisible(st, k)
    ensures LastVisible(st.priority, st.visible) == Some(st.priority[k])
    decreases |st.priority|
  {
    if k < |st.priority| - 1 {
      LastVisibleFound(st.(priority := st.priority[..|st.priority| - 1]), k);
    }
  }

  /** The default of a choice is what its first applicable default names or, if none applies, the first
      visible entry. */
  ghost predicate IsDefault(st: State, s: Symbol) {
    || (exists i: nat :: IsFirstDefault(st, i) && st.defaults[i].sym == s)
    || (NoDefault(st) && exists k: nat :: IsFirstEntry(st, k, false) && st.entries[k] == Some(s))
  }

  lemma DefaultFound(st: State, s: Symbol)
    requires IsDefault(st, s)
    ensures DefaultOf(st) == Some(s)
  {
    if i: nat :| IsFirstDefault(st, i) && st.defaults[i].sym == s {
      FirstDefaultFound(st, i);
    } else {
      NoDefaultFound(st);
      var k: nat :| IsFirstEntry(st, k, false) && st.entries[k] == Some(s);
      FirstEntryFound(st, k, false);
    }
  }

  predicate SetToNo(st: State, s: Symbol) {
    s in st.user && st.user[s] == NO
  }

  /** Without a member wanted by the user, the choice falls to the default that the user has not set to
      n; otherwise to the first visible entry without a user value; otherwise to the last visible one
      on the priority list. */
  lemma ChosenByRank(st: State, s: Symbol, k: nat)
    ensures IsDefault(st, s) && !SetToNo(st, s) ==> Chosen(st, None) == Some(s)
    ensures IsDefault(st, s) && SetToNo(st, s) && IsFirstEntry(st, k, true) ==> Chosen(st, None) == st.entries[k]
    ensures IsDefault(st, s) && SetToNo(st, s) && NoEntry(st, true) && IsLastVisible(st, k) ==>
      Chosen(st, None) == Some(st.priority[k])
  {
    hide FirstEntry, FirstDefault, LastVisible, IsFirstEntry, NoEntry, IsLastVisible, IsDefault, DefaultOf;
    if IsDefault(st, s) {
      DefaultFound(st, s);
    }
    if IsFirstEntry(st, k, true) {
      FirstEntryFound(st, k, true);
      FirstEntryIsSome(st, k, true);
    }
    if NoEntry(st, true) {
      NoEntryFound(st, true);
    }
    if IsLastVisible(st, k) {
      LastVisibleFound(st, k);
    }
  }

  lemma FirstEntryIsSome(st: State, k: nat, unset: bool)
    requires IsFirstEntry(st, k, unset)
    ensures k < |st.entries| && st.entries[k].Some?
  {
  }

  // ---- the order of the members after a setting ----

  /** The symbols of the visible entries, in menu order. */
  function VisibleRow(entries: seq<Option<Symbol>>, visible: TriMap): seq<Symbol> {
    if entries == [] then []
    else (if entries[0].Some? && IsVisible(visible, entries[0].value) then [entries[0].value] else [])
         + VisibleRow(entries[1..], visible)
  }

  /** Each symbol once, where it occurs last. */
  function LastOnce(row: seq<Symbol>): seq<Symbol> {
    if row == [] then [] else (if row[0] in row[1..] then [] else [row[0]]) + LastOnce(row[1..])
  }

  function Reversed(row: seq<Symbol>): seq<Symbol> {
    if row == [] then [] else Reversed(row[1..]) + [row[0]]
  }

  /** The members that are not in the row, in their order. */
  function Others(priority: seq<Symbol>, row: seq<Symbol>): seq<Symbol> {
    if priority == [] then []
    else (if priority[0] in row then [] else [priority[0]]) + Others(priority[1..], row)
  }

  /** A row that starts with x leaves the same others as the row behind it does of a list without x. */
  lemma {:induction false} OthersWithout(priority: seq<Symbol>, x: Symbol, row: seq<Symbol>)
    requires row != [] && row[0] == x && Distinct(priority)
    ensures Others(Remove(priority, x), row[1..]) == Others(priority, row)
  {
    if priority != [] {
      var rest := priority[1..];
      assert Distinct(rest);
      if priority[0] == x {
        assert x !in rest;
        OthersSame(rest, x, row);
      } else {
        OthersWithout(rest, x, row);
        assert Remove(priority, x)[0] == priority[0] && Remove(priority, x)[1..] == Remove(rest, x);
      }
    }
  }

  lemma {:induction false} OthersSame(list: seq<Symbol>, x: Symbol, row: seq<Symbol>)
    requires row != [] && row[0] == x && x !in list
    ensures Others(list, row[1..]) == Others(list, row)
  {
    if list != [] {
      OthersSame(list[1..], x, row);
    }
  }

  lemma {:induction false} RemoveDistinct(list: seq<Symbol>, x: Symbol)
    requires Distinct(list)
    ensures Distinct(Remove(list, x)) && x !in Remove(list, x)
    ensures forall s :: s != x ==> (s in Remove(list, x) <==> s in list)
  {
    if list != [] {
      var first, rest := list[0], list[1..];
      DistinctSplit(list);
      assert forall s :: s in list <==> s == first || s in rest;
      if first != x {
        RemoveDistinct(rest, x);
        DistinctCons(first, Remove(rest, x));
        assert forall s :: s in [first] + Remove(rest, x) <==> s == first || s in Remove(rest, x);
      }
    }
  }

  lemma DistinctSplit(list: seq<Symbol>)
    requires list != [] && Distinct(list)
    ensures Distinct(list[1..]) && list[0] !in list[1..]
  {
  }

  lemma DistinctCons(x: Symbol, list: seq<Symbol>)
    requires Distinct(list) && x !in list
    ensures Distinct([x] + list)
  {
  }

  /** Putting the members of a row to the front one by one. */
  function AllToFront(priority: seq<Symbol>, row: seq<Symbol>): seq<Symbol>
    decreases |row|
  {
    if row == [] then priority else AllToFront(MoveToFront(priority, row[0]), row[1..])
  }

  lemma {:induction false} SetPriorityIsRow(entries: seq<Option<Symbol>>, visible: TriMap, priority: seq<Symbol>)
    ensures SetPriority(entries, visible, priority) == AllToFront(priority, VisibleRow(entries, visible))
    decreases |entries|
  {
    if entries != [] {
      var e := entries[0];
      var seen := e.Some? && IsVisible(visible, e.value);
      SetPriorityIsRow(entries[1..], visible, if seen then MoveToFront(priority, e.value) else priority);
      if seen {
        var row := VisibleRow(entries, visible);
        assert row[0] == e.value && row[1..] == VisibleRow(entries[1..], visible);
      } else {
        assert VisibleRow(entries, visible) == VisibleRow(entries[1..], visible);
      }
    }
  }

  lemma OthersFirst(x: Symbol, list: seq<Symbol>, row: seq<Symbol>)
    ensures Others([x] + list, row) == (if x in row then [] else [x]) + Others(list, row)
  {
    assert ([x] + list)[0] == x && ([x] + list)[1..] == list;
  }

  lemma LastOnceFirst(row: seq<Symbol>)
    requires row != []
    ensures Reversed(LastOnce(row)) == Reversed(LastOnce(row[1..])) + if row[0] in row[1..] then [] else [row[0]]
  {
    var x, rest := row[0], LastOnce(row[1..]);
    if x in row[1..] {
      assert LastOnce(row) == rest && Reversed(rest) + [] == Reversed(rest);
    } else {
      assert LastOnce(row) == [x] + rest && LastOnce(row)[1..] == rest;
    }
  }

  lemma {:induction false} AllToFrontOrder(priority: seq<Symbol>, row: seq<Symbol>)
    requires Distinct(priority)
    ensures AllToFront(priority, row) == Reversed(LastOnce(row)) + Others(priority, row)
    decreases |row|
  {
    hide Remove, Distinct, Others, LastOnce, Reversed;
    if row == [] {
      OthersOfNothing(priority);
      assert Reversed(LastOnce([])) == [] by { NothingReversed(); }
      assert [] + priority == priority;
    } else {
      var x, rest := row[0], row[1..];
      var list := Remove(priority, x);
      RemoveDistinct(priority, x);
      DistinctCons(x, list);
      AllToFrontOrder([x] + list, rest);
      OthersFirst(x, list, rest);
      OthersWithout(priority, x, row);
      LastOnceFirst(row);
      var front, one := Reversed(LastOnce(rest)), if x in rest then [] else [x];
      assert front + (one + Others(priority, row)) == (front + one) + Others(priority, row);
    }
  }

  lemma NothingReversed()
    ensures Reversed(LastOnce([])) == []
  {
  }

  lemma {:induction false} OthersOfNothing(priority: seq<Symbol>)
    ensures Others(priority, []) == priority
  {
    if priority != [] {
      OthersOfNothing(priority[1..]);
    }
  }

  /** After a setting the visible entries stand at the front, the last one first, and the other members
      follow in their old order. */
  lemma SetPriorityOrder(st: State, sym: Symbol)
    requires Distinct(st.priority)
    ensures var row := VisibleRow(st.entries, st.visible);
      SetState(st, sym).priority == Reversed(LastOnce(row)) + Others(st.priority, row)
  {
    SetPriorityIsRow(st.entries, st.visible, st.priority);
    AllToFrontOrder(st.priority, VisibleRow(st.entries, st.visible));
  }
}
