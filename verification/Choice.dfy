/** Choices: which member of a choice is y. */
module Choice {
  import opened Tristates
  import opened Expressions
  import opened Lists

  /** A default of the choice: the value of its condition, and the symbol it names. */
  datatype ChoiceDefault = ChoiceDefault(cond: Tristate, sym: Symbol)

  type TriMap = map<Symbol, Tristate>

  function ValueIn(m: TriMap, s: Symbol): Tristate {
    if s in m then m[s] else NO
  }

  predicate IsVisible(visible: TriMap, s: Symbol) {
    ValueIn(visible, s) != NO
  }

  /** `entries` are the entries below the choice in menu order, those without a symbol as None;
      `priority` is the order of `choice_members`. */
  datatype State = State(entries: seq<Option<Symbol>>, defaults: seq<ChoiceDefault>, priority: seq<Symbol>,
                         user: TriMap, visible: TriMap)

  // ---- the four ways to choose ----

  /** The first loop of `sym_calc_choice`: visibilities are recomputed on the way to the first visible
      member with the user value y. */
  function Scan(priority: seq<Symbol>, user: TriMap, visible: TriMap, current: Symbol -> Tristate):
      (TriMap, Option<Symbol>)
  {
    if priority == [] then (visible, None)
    else
      var s := priority[0];
      var now := visible[s := current(s)];
      if now[s] != NO && s in user && user[s] == YES then (now, Some(s))
      else Scan(priority[1..], user, now, current)
  }

  function FirstDefault(defaults: seq<ChoiceDefault>, visible: TriMap): Option<Symbol> {
    if defaults == [] then None
    else if defaults[0].cond != NO && IsVisible(visible, defaults[0].sym) then Some(defaults[0].sym)
    else FirstDefault(defaults[1..], visible)
  }

  /** The first visible entry or, if so asked, the first one that also has no user value. */
  function FirstEntry(entries: seq<Option<Symbol>>, visible: TriMap, user: TriMap, unset: bool): Option<Symbol> {
    if entries == [] then None
    else if entries[0].Some? && IsVisible(visible, entries[0].value) && (unset ==> entries[0].value !in user) then entries[0]
    else FirstEntry(entries[1..], visible, user, unset)
  }

  /** `sym_choice_default` */
  function DefaultOf(st: State): Option<Symbol> {
    var d := FirstDefault(st.defaults, st.visible);
    if d.Some? then d else FirstEntry(st.entries, st.visible, st.user, false)
  }

  /** The default, unless the user has set it to n. */
  function AcceptedDefault(st: State): Option<Symbol> {
    var d := DefaultOf(st);
    if d.Some? && d.value in st.user && st.user[d.value] == NO then None else d
  }

  function LastVisible(priority: seq<Symbol>, visible: TriMap): Option<Symbol> {
    if priority == [] then None
    else if IsVisible(visible, priority[|priority| - 1]) then Some(priority[|priority| - 1])
    else LastVisible(priority[..|priority| - 1], visible)
  }

  function Chosen(st: State, wanted: Option<Symbol>): Option<Symbol> {
    if wanted.Some? then wanted
    else if AcceptedDefault(st).Some? then AcceptedDefault(st)
    else if FirstEntry(st.entries, st.visible, st.user, true).Some? then FirstEntry(st.entries, st.visible, st.user, true)
    else LastVisible(st.priority, st.visible)
  }

  /** The symbols of the entries are those on the priority list. */
  ghost predicate MembersAgree(st: State) {
    forall s: Symbol :: Some(s) in st.entries <==> s in st.priority
  }

  ghost predicate UpToDate(st: State, current: Symbol -> Tristate) {
    forall s :: s in st.priority ==> ValueIn(st.visible, s) == current(s)
  }

  /** Visible by what will be known once the visibilities of the members have been computed. */
  predicate WillBeVisible(st: State, current: Symbol -> Tristate, s: Symbol) {
    if s in st.priority then current(s) != NO else IsVisible(st.visible, s)
  }

  predicate ActiveDefault(st: State, current: Symbol -> Tristate, i: nat)
    requires i < |st.defaults|
  {
    st.defaults[i].cond != NO && WillBeVisible(st, current, st.defaults[i].sym)
  }

  predicate IsForeign(st: State, s: Symbol) {
    s !in st.priority && !(s in st.user && st.user[s] == NO)
  }

  /** Before the call: no visible member is y by the user, and the first default that is active names a
      symbol outside the choice that the user has not set to n. */
  ghost predicate ForeignDefault(st: State, current: Symbol -> Tristate) {
    && (forall s :: s in st.priority && current(s) != NO && s in st.user ==> st.user[s] != YES)
    && (exists i: nat :: i < |st.defaults| && IsForeign(st, st.defaults[i].sym) && FirstActive(st, current, i))
  }

  ghost predicate FirstActive(st: State, current: Symbol -> Tristate, i: nat)
    requires i < |st.defaults|
  {
    ActiveDefault(st, current, i) && forall j: nat :: j < i ==> !ActiveDefault(st, current, j)
  }

  /** After the scan: a default has been accepted that names no member. */
  predicate ForeignAccepted(st: State, wanted: Option<Symbol>) {
    wanted.None? && AcceptedDefault(st).Some? && AcceptedDefault(st).value !in st.priority
  }

  lemma {:induction false} ScanVisible(priority: seq<Symbol>, user: TriMap, visible: TriMap, current: Symbol -> Tristate)
    ensures var (now, r) := Scan(priority, user, visible, current);
      && (r.Some? ==> r.value in priority && IsVisible(now, r.value) && r.value in user && user[r.value] == YES)
      && (forall s :: ValueIn(now, s) == ValueIn(visible, s) || (s in priority && ValueIn(now, s) == current(s)))
  {
    if priority != [] {
      ScanVisible(priority[1..], user, visible[priority[0] := current(priority[0])], current);
    }
  }

  lemma {:induction false} FirstEntryVisible(entries: seq<Option<Symbol>>, visible: TriMap, user: TriMap, unset: bool)
    ensures var r := FirstEntry(entries, visible, user, unset);
      if r.Some? then r in entries && IsVisible(visible, r.value)
      else forall s: Symbol :: Some(s) in entries && IsVisible(visible, s) ==> unset && s in user
  {
    if entries != [] {
      FirstEntryVisible(entries[1..], visible, user, unset);
    }
  }

  lemma {:induction false} FirstDefaultVisible(defaults: seq<ChoiceDefault>, visible: TriMap)
    ensures var r := FirstDefault(defaults, visible); r.Some? ==> IsVisible(visible, r.value)
  {
    if defaults != [] {
      FirstDefaultVisible(defaults[1..], visible);
    }
  }

  lemma {:induction false} LastVisibleVisible(priority: seq<Symbol>, visible: TriMap)
    ensures var r := LastVisible(priority, visible);
      if r.Some? then r.value in priority && IsVisible(visible, r.value)
      else forall s :: s in priority ==> !IsVisible(visible, s)
  {
    if priority != [] {
      LastVisibleVisible(priority[..|priority| - 1], visible);
    }
  }

  /** If any member is visible, what is chosen is visible, and a member unless an accepted default is
      not one. */
  lemma ChosenAmongVisible(st: State, wanted: Option<Symbol>)
    requires MembersAgree(st)
    requires wanted.Some? ==> wanted.value in st.priority && IsVisible(st.visible, wanted.value)
    requires exists s :: s in st.priority && IsVisible(st.visible, s)
    ensures Chosen(st, wanted).Some?
    ensures IsVisible(st.visible, Chosen(st, wanted).value)
    ensures Chosen(st, wanted).value in st.priority <==> !ForeignAccepted(st, wanted)
  {
    FirstDefaultVisible(st.defaults, st.visible);
    FirstEntryVisible(st.entries, st.visible, st.user, false);
    FirstEntryVisible(st.entries, st.visible, st.user, true);
    LastVisibleVisible(st.priority, st.visible);
  }

  // ---- when the choice ends at a member ----

  lemma {:induction false} ScanComplete(priority: seq<Symbol>, user: TriMap, visible: TriMap, current: Symbol -> Tristate)
    ensures var (now, r) := Scan(priority, user, visible, current);
      && (r.None? <==> forall s :: s in priority && current(s) != NO && s in user ==> user[s] != YES)
      && (r.None? ==> forall s :: ValueIn(now, s) == if s in priority then current(s) else ValueIn(visible, s))
  {
    if priority != [] {
      var s := priority[0];
      ScanComplete(priority[1..], user, visible[s := current(s)], current);
      assert forall t :: t in priority <==> t == s || t in priority[1..];
    }
  }

  /** The first default with a condition and a visible symbol, counted from i. */
  lemma {:induction false} FirstDefaultAt(st: State, now: State, current: Symbol -> Tristate, i: nat) returns (k: nat)
    requires i <= |st.defaults| && now == st.(visible := now.visible)
    requires forall s :: IsVisible(now.visible, s) <==> WillBeVisible(st, current, s)
    ensures i <= k <= |st.defaults| && forall j: nat :: i <= j < k ==> !ActiveDefault(st, current, j)
    ensures FirstDefault(st.defaults[i..], now.visible) ==
      if k < |st.defaults| then Some(st.defaults[k].sym) else None
    ensures k < |st.defaults| ==> ActiveDefault(st, current, k)
    decreases |st.defaults| - i
  {
    if i == |st.defaults| || ActiveDefault(st, current, i) {
      k := i;
    } else {
      k := FirstDefaultAt(st, now, current, i + 1);
    }
  }

  /** The state after the scan. */
  function Scanned(st: State, current: Symbol -> Tristate): State {
    st.(visible := Scan(st.priority, st.user, st.visible, current).0)
  }

  function Wanted(st: State, current: Symbol -> Tristate): Option<Symbol> {
    Scan(st.priority, st.user, st.visible, current).1
  }

  /** What can be told before the call is what turns out after the scan. */
  lemma ForeignDefaultTold(st: State, current: Symbol -> Tristate)
    requires MembersAgree(st)
    ensures ForeignDefault(st, current) <==> ForeignAccepted(Scanned(st, current), Wanted(st, current))
  {
    ScanComplete(st.priority, st.user, st.visible, current);
    if Wanted(st, current).None? {
      var now := Scanned(st, current);
      var k := FirstDefaultAt(st, now, current, 0);
      assert st.defaults[0..] == st.defaults;
      FirstEntryVisible(now.entries, now.visible, now.user, false);
      if ForeignDefault(st, current) {
        var i: nat :| i < |st.defaults| && IsForeign(st, st.defaults[i].sym) && FirstActive(st, current, i);
        assert i == k;
      }
    }
  }

  /** With a member that is visible, the choice ends at a visible symbol, which is a member if and only
      if no foreign default can be told before. */
  lemma ChosenIsMember(st: State, current: Symbol -> Tristate)
    requires MembersAgree(st)
    requires exists s :: s in st.priority && current(s) != NO
    ensures var now, chosen := Scanned(st, current), Chosen(Scanned(st, current), Wanted(st, current));
      && chosen.Some? && IsVisible(now.visible, chosen.value)
      && (chosen.value in st.priority <==> !ForeignDefault(st, current))
  {
    ScanVisible(st.priority, st.user, st.visible, current);
    ScanComplete(st.priority, st.user, st.visible, current);
    var s :| s in st.priority && current(s) != NO;
    assert Wanted(st, current).None? ==> IsVisible(Scanned(st, current).visible, s);
    ChosenAmongVisible(Scanned(st, current), Wanted(st, current));
    ForeignDefaultTold(st, current);
  }

  // ---- setting the choice ----

  /** The user values and the priority order after `choice_set_value`. */
  function SetUser(entries: seq<Option<Symbol>>, visible: TriMap, user: TriMap, sym: Symbol): TriMap {
    if entries == [] then user
    else
      var e := entries[0];
      SetUser(entries[1..], visible,
        if e.Some? && IsVisible(visible, e.value) then user[e.value := Truth(e.value == sym)] else user, sym)
  }

  function SetPriority(entries: seq<Option<Symbol>>, visible: TriMap, priority: seq<Symbol>): seq<Symbol> {
    if entries == [] then priority
    else
      var e := entries[0];
      SetPriority(entries[1..], visible,
        if e.Some? && IsVisible(visible, e.value) then MoveToFront(priority, e.value) else priority)
  }

  function SetState(st: State, sym: Symbol): State {
    st.(user := SetUser(st.entries, st.visible, st.user, sym),
        priority := SetPriority(st.entries, st.visible, st.priority))
  }

  /** The priority list stays a permutation of the members. */
  lemma {:induction false} SetPriorityPermutes(entries: seq<Option<Symbol>>, visible: TriMap, priority: seq<Symbol>)
    requires forall s: Symbol :: Some(s) in entries ==> s in priority
    ensures multiset(SetPriority(entries, visible, priority)) == multiset(priority)
    ensures forall s :: s in SetPriority(entries, visible, priority) <==> s in priority
  {
    if entries != [] {
      var e := entries[0];
      var p := if e.Some? && IsVisible(visible, e.value) then MoveToFront(priority, e.value) else priority;
      if e.Some? {
        assert Some(e.value) in entries;
        MoveToFrontPermutes(priority, e.value);
      }
      assert multiset(p) == multiset(priority);
      SameElements(p, priority);
      SetPriorityPermutes(entries[1..], visible, p);
    }
  }

  lemma SameElements<T>(a: seq<T>, b: seq<T>)
    requires multiset(a) == multiset(b)
    ensures forall x :: x in a <==> x in b
  {
    assert forall x :: x in a <==> x in multiset(a);
    assert forall x :: x in b <==> x in multiset(b);
  }

  lemma {:induction false} SetUserValues(entries: seq<Option<Symbol>>, visible: TriMap, user: TriMap, sym: Symbol, s: Symbol)
    ensures var u := SetUser(entries, visible, user, sym);
      if Some(s) in entries && IsVisible(visible, s) then s in u && u[s] == Truth(s == sym)
      else (s in u <==> s in user) && (s in u ==> u[s] == user[s])
  {
    if entries != [] {
      var e := entries[0];
      SetUserValues(entries[1..], visible,
        if e.Some? && IsVisible(visible, e.value) then user[e.value := Truth(e.value == sym)] else user, sym, s);
    }
  }

  /** The scan finds the one visible symbol whose user value is y. */
  lemma {:induction false} ScanFindsOnly(priority: seq<Symbol>, user: TriMap, visible: TriMap,
                                         current: Symbol -> Tristate, sym: Symbol)
    requires sym in priority && current(sym) != NO
    requires forall s :: s in priority && current(s) != NO ==> s in user && user[s] == Truth(s == sym)
    ensures Scan(priority, user, visible, current).1 == Some(sym)
  {
    if priority[0] != sym {
      ScanFindsOnly(priority[1..], user, visible[priority[0] := current(priority[0])], current, sym);
    }
  }

  /** After a visible member has been set, it is the one that is chosen. */
  lemma SetThenChosen(st: State, sym: Symbol, current: Symbol -> Tristate)
    requires MembersAgree(st) && UpToDate(st, current)
    requires sym in st.priority && IsVisible(st.visible, sym)
    ensures var st' := SetState(st, sym);
      && multiset(st'.priority) == multiset(st.priority)
      && MembersAgree(st') && UpToDate(st', current)
      && Scan(st'.priority, st'.user, st'.visible, current).1 == Some(sym)
  {
    var st' := SetState(st, sym);
    SetPriorityPermutes(st.entries, st.visible, st.priority);
    forall s | s in st'.priority && current(s) != NO
      ensures s in st'.user && st'.user[s] == Truth(s == sym)
    {
      SetUserValues(st.entries, st.visible, st.user, sym, s);
    }
    ScanFindsOnly(st'.priority, st'.user, st'.visible, current, sym);
  }

  // ---- the choice as the program keeps it ----

  /** The values after a choice has been resolved: of the visible members, the chosen one is y and
      the others are n. */
  ghost predicate Resolved(st: State, res: Option<Symbol>, before: TriMap, curr: TriMap) {
    forall s: Symbol ::
      if Some(s) in st.entries && IsVisible(st.visible, s) then s in curr && curr[s] == Truth(Some(s) == res)
      else (s in curr <==> s in before) && (s in curr ==> curr[s] == before[s])
  }

  ghost predicate IsYes(st: State, curr: TriMap, s: Symbol) {
    Some(s) in st.entries && IsVisible(st.visible, s) && s in curr && curr[s] == YES
  }

  ghost predicate AtMostOneYes(st: State, curr: TriMap) {
    forall s, t :: IsYes(st, curr, s) && IsYes(st, curr, t) ==> s == t
  }

  /** Resolving a choice never leaves two visible members at y. It leaves one, if any is visible,
      exactly when no foreign default can be told before. */
  lemma ResolvedExactlyOne(st: State, current: Symbol -> Tristate, before: TriMap, curr: TriMap)
    requires MembersAgree(st)
    requires exists s :: s in st.priority && current(s) != NO
    requires Resolved(Scanned(st, current), Chosen(Scanned(st, current), Wanted(st, current)), before, curr)
    ensures AtMostOneYes(Scanned(st, current), curr)
    ensures (exists s :: IsYes(Scanned(st, current), curr, s)) <==> !ForeignDefault(st, current)
  {
    hide Scan, Chosen, ForeignDefault;
    ChosenIsMember(st, current);
    var now, chosen := Scanned(st, current), Chosen(Scanned(st, current), Wanted(st, current));
    if chosen.value in st.priority {
      assert IsYes(now, curr, chosen.value);
    }
  }

  class ChoiceMenu {
    const entries: seq<Option<Symbol>>
    const defaults: seq<ChoiceDefault>
    var priority: seq<Symbol>
    var user: TriMap
    var visible: TriMap
    var curr: TriMap

    constructor (entries: seq<Option<Symbol>>, defaults: seq<ChoiceDefault>, priority: seq<Symbol>,
                 user: TriMap, visible: TriMap, curr: TriMap)
      ensures Now() == State(entries, defaults, priority, user, visible) && this.curr == curr
    {
      this.entries, this.defaults, this.priority := entries, defaults, priority;
      this.user, this.visible, this.curr := user, visible, curr;
    }

    function Now(): State
      reads this
    {
      State(entries, defaults, priority, user, visible)
    }

    /** `sym_choice_default` */
    method FindDefault() returns (r: Option<Symbol>)
      ensures r == DefaultOf(Now())
    {
      for i := 0 to |defaults|
        invariant FirstDefault(defaults, visible) == FirstDefault(defaults[i..], visible)
      {
        if defaults[i].cond != NO && IsVisible(visible, defaults[i].sym) {
          return Some(defaults[i].sym);
        }
      }
      r := FindEntry(false);
    }

    method FindEntry(unset: bool) returns (r: Option<Symbol>)
      ensures r == FirstEntry(entries, visible, user, unset)
    {
      for i := 0 to |entries|
        invariant FirstEntry(entries, visible, user, unset) == FirstEntry(entries[i..], visible, user, unset)
      {
        var e := entries[i];
        if e.Some? && IsVisible(visible, e.value) && (unset ==> e.value !in user) {
          return e;
        }
      }
      r := None;
    }

    /** `sym_calc_choice`; `current` is what `sym_calc_visibility` computes for a member. */
    method CalcChoice(current: Symbol -> Tristate) returns (res: Option<Symbol>)
      modifies this`visible, this`curr
      ensures Now() == Scanned(old(Now()), current)
      ensures res == Chosen(Now(), Wanted(old(Now()), current))
      ensures Resolved(Now(), res, old(curr), curr)
      ensures MembersAgree(old(Now())) && (exists s :: s in priority && current(s) != NO) ==>
        AtMostOneYes(Now(), curr) && ((exists s :: IsYes(Now(), curr, s)) <==> !ForeignDefault(old(Now()), current))
    {
      hide Scan, Chosen, ForeignDefault, AtMostOneYes, IsYes, Resolved;
      ghost var st := Now();
      res := FindChoice(current);
      SetValues(res);
      if MembersAgree(st) && exists s :: s in priority && current(s) != NO {
        ResolvedExactlyOne(st, current, old(curr), curr);
      }
    }

    /** Its search for the member that is to be y. */
    method FindChoice(current: Symbol -> Tristate) returns (res: Option<Symbol>)
      modifies this`visible
      ensures Now() == Scanned(old(Now()), current)
      ensures res == Chosen(Now(), Wanted(old(Now()), current))
    {
      res := None;
      var i := 0;
      while i < |priority| && res.None?
        invariant 0 <= i <= |priority|
        invariant if res.Some? then Scan(priority, user, old(visible), current) == (visible, res)
                  else Scan(priority, user, old(visible), current) == Scan(priority[i..], user, visible, current)
      {
        var s := priority[i];
        visible := visible[s := current(s)];
        if visible[s] != NO && s in user && user[s] == YES {
          res := Some(s);
        }
        i := i + 1;
      }
      if res.None? {
        res := FindDefault();
        if res.Some? && res.value in user && user[res.value] == NO {
          res := None;
        }
      }
      if res.None? {
        res := FindEntry(true);
      }
      if res.None? {
        res := FindLast();
      }
    }

    method FindLast() returns (r: Option<Symbol>)
      ensures r == LastVisible(priority, visible)
    {
      var i := |priority|;
      assert priority[..i] == priority;
      while i > 0
        invariant 0 <= i <= |priority|
        invariant LastVisible(priority, visible) == LastVisible(priority[..i], visible)
      {
        assert priority[..i][..i - 1] == priority[..i - 1];
        i := i - 1;
        if IsVisible(visible, priority[i]) {
          return Some(priority[i]);
        }
      }
      r := None;
    }

    /** The last loop of `sym_calc_choice`. */
    method SetValues(res: Option<Symbol>)
      modifies this`curr
      ensures Resolved(Now(), res, old(curr), curr)
    {
      for i := 0 to |entries|
        invariant Resolved(Now().(entries := entries[..i]), res, old(curr), curr)
      {
        assert forall s: Symbol :: Some(s) in entries[..i + 1] <==> Some(s) in entries[..i] || Some(s) == entries[i];
        var e := entries[i];
        if e.Some? && IsVisible(visible, e.value) {
          curr := curr[e.value := Truth(e == res)];
        }
      }
      assert entries[..|entries|] == entries;
    }

    /** `choice_set_value`; says whether a value changes and everything has to be computed again. */
    method SetValue(sym: Symbol) returns (changed: bool)
      modifies this`user, this`priority
      ensures Now() == SetState(old(Now()), sym)
      ensures changed <==> exists s: Symbol ::
        Some(s) in entries && IsVisible(visible, s) && ValueIn(curr, s) != Truth(s == sym)
    {
      changed := false;
      for i := 0 to |entries|
        invariant SetUser(entries, visible, old(user), sym) == SetUser(entries[i..], visible, user, sym)
        invariant SetPriority(entries, visible, old(priority)) == SetPriority(entries[i..], visible, priority)
        invariant changed <==> exists s: Symbol ::
          Some(s) in entries[..i] && IsVisible(visible, s) && ValueIn(curr, s) != Truth(s == sym)
      {
        assert forall s: Symbol :: Some(s) in entries[..i + 1] <==> Some(s) in entries[..i] || Some(s) == entries[i];
        var e := entries[i];
        if e.Some? && IsVisible(visible, e.value) {
          if ValueIn(curr, e.value) != Truth(e.value == sym) {
            changed := true;
          }
          user := user[e.value := Truth(e.value == sym)];
          priority := MoveToFront(priority, e.value);
        }
      }
      assert entries[..|entries|] == entries;
    }
  }

  /** Setting a visible member and resolving the choice leaves exactly that member at y. */
  method SetAndResolve(c: ChoiceMenu, sym: Symbol, current: Symbol -> Tristate)
    requires MembersAgree(c.Now()) && UpToDate(c.Now(), current)
    requires sym in c.priority && IsVisible(c.visible, sym)
    modifies c
    ensures multiset(c.priority) == multiset(old(c.priority))
    ensures forall s :: s in c.priority && IsVisible(c.visible, s) ==> s in c.curr && c.curr[s] == Truth(s == sym)
    ensures IsVisible(c.visible, sym)
  {
    SetThenChosen(c.Now(), sym, current);
    var _ := c.SetValue(sym);
    ScanVisible(c.priority, c.user, c.visible, current);
    var _ := c.CalcChoice(current);
  }

  /** A choice with a visible member whose defaults all name members ends with exactly one at y. */
  lemma OwnDefaultsSuffice(st: State, current: Symbol -> Tristate, before: TriMap, curr: TriMap)
    requires MembersAgree(st)
    requires exists s :: s in st.priority && current(s) != NO
    requires forall d :: d in st.defaults ==> d.sym in st.priority
    requires Resolved(Scanned(st, current), Chosen(Scanned(st, current), Wanted(st, current)), before, curr)
    ensures AtMostOneYes(Scanned(st, current), curr) && exists s :: IsYes(Scanned(st, current), curr, s)
  {
    hide Scan, Chosen, Resolved, IsYes, AtMostOneYes;
    assert !ForeignDefault(st, current);
    ResolvedExactlyOne(st, current, before, curr);
  }

  /** The smallest case of the other kind: the default is a visible symbol that is not a member, and no
      member is chosen. */
  lemma ForeignDefaultLeavesNone(a: Symbol, d: Symbol)
    requires a != d
    ensures var st := State([Some(a)], [ChoiceDefault(YES, d)], [a], map[], map[a := YES, d := YES]);
      && MembersAgree(st) && ForeignDefault(st, _ => YES)
      && Chosen(Scanned(st, _ => YES), Wanted(st, _ => YES)) == Some(d)
  {
    var st := State([Some(a)], [ChoiceDefault(YES, d)], [a], map[], map[a := YES, d := YES]);
    assert FirstActive(st, _ => YES, 0) && IsForeign(st, st.defaults[0].sym);
    ForeignDefaultTold(st, _ => YES);
    ScanVisible(st.priority, st.user, st.visible, _ => YES);
    assert FirstDefault(st.defaults, Scanned(st, _ => YES).visible) == Some(d);
  }
}
