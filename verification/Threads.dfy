/** Who frees a thread's control block. One thread with its control block; any number of join and
    detach calls on its handle run interleaved with it. A call begins when its caller enters it; each
    section under the thread's lock is one step, and so is the end of a join, which frees the block
    and returns. */
module Threads {
  import opened Expressions

  /** The thread's result. */
  type Pointer = int

  /** The thread itself: running, about to free the block after its completion, or finished. */
  datatype Worker = Running | Freeing | Finished

  datatype Kind = Join | Detach

  datatype Call =
    | Begun(kind: Kind)
    | JoinWaiting
    | Joined(value: Pointer)
    | DetachFreeing
    | Detached
    | Refused

  /** Whether the thread was created joinable; the fields of the control block; how often it has been
      freed; whether it was used after that. */
  datatype State = State(joinable: bool, detached: bool, joined: bool, completed: bool, retval: Option<Pointer>,
                         frees: nat, usedFreed: bool, worker: Worker, calls: map<nat, Call>)

  /** `osal_thread_create` */
  predicate IsInitial(s: State) {
    s == State(s.joinable, !s.joinable, false, false, None, 0, false, Running, map[])
  }

  function Touch(s: State): State {
    s.(usedFreed := s.usedFreed || s.frees > 0)
  }

  function Free(s: State): State {
    s.(usedFreed := s.usedFreed || s.frees > 0, frees := s.frees + 1)
  }

  function With(s: State, c: nat, call: Call): State {
    s.(calls := s.calls[c := call])
  }

  predicate At(s: State, c: nat, call: Call) {
    c in s.calls && s.calls[c] == call
  }

  /** `osal_thread_complete`, from the start routine's return or from `osal_thread_exit`. */
  ghost predicate Complete(s: State, s': State, v: Pointer) {
    && s.worker == Running
    && s' == Touch(s).(completed := true, retval := Some(v),
                       worker := if s.detached && !s.joined then Freeing else Finished)
  }

  ghost predicate WorkerFree(s: State, s': State) {
    s.worker == Freeing && s' == Free(s).(worker := Finished)
  }

  /** A caller enters `osal_thread_join` or `osal_thread_detach`. */
  ghost predicate Begin(s: State, s': State, c: nat, kind: Kind) {
    c !in s.calls && s' == With(s, c, Begun(kind))
  }

  /** The section of `osal_thread_join` under the lock. */
  ghost predicate JoinSection(s: State, s': State, c: nat) {
    && At(s, c, Begun(Join))
    && s' == if s.detached || s.joined then With(Touch(s), c, Refused)
             else With(Touch(s).(joined := true), c, JoinWaiting)
  }

  /** The rest of `osal_thread_join`: possible once the thread has completed. */
  ghost predicate JoinReturn(s: State, s': State, c: nat) {
    && At(s, c, JoinWaiting) && s.completed && s.retval.Some?
    && s' == With(Free(s), c, Joined(s.retval.value))
  }

  /** The section of `osal_thread_detach` under the lock. */
  ghost predicate DetachSection(s: State, s': State, c: nat) {
    && At(s, c, Begun(Detach))
    && s' == if s.joined then With(Touch(s), c, Refused)
             else With(Touch(s).(detached := true), c, if s.completed then DetachFreeing else Detached)
  }

  ghost predicate DetachFree(s: State, s': State, c: nat) {
    At(s, c, DetachFreeing) && s' == With(Free(s), c, Detached)
  }

  ghost predicate CallStep(s: State, s': State, c: nat) {
    JoinSection(s, s', c) || JoinReturn(s, s', c) || DetachSection(s, s', c) || DetachFree(s, s', c)
  }

  /** A step of the thread, or of a call that has begun. */
  ghost predicate Progress(s: State, s': State) {
    || (exists v :: Complete(s, s', v))
    || WorkerFree(s, s')
    || (exists c: nat :: CallStep(s, s', c))
  }

  /** The handle may be used: the thread was created joinable, and no call has begun so far. */
  predicate HandleLive(s: State) {
    s.joinable && s.calls == map[]
  }

  /** Steps with callers that respect this when they begin a call; nothing is asked of them later. */
  ghost predicate Step(s: State, s': State) {
    || Progress(s, s')
    || (HandleLive(s) && exists c: nat, kind :: Begin(s, s', c, kind))
  }

  /** What call c has come to; a call that has not begun counts as refused. */
  function CallOf(s: State, c: nat): Call {
    if c in s.calls then s.calls[c] else Refused
  }

  predicate IsJoin(call: Call) {
    call == JoinWaiting || call.Joined?
  }

  predicate IsDetach(call: Call) {
    call == DetachFreeing || call == Detached
  }

  /** Who is to free the block has not done so yet, or is not known yet. */
  ghost predicate FreePending(s: State) {
    s.worker != Finished || !(s.joined || s.detached) || exists c: nat :: FreesLater(CallOf(s, c))
  }

  predicate FreesLater(call: Call) {
    call == JoinWaiting || call == DetachFreeing
  }

  /** There is one call at most, and it is not refused; the block is freed once, by the join, by the
      detach that comes after completion, or by the thread that completes detached. */
  ghost predicate Inv(s: State) {
    && !(s.joined && s.detached) && !s.usedFreed
    && (s.completed <==> s.worker != Running) && (s.completed <==> s.retval.Some?)
    && (!s.joinable ==> s.calls == map[])
    && (forall c: nat :: c in s.calls ==> s.calls[c] != Refused)
    && (forall c: nat, d: nat :: c in s.calls && d in s.calls ==> c == d)
    && (s.joined <==> exists c: nat :: IsJoin(CallOf(s, c)))
    && (s.detached <==> !s.joinable || exists c: nat :: IsDetach(CallOf(s, c)))
    && (s.worker == Freeing ==> s.detached)
    && (forall c: nat :: CallOf(s, c) == DetachFreeing ==> s.worker == Finished)
    && (forall c: nat :: CallOf(s, c).Joined? ==> s.worker == Finished && s.retval == Some(CallOf(s, c).value))
    && s.frees == if FreePending(s) then 0 else 1
  }

  lemma CompleteKeepsInv(s: State, s': State, v: Pointer)
    requires Inv(s) && Complete(s, s', v)
    ensures Inv(s')
  {
    assert forall c: nat :: CallOf(s', c) == CallOf(s, c);
  }

  lemma WorkerFreeKeepsInv(s: State, s': State)
    requires Inv(s) && WorkerFree(s, s')
    ensures Inv(s')
  {
    assert forall c: nat :: CallOf(s', c) == CallOf(s, c);
  }

  lemma BeginKeepsInv(s: State, s': State, c: nat, kind: Kind)
    requires Inv(s) && HandleLive(s) && Begin(s, s', c, kind)
    ensures Inv(s')
  {
    assert forall d: nat :: CallOf(s', d) == if d == c then Begun(kind) else Refused;
    assert forall d: nat :: CallOf(s, d) == Refused;
  }

  lemma CallStepKeepsInv(s: State, s': State, c: nat)
    requires Inv(s) && CallStep(s, s', c)
    ensures Inv(s')
  {
    assert forall d: nat :: d != c ==> CallOf(s', d) == CallOf(s, d) == Refused;
    assert CallOf(s', c) == s'.calls[c] && CallOf(s, c) == s.calls[c];
  }

  lemma StepKeepsInv(s: State, s': State)
    requires Inv(s) && Step(s, s')
    ensures Inv(s')
  {
    if v :| Complete(s, s', v) {
      CompleteKeepsInv(s, s', v);
    } else if WorkerFree(s, s') {
      WorkerFreeKeepsInv(s, s');
    } else if c: nat :| CallStep(s, s', c) {
      CallStepKeepsInv(s, s', c);
    } else {
      var c: nat, kind :| Begin(s, s', c, kind);
      BeginKeepsInv(s, s', c, kind);
    }
  }

  ghost predicate IsRun(run: seq<State>) {
    run != [] && IsInitial(run[0]) && forall i :: 0 <= i < |run| - 1 ==> Step(run[i], run[i + 1])
  }

  lemma {:induction false} RunKeepsInv(run: seq<State>, i: nat)
    requires IsRun(run) && i < |run|
    ensures Inv(run[i])
  {
    if i > 0 {
      RunKeepsInv(run, i - 1);
      StepKeepsInv(run[i - 1], run[i]);
    }
  }

  /** In every run the block is freed at most once and not used afterwards. It has been freed as soon
      as the thread has finished, was joined or detached, and nobody is about to free it. A join
      that has returned gave the value the thread ended with. */
  lemma BlockFreedOnce(run: seq<State>, i: nat, c: nat)
    requires IsRun(run) && i < |run|
    ensures var s := run[i];
      && s.frees <= 1 && !s.usedFreed
      && (s.frees == 1 <==> !FreePending(s))
      && (CallOf(s, c).Joined? ==> s.frees == 1 && s.retval == Some(CallOf(s, c).value))
  {
    RunKeepsInv(run, i);
  }

  /** A finished thread that was joined or detached is never stuck: if the block has not been freed,
      someone can take the step that frees it. */
  lemma FreeIsPossible(run: seq<State>, i: nat) returns (s': State)
    requires IsRun(run) && i < |run|
    requires run[i].completed && (run[i].joined || run[i].detached) && run[i].frees == 0
    ensures Progress(run[i], s') && s'.frees == 1
  {
    RunKeepsInv(run, i);
    s' := NextStep(run[i]);
  }

  // ---- what becomes of a handle that is not live ----

  /** How far the thread and the call still are from the end. */
  ghost function ToGo(s: State): nat {
    (match s.worker case Running => 2 case Freeing => 1 case Finished => 0)
    + if s.joined || s.detached then 0 else 1
  }

  /** Unless the handle is live, the block has been freed or there is a step towards that. */
  lemma NextStep(s: State) returns (s': State)
    requires Inv(s) && !HandleLive(s) && s.frees == 0
    ensures Progress(s, s') && s'.calls.Keys == s.calls.Keys
    ensures s'.frees == 1 || (ToGo(s') < ToGo(s) && !HandleLive(s') && s'.frees == 0)
    ensures s.completed && (s.joined || s.detached) ==> s'.frees == 1
  {
    if s.worker == Running {
      s' := Touch(s).(completed := true, retval := Some(0),
                      worker := if s.detached && !s.joined then Freeing else Finished);
      assert Complete(s, s', 0);
    } else if s.worker == Freeing {
      s' := Free(s).(worker := Finished);
      assert WorkerFree(s, s');
    } else {
      s' := NextCallStep(s);
    }
  }

  lemma NextCallStep(s: State) returns (s': State)
    requires Inv(s) && !HandleLive(s) && s.frees == 0 && s.worker == Finished
    ensures Progress(s, s') && s'.calls.Keys == s.calls.Keys
    ensures s'.frees == 1 || (ToGo(s') < ToGo(s) && !HandleLive(s') && s'.frees == 0)
    ensures s.joined || s.detached ==> s'.frees == 1
  {
    assert FreePending(s);
    assert s.joinable || s.detached;
    var c: nat :| c in s.calls;
    assert forall d: nat :: CallOf(s, d) == if d == c then s.calls[c] else Refused;
    assert IsJoin(CallOf(s, c)) ==> s.joined;
    assert IsDetach(CallOf(s, c)) ==> s.detached;
    assert s.calls[c].Begun? || FreesLater(s.calls[c]);
    if s.calls[c].Begun? {
      assert forall d: nat :: !IsJoin(CallOf(s, d)) && !IsDetach(CallOf(s, d)) && !FreesLater(CallOf(s, d));
      assert !s.joined && !s.detached;
      match s.calls[c].kind {
        case Join =>
          s' := With(Touch(s).(joined := true), c, JoinWaiting);
          assert JoinSection(s, s', c);
        case Detach =>
          s' := With(Touch(s).(detached := true), c, DetachFreeing);
          assert DetachSection(s, s', c);
      }
    } else if s.calls[c] == JoinWaiting {
      s' := With(Free(s), c, Joined(s.retval.value));
      assert JoinReturn(s, s', c);
    } else {
      s' := With(Free(s), c, Detached);
      assert DetachFree(s, s', c);
    }
    assert CallStep(s, s', c) && s'.calls.Keys == s.calls.Keys;
  }

  /** Steps of the thread and of calls that have begun lead from one end of the run to the other. */
  ghost predicate IsSchedule(run: seq<State>) {
    run != [] && forall i :: 0 <= i < |run| - 1 ==> Progress(run[i], run[i + 1])
  }

  lemma WithSwapped(s: State, c: nat, x: Call, d: nat, y: Call)
    requires c != d
    ensures With(With(s, d, y), c, x) == With(With(s, c, x), d, y)
  {
    assert s.calls[d := y][c := x] == s.calls[c := x][d := y];
  }

  lemma JoinBeside(s: State, s': State, d: nat, c: nat, x: Call)
    requires c != d && (JoinSection(s, s', d) || JoinReturn(s, s', d))
    ensures JoinSection(With(s, c, x), With(s', c, x), d) || JoinReturn(With(s, c, x), With(s', c, x), d)
  {
    assert At(With(s, c, x), d, s.calls[d]);
    if JoinSection(s, s', d) {
      WithSwapped(if s.detached || s.joined then Touch(s) else Touch(s).(joined := true), c, x, d, s'.calls[d]);
    } else {
      WithSwapped(Free(s), c, x, d, s'.calls[d]);
    }
  }

  lemma DetachBeside(s: State, s': State, d: nat, c: nat, x: Call)
    requires c != d && (DetachSection(s, s', d) || DetachFree(s, s', d))
    ensures DetachSection(With(s, c, x), With(s', c, x), d) || DetachFree(With(s, c, x), With(s', c, x), d)
  {
    assert At(With(s, c, x), d, s.calls[d]);
    if DetachSection(s, s', d) {
      WithSwapped(if s.joined then Touch(s) else Touch(s).(detached := true), c, x, d, s'.calls[d]);
    } else {
      WithSwapped(Free(s), c, x, d, s'.calls[d]);
    }
  }

  /** A call that has begun does not hinder the others before its section. */
  lemma BesideCall(s: State, s': State, c: nat, kind: Kind)
    requires Progress(s, s') && c !in s.calls
    ensures Progress(With(s, c, Begun(kind)), With(s', c, Begun(kind)))
  {
    hide JoinSection, JoinReturn, DetachSection, DetachFree;
    var t, t' := With(s, c, Begun(kind)), With(s', c, Begun(kind));
    if v :| Complete(s, s', v) {
      assert Complete(t, t', v);
    } else if WorkerFree(s, s') {
      assert WorkerFree(t, t');
    } else {
      var d: nat :| CallStep(s, s', d);
      CallStepInCalls(s, s', d);
      if JoinSection(s, s', d) || JoinReturn(s, s', d) {
        JoinBeside(s, s', d, c, Begun(kind));
      } else {
        DetachBeside(s, s', d, c, Begun(kind));
      }
      assert CallStep(t, t', d);
    }
  }

  lemma CallStepInCalls(s: State, s': State, d: nat)
    requires CallStep(s, s', d)
    ensures d in s.calls
  {
  }

  /** While call c waits for the lock, the block can be freed. */
  lemma {:induction false} FreedMeanwhile(s: State, c: nat, kind: Kind) returns (run: seq<State>)
    requires Inv(s) && !HandleLive(s) && c !in s.calls
    ensures IsSchedule(run) && run[0] == With(s, c, Begun(kind))
    ensures At(run[|run| - 1], c, Begun(kind)) && run[|run| - 1].frees == 1
    decreases ToGo(s)
  {
    if s.frees == 1 {
      run := [With(s, c, Begun(kind))];
    } else {
      var s' := NextStep(s);
      BesideCall(s, s', c, kind);
      StepKeepsInv(s, s');
      if s'.frees == 1 {
        run := [With(s, c, Begun(kind)), With(s', c, Begun(kind))];
      } else {
        var rest := FreedMeanwhile(s', c, kind);
        run := [With(s, c, Begun(kind))] + rest;
      }
    }
  }

  /** The condition is exact. From every state that callers respecting it can reach and in which the
      handle is not live, the next call can be scheduled so that it uses the block after it was freed. */
  lemma MisuseOtherwise(run: seq<State>, c: nat, kind: Kind) returns (more: seq<State>)
    requires IsRun(run)
    requires var s := run[|run| - 1]; !HandleLive(s) && c !in s.calls
    ensures IsSchedule(more) && Begin(run[|run| - 1], more[0], c, kind)
    ensures more[|more| - 1].usedFreed
  {
    var s := run[|run| - 1];
    RunKeepsInv(run, |run| - 1);
    var meanwhile := FreedMeanwhile(s, c, kind);
    var t := meanwhile[|meanwhile| - 1];
    var t' := if kind == Join
      then (if t.detached || t.joined then With(Touch(t), c, Refused) else With(Touch(t).(joined := true), c, JoinWaiting))
      else (if t.joined then With(Touch(t), c, Refused)
            else With(Touch(t).(detached := true), c, if t.completed then DetachFreeing else Detached));
    assert CallStep(t, t', c);
    more := meanwhile + [t'];
    assert forall i :: 0 <= i < |meanwhile| ==> more[i] == meanwhile[i];
  }

  /** Two detach calls that overlap, on a joinable thread that has completed: both free the block. */
  lemma OverlappingDetachFreesTwice(v: Pointer) returns (run: seq<State>)
    ensures |run| == 8 && IsInitial(run[0]) && Complete(run[0], run[1], v)
    ensures HandleLive(run[1]) && Begin(run[1], run[2], 0, Detach)
    ensures !HandleLive(run[2]) && Begin(run[2], run[3], 1, Detach)
    ensures DetachSection(run[3], run[4], 0) && DetachSection(run[4], run[5], 1)
    ensures DetachFree(run[5], run[6], 0) && DetachFree(run[6], run[7], 1)
    ensures run[7].frees == 2
  {
    var s0 := State(true, false, false, false, None, 0, false, Running, map[]);
    var s1 := s0.(completed := true, retval := Some(v), worker := Finished);
    var s2 := With(s1, 0, Begun(Detach));
    var s3 := With(s2, 1, Begun(Detach));
    var s4 := With(s3.(detached := true), 0, DetachFreeing);
    var s5 := With(s4, 1, DetachFreeing);
    var s6 := With(Free(s5), 0, Detached);
    var s7 := With(Free(s6), 1, Detached);
    run := [s0, s1, s2, s3, s4, s5, s6, s7];
  }

  /** The first detach call on a thread created detached, while the thread completes: both free the
      block, although no call has succeeded before. */
  lemma CreatedDetachedFreesTwice(v: Pointer) returns (run: seq<State>)
    ensures |run| == 6 && IsInitial(run[0]) && !run[0].joinable
    ensures Begin(run[0], run[1], 0, Detach) && Complete(run[1], run[2], v)
    ensures DetachSection(run[2], run[3], 0) && WorkerFree(run[3], run[4]) && DetachFree(run[4], run[5], 0)
    ensures run[5].frees == 2
  {
    var s0 := State(false, true, false, false, None, 0, false, Running, map[]);
    var s1 := With(s0, 0, Begun(Detach));
    var s2 := s1.(completed := true, retval := Some(v), worker := Freeing);
    var s3 := With(s2, 0, DetachFreeing);
    var s4 := Free(s3).(worker := Finished);
    var s5 := With(Free(s4), 0, Detached);
    run := [s0, s1, s2, s3, s4, s5];
  }
}
