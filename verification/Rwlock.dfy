/** The reader-writer lock: one unlock call for readers and writers, told apart by a flag. Any number
    of acquisitions run interleaved; each step is one atomic operation. */
module Rwlock {

  datatype Mode = Reader | Writer

  /** Where an acquisition is: it does not exist yet (`Outside`); a writer has the semaphore but has
      not set the flag yet (`Taken`); it holds the lock; it has read the flag in unlock and is about
      to release the semaphore as `calls` says. */
  datatype Phase = Outside | Taken | Holding(mode: Mode) | Releasing(held: Mode, calls: Mode)

  /** The semaphore counts readers and knows whether a writer has it. `writer` is the flag. */
  datatype State = State(readers: int, written: bool, writer: bool, phases: map<nat, Phase>)

  function PhaseOf(s: State, a: nat): Phase {
    if a in s.phases then s.phases[a] else Outside
  }

  const INITIAL := State(0, false, false, map[])

  /** `read_lock`, or a `try_read_lock` that succeeds. */
  ghost predicate ReadLock(s: State, s': State, a: nat) {
    && PhaseOf(s, a) == Outside && !s.written
    && s' == s.(readers := s.readers + 1, phases := s.phases[a := Holding(Reader)])
  }

  /** The first step of `write_lock`, or of a `try_write_lock` that succeeds. */
  ghost predicate WriteTake(s: State, s': State, a: nat) {
    && PhaseOf(s, a) == Outside && !s.written && s.readers == 0
    && s' == s.(written := true, phases := s.phases[a := Taken])
  }

  /** The second step, which sets the flag. */
  ghost predicate WriteFlag(s: State, s': State, a: nat) {
    && PhaseOf(s, a) == Taken
    && s' == s.(writer := true, phases := s.phases[a := Holding(Writer)])
  }

  /** The first step of unlock, by whoever holds the lock: the flag is exchanged with 0. */
  ghost predicate UnlockExchange(s: State, s': State, a: nat) {
    && PhaseOf(s, a).Holding?
    && s' == s.(writer := false,
                phases := s.phases[a := Releasing(PhaseOf(s, a).mode, if s.writer then Writer else Reader)])
  }

  /** The second step of unlock. */
  ghost predicate UnlockRelease(s: State, s': State, a: nat) {
    && PhaseOf(s, a).Releasing?
    && s' == if PhaseOf(s, a).calls == Writer then s.(written := false, phases := s.phases[a := Outside])
             else s.(readers := s.readers - 1, phases := s.phases[a := Outside])
  }

  ghost predicate Step(s: State, s': State) {
    exists a: nat ::
      ReadLock(s, s', a) || WriteTake(s, s', a) || WriteFlag(s, s', a) || UnlockExchange(s, s', a) || UnlockRelease(s, s', a)
  }

  predicate IsReader(p: Phase) {
    p == Holding(Reader) || (p.Releasing? && p.held == Reader)
  }

  predicate IsWriter(p: Phase) {
    p == Taken || p == Holding(Writer) || (p.Releasing? && p.held == Writer)
  }

  function Readers(s: State): set<nat> {
    set a | a in s.phases && IsReader(s.phases[a])
  }

  /** The semaphore is held as the phases say, by readers or by one writer; the flag is set exactly
      while a writer holds the lock; everyone in unlock releases what it held. */
  ghost predicate Inv(s: State) {
    && s.readers == |Readers(s)|
    && (s.written <==> exists a: nat :: IsWriter(PhaseOf(s, a)))
    && (s.written ==> s.readers == 0)
    && (forall a: nat, b: nat :: IsWriter(PhaseOf(s, a)) && IsWriter(PhaseOf(s, b)) ==> a == b)
    && (s.writer <==> exists a: nat :: PhaseOf(s, a) == Holding(Writer))
    && (forall a: nat :: PhaseOf(s, a).Releasing? ==> PhaseOf(s, a).calls == PhaseOf(s, a).held)
  }

  lemma ReadersChange(s: State, s': State, a: nat, p: Phase)
    requires s'.phases == s.phases[a := p]
    ensures |Readers(s')| == |Readers(s)| - (if IsReader(PhaseOf(s, a)) then 1 else 0) + if IsReader(p) then 1 else 0
  {
    var others := Readers(s) - {a};
    assert Readers(s) == if IsReader(PhaseOf(s, a)) then others + {a} else others;
    assert Readers(s') == if IsReader(p) then others + {a} else others;
  }

  lemma NoReaders(s: State, a: nat)
    requires |Readers(s)| == 0
    ensures !IsReader(PhaseOf(s, a))
  {
    assert Readers(s) == {};
    assert a in Readers(s) <==> IsReader(PhaseOf(s, a));
  }

  lemma StepKeepsInv(s: State, s': State)
    requires Inv(s) && Step(s, s')
    ensures Inv(s')
  {
    var a: nat :| ReadLock(s, s', a) || WriteTake(s, s', a) || WriteFlag(s, s', a)
      || UnlockExchange(s, s', a) || UnlockRelease(s, s', a);
    ReadersChange(s, s', a, PhaseOf(s', a));
    assert forall b: nat :: b != a ==> PhaseOf(s', b) == PhaseOf(s, b);
    if s.readers == 0 {
      NoReaders(s, a);
    }
  }

  ghost predicate IsRun(run: seq<State>) {
    run != [] && run[0] == INITIAL && forall i :: 0 <= i < |run| - 1 ==> Step(run[i], run[i + 1])
  }

  lemma {:induction false} RunKeepsInv(run: seq<State>, i: nat)
    requires IsRun(run) && i < |run|
    ensures Inv(run[i])
  {
    if i == 0 {
      assert Readers(INITIAL) == {};
    } else {
      RunKeepsInv(run, i - 1);
      StepKeepsInv(run[i - 1], run[i]);
    }
  }

  /** In every run: while the flag is 1 a writer holds the lock, while a reader does it is 0, and the
      one unlock call always releases the semaphore the way it was taken. */
  lemma UnlockReleasesWhatIsHeld(run: seq<State>, i: nat, a: nat)
    requires IsRun(run) && i < |run|
    ensures var s := run[i];
      && (s.writer ==> s.written && exists b: nat :: PhaseOf(s, b) == Holding(Writer))
      && (IsReader(PhaseOf(s, a)) ==> !s.writer && !s.written && s.readers > 0)
      && (PhaseOf(s, a).Releasing? ==> PhaseOf(s, a).calls == PhaseOf(s, a).held)
  {
    RunKeepsInv(run, i);
    var s := run[i];
    if IsReader(PhaseOf(s, a)) {
      assert a in Readers(s);
    }
  }

  /** A writer excludes every other holder. */
  lemma WriterExcludes(run: seq<State>, i: nat, a: nat, b: nat)
    requires IsRun(run) && i < |run| && a != b
    requires IsWriter(PhaseOf(run[i], a))
    ensures !IsWriter(PhaseOf(run[i], b)) && !IsReader(PhaseOf(run[i], b))
  {
    RunKeepsInv(run, i);
    NoReaders(run[i], b);
  }

  // ---- who is let in, and that everyone gets out ----

  /** A reader is let in if and only if no writer has the semaphore; a writer if and only if nobody has. */
  lemma Admission(run: seq<State>, i: nat, a: nat)
    requires IsRun(run) && i < |run| && PhaseOf(run[i], a) == Outside
    ensures var s := run[i];
      && ((exists s' :: ReadLock(s, s', a)) <==> forall b: nat :: !IsWriter(PhaseOf(s, b)))
      && ((exists s' :: WriteTake(s, s', a)) <==> forall b: nat :: !IsWriter(PhaseOf(s, b)) && !IsReader(PhaseOf(s, b)))
  {
    RunKeepsInv(run, i);
    var s := run[i];
    if forall b: nat :: !IsWriter(PhaseOf(s, b)) {
      assert ReadLock(s, s.(readers := s.readers + 1, phases := s.phases[a := Holding(Reader)]), a);
      if forall b: nat :: !IsReader(PhaseOf(s, b)) {
        assert forall b: nat :: b in Readers(s) ==> IsReader(PhaseOf(s, b));
        assert Readers(s) == {};
        assert WriteTake(s, s.(written := true, phases := s.phases[a := Taken]), a);
      }
    }
    if s' :| WriteTake(s, s', a) {
      forall b: nat
        ensures !IsReader(PhaseOf(s, b))
      {
        NoReaders(s, b);
      }
    }
  }

  ghost predicate IsSchedule(run: seq<State>) {
    run != [] && forall i :: 0 <= i < |run| - 1 ==> Step(run[i], run[i + 1])
  }

  function Active(s: State): set<nat> {
    set a | a in s.phases && s.phases[a] != Outside
  }

  /** One acquisition can be brought to its end. */
  lemma OneOut(s: State, a: nat) returns (more: seq<State>)
    requires a in Active(s)
    ensures IsSchedule(more) && more[0] == s && more[|more| - 1].phases == s.phases[a := Outside]
    decreases if PhaseOf(s, a) == Taken then 3 else if PhaseOf(s, a).Holding? then 2 else 1
  {
    var s' := NextOf(s, a);
    assert Step(s, s');
    if PhaseOf(s', a) == Outside {
      more := [s, s'];
    } else {
      var rest := OneOut(s', a);
      assert s'.phases[a := Outside] == s.phases[a := Outside];
      more := [s] + rest;
    }
  }

  /** Its next step. */
  lemma NextOf(s: State, a: nat) returns (s': State)
    requires a in Active(s)
    ensures WriteFlag(s, s', a) || UnlockExchange(s, s', a) || UnlockRelease(s, s', a)
    ensures a in s'.phases && s'.phases == s.phases[a := s'.phases[a]]
    ensures s.phases[a] == Taken ==> s'.phases[a].Holding?
    ensures s.phases[a].Holding? ==> s'.phases[a].Releasing?
    ensures s.phases[a].Releasing? ==> s'.phases[a] == Outside
  {
    match s.phases[a] {
      case Taken =>
        s' := s.(writer := true, phases := s.phases[a := Holding(Writer)]);
      case Holding(mode) =>
        s' := s.(writer := false, phases := s.phases[a := Releasing(mode, if s.writer then Writer else Reader)]);
      case Releasing(_, calls) =>
        s' := if calls == Writer then s.(written := false, phases := s.phases[a := Outside])
              else s.(readers := s.readers - 1, phases := s.phases[a := Outside]);
    }
  }

  /** The lock is never stuck: whatever has happened, all that are inside can leave, and then the
      semaphore is free and the flag is 0. */
  lemma {:induction false} AllOut(s: State) returns (more: seq<State>)
    requires Inv(s)
    ensures IsSchedule(more) && more[0] == s
    ensures var end := more[|more| - 1]; end.readers == 0 && !end.written && !end.writer
    decreases |Active(s)|
  {
    if Active(s) == {} {
      NobodyInside(s);
      more := [s];
    } else {
      var a :| a in Active(s);
      var first := OneOut(s, a);
      var s' := first[|first| - 1];
      ScheduleKeepsInv(first, |first| - 1);
      assert Active(s') == Active(s) - {a};
      var rest := AllOut(s');
      more := first + rest[1..];
      forall i | 0 <= i < |more| - 1
        ensures Step(more[i], more[i + 1])
      {
        if i >= |first| - 1 {
          assert more[i] == rest[i - |first| + 1] && more[i + 1] == rest[i - |first| + 2];
        }
      }
    }
  }

  lemma NobodyInside(s: State)
    requires Inv(s) && Active(s) == {}
    ensures s.readers == 0 && !s.written && !s.writer
  {
    forall a: nat
      ensures PhaseOf(s, a) == Outside
    {
      assert a !in Active(s);
    }
    assert forall a: nat :: a in Readers(s) ==> IsReader(PhaseOf(s, a));
    assert Readers(s) == {};
  }

  lemma {:induction false} ScheduleKeepsInv(run: seq<State>, i: nat)
    requires IsSchedule(run) && Inv(run[0]) && i < |run|
    ensures Inv(run[i])
  {
    if i > 0 {
      ScheduleKeepsInv(run, i - 1);
      StepKeepsInv(run[i - 1], run[i]);
    }
  }
}
