/** What each event does for its thread, read off the tables. */
module SchedulerEvents {
  import opened Prelude
  import opened Scheduler
  import opened SchedulerProofs

  /** Thread u could run on core c and runs nowhere. */
  ghost predicate WaitsFor(s: State, u: int, c: nat)
    requires Shape(s)
  {
    0 <= u < |s.info| && s.runnable[u] && c in s.info[u].affinity && s.info[u].core == NONE
  }

  /** Of two waiting threads, a left its core earlier, in whole picoseconds, or as early with a lower id. */
  ghost predicate LongerOut(s: State, a: nat, b: nat)
    requires a < |s.info| && b < |s.info|
  {
    var x, y := s.info[a].lastOut / 1000, s.info[b].lastOut / 1000;
    x < y || (x == y && a < b)
  }

  /** Core c is the lowest idle one among these. */
  ghost predicate LowestOf(s: State, cores: set<nat>, c: nat)
    requires Shape(s)
  {
    && c < s.ncores && c in cores && s.coreThread[c] == NONE
    && forall d | 0 <= d < c :: !(d in cores && s.coreThread[d] == NONE)
  }

  ghost predicate LowestIdle(s: State, t: nat, c: nat)
    requires Shape(s) && t < |s.info|
  {
    LowestOf(s, s.info[t].affinity, c)
  }

  ghost predicate SameElsewhere(s: State, r: State, c: int)
    requires Shape(s) && Shape(r)
  {
    && r.ncores == s.ncores
    && forall d | 0 <= d < s.ncores && d != c ::
         r.coreThread[d] == s.coreThread[d] && r.quantumLeft[d] == s.quantumLeft[d]
  }

  /** An idle core goes to the thread that has waited longest for it, and stays idle only if none waits. */
  lemma IdleCoreTaken(s: State, time: nat, c: nat)
    requires Shape(s) && Mirror(s) && Logged(s) && c < s.ncores && s.coreThread[c] == NONE
    ensures var r := Reschedule(s, time, c);
            var p := r.coreThread[c];
            && SameElsewhere(s, r, c) && SameOtherwise(s, r)
            && (p == NONE <==> forall u: nat | u < |s.info| :: !WaitsFor(s, u, c))
            && (p != NONE ==> WaitsFor(s, p, c) && r.info[p].core == c
                              && forall u: nat | u < |s.info| && WaitsFor(s, u, c) && u != p :: LongerOut(s, p, u))
            && forall u | 0 <= u < |s.info| && u != p :: r.info[u].core == s.info[u].core
  {
    RescheduleMoves(s, time, c);
    PickAmongIsBest(s, c, time, |s.info|);
    assert forall u: nat | u < |s.info| :: Candidate(s, u, c) <==> WaitsFor(s, u, c);
  }

  /** The core of a thread that can no longer run goes to one that waits for it. */
  lemma StoppedCoreTaken(s: State, time: nat, c: nat)
    requires Shape(s) && Mirror(s) && Logged(s) && c < s.ncores && s.coreThread[c] != NONE
    requires s.phase[s.coreThread[c]] != Initializing && !s.runnable[s.coreThread[c]]
    ensures var r := Reschedule(s, time, c);
            var p := r.coreThread[c];
            && SameElsewhere(s, r, c) && SameOtherwise(s, r) && r.info[s.coreThread[c]].core == NONE
            && (p == NONE <==> forall u: nat | u < |s.info| :: !WaitsFor(s, u, c))
            && (p != NONE ==> WaitsFor(s, p, c)
                              && forall u: nat | u < |s.info| && WaitsFor(s, u, c) && u != p :: LongerOut(s, p, u))
  {
    RescheduleMoves(s, time, c);
    PickAmongIsBest(s, c, time, |s.info|);
    assert forall u: nat | u < |s.info| :: Candidate(s, u, c) <==> WaitsFor(s, u, c);
  }

  // ---- Stall and exit

  /**
   * Thread t has stopped: it cannot run, is on no core, and its core went to the thread that has waited longest for it.
   */
  ghost predicate HasStopped(s: State, r: State, t: nat)
    requires Shape(s) && Shape(r) && t < |s.info|
  {
    var c := s.info[t].core;
    && r.runnable == s.runnable[t := false] && r.phase == s.phase && |r.info| == |s.info| && SameElsewhere(s, r, c)
    && r.info[t].core == NONE && (forall d | 0 <= d < r.ncores :: r.coreThread[d] != t)
    && (c != NONE ==>
          var p := r.coreThread[c];
          && (p == NONE <==> forall u: nat | u < |s.info| && u != t :: !WaitsFor(s, u, c))
          && (p != NONE ==> p != t && WaitsFor(s, p, c)
                            && forall u: nat | u < |s.info| && WaitsFor(s, u, c) && u != p && u != t ::
                                 LongerOut(s, p, u)))
  }

  lemma StopTakesCore(s: State, t: nat, time: nat)
    requires Inv(s) && t < |s.info| && s.phase[t] != Initializing && s.info[t].core != NONE
    ensures HasStopped(s, Reschedule(s.(runnable := s.runnable[t := false]), time, s.info[t].core), t)
  {
    var c, s1 := s.info[t].core, s.(runnable := s.runnable[t := false]);
    StoppedCoreTaken(s1, time, c);
    assert forall u: nat | u < |s.info| && u != t :: WaitsFor(s1, u, c) <==> WaitsFor(s, u, c);
  }

  lemma StopStops(s: State, t: nat, time: nat)
    requires Inv(s) && t < |s.info| && s.phase[t] != Initializing
    ensures HasStopped(s, ThreadStop(s, t, time), t)
  {
    if s.info[t].core != NONE {
      StopTakesCore(s, t, time);
    }
  }

  /**
   * A thread that stalls or exits stops; one that is still starting up keeps its core until it has started. A stall
   * that only says that the thread was unscheduled changes nothing.
   */
  lemma StallStops(s: State, t: nat, unscheduled: bool, time: nat)
    requires Inv(s) && Allowed(s, Stall(t, unscheduled, time))
    ensures var r := Apply(s, Stall(t, unscheduled, time));
            if unscheduled then r == s
            else if s.phase[t] == Initializing then r == s.(runnable := s.runnable[t := false])
            else HasStopped(s, r, t)
  {
    if s.phase[t] != Initializing {
      StopStops(s, t, time);
    }
  }

  lemma ExitStops(s: State, t: nat, time: nat)
    requires Inv(s) && Allowed(s, Exit(t, time))
    ensures var r := Apply(s, Exit(t, time));
            if s.phase[t] == Initializing then r == s.(runnable := s.runnable[t := false]) else HasStopped(s, r, t)
  {
    if s.phase[t] != Initializing {
      StopStops(s, t, time);
    }
  }

  // ---- Start and resume

  /** The thread is on a core, or the lowest idle core it may use has no thread that has waited longer for it. */
  ghost predicate GetsACore(s: State, t: nat)
    requires Shape(s) && t < |s.info|
  {
    || s.info[t].core != NONE
    || exists c: nat :: LowestIdle(s, t, c)
                        && forall u: nat | u < |s.info| && WaitsFor(s, u, c) && u != t :: LongerOut(s, t, u)
  }

  lemma RunnableKeeps(s: State, r: State, t: nat)
    requires Inv(s) && t < |s.info| && s.phase[t] != Absent
    requires r == s.(runnable := s.runnable[t := true], phase := r.phase)
    requires r.phase == s.phase || r.phase == s.phase[t := Started]
    ensures Inv(r)
  {
    forall d | 0 <= d < r.ncores
      ensures CoreFine(r, d)
    {
      assert CoreFine(s, d);
    }
  }

  lemma FreeCoreTaken(s: State, t: nat, time: nat)
    requires Inv(s) && t < |s.info| && s.runnable[t]
    ensures var r := RescheduleFree(s, t, time);
            && |r.info| == |s.info| && SameOtherwise(s, r) && (r.info[t].core != NONE <==> GetsACore(s, t))
            && (s.info[t].core != NONE ==> r.info[t].core == s.info[t].core)
            && (forall c: nat | LowestIdle(s, t, c) && s.info[t].core == NONE :: r.coreThread[c] != NONE)
            && ((forall c: nat :: !LowestIdle(s, t, c)) ==> r == s)
            && (forall d: nat | d < s.ncores && !LowestIdle(s, t, d) :: r.coreThread[d] == s.coreThread[d])
  {
    FreeCoreIsFree(s, t, 0);
    var f := FreeCore(s, t);
    if f == NONE {
      assert forall c: nat :: !LowestIdle(s, t, c);
    } else {
      assert LowestIdle(s, t, f);
      assert forall c: nat | LowestIdle(s, t, c) :: c == f;
      IdleCoreTaken(s, time, f);
      assert s.info[t].core == NONE ==> WaitsFor(s, t, f);
    }
  }

  /**
   * A thread that starts or resumes is runnable, and it is then on a core if and only if it was, or if nobody has
   * waited longer for the lowest idle core it may use. That core, if there is one, is taken in any case.
   */
  lemma ResumeRunsExactlyWhen(s: State, t: nat, time: nat)
    requires Inv(s) && Allowed(s, Resume(t, time))
    ensures var r := Apply(s, Resume(t, time));
            && |r.info| == |s.info| && r.runnable == s.runnable[t := true] && r.phase == s.phase
            && (r.info[t].core != NONE <==> GetsACore(s.(runnable := s.runnable[t := true]), t))
            && (forall c: nat | LowestIdle(s, t, c) && s.info[t].core == NONE :: r.coreThread[c] != NONE)
            && (forall d: nat | d < s.ncores && !LowestIdle(s, t, d) :: r.coreThread[d] == s.coreThread[d])
            && forall u | 0 <= u < |s.info| :: r.info[u].affinity == s.info[u].affinity
  {
    var s1 := s.(runnable := s.runnable[t := true]);
    RunnableKeeps(s, s1, t);
    FreeCoreTaken(s1, t, time);
    assert forall c: nat :: LowestIdle(s1, t, c) <==> LowestIdle(s, t, c);
  }

  lemma PhasesApart(s: State, r: State, t: nat)
    requires Shape(s) && Shape(r) && t < |s.info| && r == s.(phase := r.phase)
    ensures GetsACore(r, t) <==> GetsACore(s, t)
  {
    assert forall u: nat, c: nat | u < |s.info| :: WaitsFor(r, u, c) <==> WaitsFor(s, u, c);
    assert forall c: nat :: LowestIdle(r, t, c) <==> LowestIdle(s, t, c);
  }

  lemma StartRunsExactlyWhen(s: State, t: nat, time: nat)
    requires Inv(s) && Allowed(s, StartUp(t, time))
    ensures var r := Apply(s, StartUp(t, time));
            && |r.info| == |s.info| && r.runnable == s.runnable[t := true] && r.phase == s.phase[t := Started]
            && (r.info[t].core != NONE <==> GetsACore(s.(runnable := s.runnable[t := true]), t))
            && (forall c: nat | LowestIdle(s, t, c) && s.info[t].core == NONE :: r.coreThread[c] != NONE)
            && (forall d: nat | d < s.ncores && !LowestIdle(s, t, d) :: r.coreThread[d] == s.coreThread[d])
            && forall u | 0 <= u < |s.info| :: r.info[u].affinity == s.info[u].affinity
  {
    var s1 := s.(runnable := s.runnable[t := true]);
    var s2 := s1.(phase := s.phase[t := Started]);
    RunnableKeeps(s, s2, t);
    FreeCoreTaken(s2, t, time);
    assert forall c: nat :: LowestIdle(s2, t, c) <==> LowestIdle(s, t, c);
    PhasesApart(s1, s2, t);
  }

  /**
   * Core 1 is busy; the idle cores 0 and 2 are the ones thread 2 may use; thread 1 may use cores 0 and 1 and left
   * earlier.
   */
  ghost function TwoIdleCores(): State {
    var busy := ThreadInfo(true, true, {1}, 1, 0, 0);
    var waiting := ThreadInfo(true, true, {0, 1}, NONE, 0, 0);
    var stalled := ThreadInfo(true, true, {0, 2}, NONE, 0, 5000);
    State(3, 1000, 0, [busy, waiting, stalled], [true, true, false], [Started, Started, Started], [NONE, 0, NONE],
          [0, 0, 0], [Entry(0, 1)])
  }

  lemma TwoIdleCoresLogged()
    ensures Logged(TwoIdleCores())
  {
    var s := TwoIdleCores();
    assert s.log[..0] == [];
    assert Replay(s.log) == map[0 := 1];
  }

  lemma TwoIdleCoresFine()
    ensures Inv(TwoIdleCores())
  {
    var s := TwoIdleCores();
    TwoIdleCoresLogged();
    assert CoreFine(s, 0) && CoreFine(s, 1) && CoreFine(s, 2);
  }

  lemma AnotherWaitsLonger(s: State)
    requires s == TwoIdleCores().(runnable := [true, true, true])
    ensures !GetsACore(s, 2)
  {
    assert WaitsFor(s, 1, 0) && LowestIdle(s, 2, 0);
  }

  /**
   * A thread can resume and stay off every core while a core that it may use is idle: the lowest one went to another.
   */
  lemma ResumedBesideIdleCore()
    ensures var s := TwoIdleCores();
            && Inv(s) && Allowed(s, Resume(2, 6000))
            && var r := Apply(s, Resume(2, 6000));
               r.runnable[2] && r.info[2].core == NONE && 2 in r.info[2].affinity && r.coreThread[2] == NONE
  {
    var s := TwoIdleCores();
    TwoIdleCoresFine();
    AnotherWaitsLonger(s.(runnable := s.runnable[2 := true]));
    ResumeRunsExactlyWhen(s, 2, 6000);
    assert LowestIdle(s, 2, 0) && !LowestIdle(s, 2, 2);
  }

  // ---- Creation, yield and affinity

  /** A new thread starts up on the lowest idle core that it may use, and waits without one only if there is none. */
  lemma CreatePlaces(s: State, t: nat, cores: set<nat>)
    requires Inv(s) && Allowed(s, Create(t, cores))
    ensures var r := Apply(s, Create(t, cores));
            var c := r.info[t].core;
            && |r.info| == |s.info| && r.phase == s.phase[t := Initializing] && r.runnable == s.runnable
            && r.info[t].affinity == (if s.info[t].hasAffinity then s.info[t].affinity else cores)
            && r.info[t].hasAffinity == (s.info[t].hasAffinity || cores != {})
            && (forall u | 0 <= u < |s.info| && u != t :: r.info[u] == s.info[u])
            && (c == NONE ==> r.coreThread == s.coreThread
                              && forall d: nat | d < s.ncores && d in r.info[t].affinity :: s.coreThread[d] != NONE)
            && (c != NONE ==> c in r.info[t].affinity && s.coreThread[c] == NONE && r.coreThread == s.coreThread[c := t]
                              && r.quantumLeft[c] == s.quantum
                              && forall d: nat | d < c && d in r.info[t].affinity :: s.coreThread[d] != NONE)
  {
    var s1 := s.(info := s.info[t := SetInitialAffinity(s.info[t], cores)], phase := s.phase[t := Initializing]);
    FreeCoreIsFree(s1, t, 0);
  }

  /** A thread gives way to one that waits for its core, if that one left a core before now. */
  lemma GivesWay(s: State, time: nat, c: nat, u: nat)
    requires Shape(s) && Mirror(s) && Logged(s) && c < s.ncores && s.coreThread[c] != NONE
    requires s.phase[s.coreThread[c]] != Initializing && s.info[s.coreThread[c]].lastIn <= time
    requires WaitsFor(s, u, c) && s.info[u].lastOut / 1000 < time / 1000
    ensures var r := Reschedule(s, time, c);
            var p := r.coreThread[c];
            && Mirror(r) && Logged(r) && p != NONE && p != s.coreThread[c] && WaitsFor(s, p, c)
            && (p == u || LongerOut(s, p, u)) && r.runnable == s.runnable && r.quantumLeft[c] == s.quantum
  {
    RescheduleMoves(s, time, c);
    PickAmongIsBest(s, c, time, |s.info|);
    assert Candidate(s, u, c);
  }

  /** A thread that may no longer use its core leaves it. */
  lemma LeavesCore(s: State, time: nat, c: nat)
    requires Shape(s) && Mirror(s) && Logged(s) && c < s.ncores && s.coreThread[c] != NONE
    requires s.phase[s.coreThread[c]] == Started && c !in s.info[s.coreThread[c]].affinity
    ensures var r := Reschedule(s, time, c);
            && Mirror(r) && Logged(r) && SameOtherwise(s, r) && SameElsewhere(s, r, c)
            && r.coreThread[c] != s.coreThread[c] && r.info[s.coreThread[c]].core == NONE
  {
    RescheduleMoves(s, time, c);
    PickAmongIsBest(s, c, time, |s.info|);
  }

  /** The lowest idle core that a runnable thread without a core may use is taken; busy cores keep their threads. */
  lemma LowestTaken(s: State, t: nat, time: nat)
    requires Shape(s) && Mirror(s) && Logged(s) && t < |s.info|
    ensures var r := RescheduleFree(s, t, time);
            && SameOtherwise(s, r)
            && (forall d | 0 <= d < s.ncores && s.coreThread[d] != NONE ::
                  r.coreThread[d] == s.coreThread[d] && r.quantumLeft[d] == s.quantumLeft[d])
            && (forall d | 0 <= d < s.ncores && d !in s.info[t].affinity :: r.coreThread[d] == s.coreThread[d])
            && (s.runnable[t] && s.info[t].core == NONE ==> forall c: nat | LowestIdle(s, t, c) ::
                  r.coreThread[c] != NONE)
  {
    FreeCoreIsFree(s, t, 0);
    var f := FreeCore(s, t);
    if f != NONE {
      IdleCoreTaken(s, time, f);
      assert forall c: nat | LowestIdle(s, t, c) :: c == f;
      assert s.runnable[t] && s.info[t].core == NONE ==> WaitsFor(s, t, f);
    }
  }

  /** A started thread that yields leaves its core to a waiting thread, if one left a core before now. */
  lemma YieldGivesWay(s: State, t: nat, time: nat, u: nat)
    requires Inv(s) && Allowed(s, Yield(t, time)) && s.phase[t] == Started && s.info[t].core != NONE
    requires WaitsFor(s, u, s.info[t].core) && s.info[u].lastOut / 1000 < time / 1000
    requires s.info[t].lastIn <= time
    ensures var r := Apply(s, Yield(t, time));
            var p := r.coreThread[s.info[t].core];
            && p != NONE && p != t && WaitsFor(s, p, s.info[t].core) && (p == u || LongerOut(s, p, u))
            && r.runnable == s.runnable && r.quantumLeft[s.info[t].core] == s.quantum
  {
    var c := s.info[t].core;
    var s0 := s.(quantumLeft := s.quantumLeft[c := 0]);
    GivesWay(s0, time, c, u);
    LowestTaken(Reschedule(s0, time, c), t, time);
  }

  /** A thread that yields a core that it may no longer use takes up the lowest idle core that it may use. */
  lemma YieldMoves(s: State, t: nat, time: nat)
    requires Shape(s) && Mirror(s) && Logged(s) && t < |s.info| && s.runnable[t] && s.phase[t] == Started
    requires s.info[t].core != NONE && s.info[t].core !in s.info[t].affinity
    ensures var r := ThreadYield(s, t, time);
            && SameOtherwise(s, r) && r.coreThread[s.info[t].core] != t
            && forall c: nat | LowestIdle(s, t, c) :: r.coreThread[c] != NONE
  {
    var c := s.info[t].core;
    var s0 := s.(quantumLeft := s.quantumLeft[c := 0]);
    LeavesCore(s0, time, c);
    var s1 := Reschedule(s0, time, c);
    LowestTaken(s1, t, time);
    assert forall f: nat | LowestIdle(s, t, f) :: LowestIdle(s1, t, f);
  }

  function NewAffinity(s: State, t: nat, mask: Option<set<nat>>): set<nat>
    requires t < |s.info|
  {
    match mask
    case Some(cores) => cores
    case None => s.info[t].affinity + CoresBelow(s.ncores)
  }

  /**
   * The thread may use the cores of the mask, or every core if none is given. If it runs on a core that it may no
   * longer use, it leaves that core now, or has no time left there if another thread asked. If it is runnable and
   * without a core, the lowest idle core that it may now use is taken.
   */
  ghost predicate AffinityHeld(s: State, r: State, t: nat, cores: set<nat>, self: bool)
    requires Shape(s) && Shape(r) && t < |s.info|
  {
    var c := s.info[t].core;
    && |r.info| == |s.info| && r.runnable == s.runnable && r.phase == s.phase
    && r.info[t].affinity == cores && r.info[t].explicit
    && (r.info[t].hasAffinity <==> s.info[t].hasAffinity || exists d: nat :: d < s.ncores && d in cores)
    && r.ncores == s.ncores && (forall u | 0 <= u < |s.info| && u != t :: r.info[u].affinity == s.info[u].affinity)
    && (s.phase[t] == Absent || (!self && c != NONE) ==> r.coreThread == s.coreThread)
    && (!self && c != NONE && c !in cores ==> r.quantumLeft[c] == 0)
    && (self && c != NONE && c !in cores && s.phase[t] == Started ==>
          r.coreThread[c] != t && forall f: nat | LowestOf(s, cores, f) :: r.coreThread[f] != NONE)
    && (!self && c == NONE && s.runnable[t] ==> forall f: nat | LowestOf(s, cores, f) :: r.coreThread[f] != NONE)
  }

  lemma AskedBySelf(s: State, t: nat, time: nat)
    requires Shape(s) && Mirror(s) && AbsentIdle(s) && Logged(s) && t < |s.info|
    ensures SameOtherwise(s, ThreadYield(s, t, time))
  {
    var c := s.info[t].core;
    if c != NONE {
      var s1 := s.(quantumLeft := s.quantumLeft[c := 0]);
      RescheduleMirrors(s1, time, c);
      LowestTaken(Reschedule(s1, time, c), t, time);
    }
  }

  /** The table entry after a change of affinity. */
  lemma AffinityChanged(s: State, t: nat, mask: Option<set<nat>>)
    requires Shape(s) && t < |s.info| && (mask.Some? ==> forall c | c in mask.value :: c < s.ncores)
    ensures var cores, i, j := NewAffinity(s, t, mask), s.info[t], ChangeAffinity(s, t, mask).info[t];
            && j.affinity == cores && j.explicit && j.core == i.core
            && (j.hasAffinity <==> i.hasAffinity || exists d: nat :: d < s.ncores && d in cores)
            && ChangeAffinity(s, t, mask) == s.(info := s.info[t := j])
  {
    match mask
    case None => if s.ncores > 0 { assert 0 in NewAffinity(s, t, mask); }
    case Some(cores) => if cores != {} { var d :| d in cores; assert d < s.ncores && d in NewAffinity(s, t, mask); }
  }

  lemma AffinityTakesHold(s: State, caller: int, t: nat, mask: Option<set<nat>>, time: nat)
    requires Inv(s) && Allowed(s, SetAffinity(caller, t, mask, time))
    ensures AffinityHeld(s, Apply(s, SetAffinity(caller, t, mask, time)), t, NewAffinity(s, t, mask), t == caller)
  {
    AffinityChanged(s, t, mask);
    AffinityThen(s, ChangeAffinity(s, t, mask), caller, t, time);
  }

  /** The rest of the call. */
  function AfterChange(s: State, caller: int, t: nat, time: nat): (r: State)
    requires Shape(s) && t < |s.info|
    ensures Shape(r)
  {
    var c := s.info[t].core;
    if s.phase[t] == Absent then s
    else if t == caller then ThreadYield(s, t, time)
    else if c != NONE && c !in s.info[t].affinity then s.(quantumLeft := s.quantumLeft[c := 0])
    else if s.runnable[t] && c == NONE then RescheduleFree(s, t, time)
    else s
  }

  lemma AffinityThen(s: State, s1: State, caller: int, t: nat, time: nat)
    requires Inv(s) && t < |s.info| && Shape(s1) && |s1.info| == |s.info| && s1 == s.(info := s.info[t := s1.info[t]])
    requires s1.info[t].core == s.info[t].core && s1.info[t].explicit
    requires s1.info[t].hasAffinity <==>
             s.info[t].hasAffinity || exists d: nat :: d < s.ncores && d in s1.info[t].affinity
    ensures AffinityHeld(s, AfterChange(s1, caller, t, time), t, s1.info[t].affinity, t == caller)
  {
    RunningSame(s.info, s1.info);
    assert forall f: nat :: LowestOf(s, s1.info[t].affinity, f) == LowestIdle(s1, t, f);
    var c := s.info[t].core;
    if s1.phase[t] == Absent {
    } else if t == caller {
      AskedBySelf(s1, t, time);
      if c != NONE && c !in s1.info[t].affinity && s.phase[t] == Started {
        assert CoreFine(s, c);
        YieldMoves(s1, t, time);
      }
    } else if s1.runnable[t] && c == NONE {
      LowestTaken(s1, t, time);
    }
  }
}
