/** What every run of scheduler events keeps. */
module SchedulerProofs {
  import opened Prelude
  import opened Scheduler

  /** The two tables mirror each other. */
  ghost predicate Mirror(s: State)
    requires Shape(s)
  {
    && (forall c | 0 <= c < s.ncores :: s.coreThread[c] != NONE ==> s.info[s.coreThread[c]].core == c)
    && (forall t | 0 <= t < |s.info| :: s.info[t].core != NONE ==> s.coreThread[s.info[t].core] == t)
  }

  /** A thread that runs where it may not run has no quantum left there; a started thread that runs is runnable. */
  ghost predicate CoreFine(s: State, c: nat)
    requires Shape(s) && c < s.ncores
  {
    var t := s.coreThread[c];
    t != NONE ==> (c !in s.info[t].affinity ==> s.quantumLeft[c] == 0) && (s.phase[t] == Started ==> s.runnable[t])
  }

  ghost predicate AbsentIdle(s: State)
    requires Shape(s)
  {
    forall t | 0 <= t < |s.info| :: s.phase[t] == Absent ==> s.info[t].core == NONE && !s.runnable[t]
  }

  /** Placements and moves replayed from an empty machine. */
  function Replay(log: seq<Entry>): map<nat, int> {
    if log == [] then map[]
    else
      var before, e := Replay(log[..|log| - 1]), log[|log| - 1];
      if e.core == NONE then before - {e.thread} else before[e.thread := e.core]
  }

  ghost function Running(info: seq<ThreadInfo>): map<nat, int> {
    map t: nat | t < |info| && info[t].core != NONE :: info[t].core
  }

  ghost predicate Logged(s: State) { Replay(s.log) == Running(s.info) }

  /** One thread's core changed, no other's did. */
  ghost predicate OnlyMoved(before: seq<ThreadInfo>, after: seq<ThreadInfo>, t: int, core: int) {
    |before| == |after| && forall u | 0 <= u < |before| :: after[u].core == if u == t then core else before[u].core
  }

  lemma RunningMoved(before: seq<ThreadInfo>, after: seq<ThreadInfo>, t: nat, core: int)
    requires t < |before| && OnlyMoved(before, after, t, core)
    ensures Running(after) == if core == NONE then Running(before) - {t} else Running(before)[t := core]
  {
  }

  lemma RunningSame(before: seq<ThreadInfo>, after: seq<ThreadInfo>)
    requires |before| == |after| && forall u | 0 <= u < |before| :: after[u].core == before[u].core
    ensures Running(after) == Running(before)
  {
  }

  ghost predicate Inv(s: State) {
    Shape(s) && Mirror(s) && AbsentIdle(s) && Logged(s) && forall c | 0 <= c < s.ncores :: CoreFine(s, c)
  }

  // ---- The choice

  /**
   * The loop's choice is the candidate with the highest score, the lowest id among equals, and none only if there is
   * none.
   */
  lemma {:induction false} PickAmongIsBest(s: State, c: nat, time: nat, n: nat)
    requires Shape(s) && n <= |s.info|
    ensures var p := PickAmong(s, c, time, n);
            && (p == NONE <==> forall t | 0 <= t < n :: !Candidate(s, t, c))
            && (p != NONE ==> Candidate(s, p, c)
                              && forall t | 0 <= t < n && Candidate(s, t, c) ::
                                   Score(s, t, time) < Score(s, p, time)
                                     || (Score(s, t, time) == Score(s, p, time) && p <= t))
  {
    if n > 0 {
      PickAmongIsBest(s, c, time, n - 1);
    }
  }

  /** A chosen thread that is not the current one runs nowhere: the branch for a thread running elsewhere is dead. */
  lemma ChosenRunsNowhere(s: State, c: nat, time: nat)
    requires Shape(s) && Mirror(s) && c < s.ncores
    ensures var p := Pick(s, c, time); p != NONE && p != s.coreThread[c] ==> s.info[p].core == NONE
  {
    PickAmongIsBest(s, c, time, |s.info|);
  }

  lemma ReplaySnoc(log: seq<Entry>, e: Entry)
    ensures Replay(log + [e]) == if e.core == NONE then Replay(log) - {e.thread} else Replay(log)[e.thread := e.core]
  {
    assert (log + [e])[..|log|] == log;
  }

  predicate SameAffinity(i: ThreadInfo, j: ThreadInfo) {
    j.affinity == i.affinity && j.hasAffinity == i.hasAffinity && j.explicit == i.explicit
  }

  /** Nothing but placement changed. */
  ghost predicate SameOtherwise(s: State, r: State) {
    && r.ncores == s.ncores && r.quantum == s.quantum && r.runnable == s.runnable && r.phase == s.phase
    && |r.info| == |s.info| && forall t | 0 <= t < |s.info| :: SameAffinity(s.info[t], r.info[t])
  }

  lemma UnscheduleKeeps(s: State, time: nat, c: nat)
    requires Shape(s) && Mirror(s) && Logged(s) && c < s.ncores
    ensures var r := Unschedule(s, time, c);
            && Logged(r) && SameOtherwise(s, r) && r.coreThread == s.coreThread && r.quantumLeft == s.quantumLeft
            && OnlyMoved(s.info, r.info, s.coreThread[c], NONE)
  {
    var t, r := s.coreThread[c], Unschedule(s, time, c);
    if t != NONE {
      ReplaySnoc(s.log, Entry(t, NONE));
      RunningMoved(s.info, r.info, t, NONE);
    }
  }

  lemma InstallKeeps(s: State, time: nat, c: nat, t: int)
    requires Shape(s) && Logged(s) && c < s.ncores && NONE <= t < |s.info|
    requires t != NONE ==> s.info[t].core == NONE
    ensures var r := Install(s, time, c, t);
            && Logged(r) && SameOtherwise(s, r) && r.coreThread == s.coreThread[c := t]
            && r.quantumLeft == s.quantumLeft
            && OnlyMoved(s.info, r.info, t, c)
  {
    var r := Install(s, time, c, t);
    if t != NONE {
      ReplaySnoc(s.log, Entry(t, c));
      RunningMoved(s.info, r.info, t, c);
    }
  }

  /** Everything about a core but the core itself. */
  ghost predicate OthersFine(s: State, c: nat)
    requires Shape(s)
  {
    forall d | 0 <= d < s.ncores && d != c :: CoreFine(s, d)
  }

  /** Fine now, and after any further wait: what runs there is runnable and allowed, unless it is still starting up. */
  ghost predicate Settled(s: State, c: nat)
    requires Shape(s) && c < s.ncores
  {
    var t := s.coreThread[c];
    t != NONE && s.phase[t] != Initializing ==> s.runnable[t] && c in s.info[t].affinity
  }

  /** A core goes from its thread, if any, to one that runs nowhere. */
  lemma HandOver(s: State, time: nat, c: nat, p: int)
    requires Shape(s) && Mirror(s) && Logged(s) && c < s.ncores && NONE <= p < |s.info| && p != s.coreThread[c]
    requires p != NONE ==> s.info[p].core == NONE
    ensures var r := Install(Unschedule(s, time, c), time, c, p);
            && Logged(r) && SameOtherwise(s, r) && r.coreThread == s.coreThread[c := p]
            && r.quantumLeft == s.quantumLeft
            && forall t | 0 <= t < |s.info| :: r.info[t].core == if t == p then c else if t == s.coreThread[c] then NONE
                 else s.info[t].core
  {
    UnscheduleKeeps(s, time, c);
    InstallKeeps(Unschedule(s, time, c), time, c, p);
  }

  /** Where threads are after a core was handed from its current thread to the chosen one. */
  lemma RescheduleMoves(s: State, time: nat, c: nat)
    requires Shape(s) && Mirror(s) && Logged(s) && c < s.ncores
    requires s.coreThread[c] == NONE || s.phase[s.coreThread[c]] != Initializing
    ensures var r, p := Reschedule(s, time, c), Pick(s, c, time);
            && Logged(r) && SameOtherwise(s, r)
            && r.coreThread == s.coreThread[c := p] && r.quantumLeft == s.quantumLeft[c := s.quantum]
            && forall t | 0 <= t < |s.info| :: r.info[t].core == if t == p then c else if t == s.coreThread[c] then NONE
                 else s.info[t].core
  {
    ChosenRunsNowhere(s, c, time);
    var p := Pick(s, c, time);
    if p != s.coreThread[c] {
      HandOver(s, time, c, p);
    } else {
      assert s.coreThread[c := p] == s.coreThread;
    }
  }

  /** The tables still mirror each other once core c has gone from its thread to one that had no core. */
  lemma MovedMirrors(s: State, r: State, c: nat, p: int)
    requires Shape(s) && Shape(r) && Mirror(s) && AbsentIdle(s) && SameOtherwise(s, r) && c < s.ncores
             && NONE <= p < |s.info|
    requires p != NONE && p != s.coreThread[c] ==> s.info[p].core == NONE
    requires p != NONE ==> s.phase[p] != Absent
    requires r.coreThread == s.coreThread[c := p]
    requires forall t | 0 <= t < |s.info| :: r.info[t].core == if t == p then c else if t == s.coreThread[c] then NONE
               else s.info[t].core
    ensures Mirror(r) && AbsentIdle(r)
  {
  }

  lemma RescheduleMirrors(s: State, time: nat, c: nat)
    requires Shape(s) && Mirror(s) && AbsentIdle(s) && Logged(s) && c < s.ncores
    ensures var r := Reschedule(s, time, c);
            && Mirror(r) && AbsentIdle(r) && Logged(r) && SameOtherwise(s, r)
            && forall d | 0 <= d < s.ncores && d != c ::
                 r.coreThread[d] == s.coreThread[d] && r.quantumLeft[d] == s.quantumLeft[d]
  {
    if s.coreThread[c] == NONE || s.phase[s.coreThread[c]] != Initializing {
      RescheduleMoves(s, time, c);
      ChosenRunsNowhere(s, c, time);
      PickAmongIsBest(s, c, time, |s.info|);
      MovedMirrors(s, Reschedule(s, time, c), c, Pick(s, c, time));
    }
  }

  lemma RescheduleSettles(s: State, time: nat, c: nat)
    requires Shape(s) && Mirror(s) && AbsentIdle(s) && Logged(s) && c < s.ncores
    ensures Settled(Reschedule(s, time, c), c)
    ensures s.coreThread[c] == NONE || s.phase[s.coreThread[c]] != Initializing ==>
              var r := Reschedule(s, time, c);
              var t := r.coreThread[c];
              t != NONE ==> r.runnable[t] && c in r.info[t].affinity
  {
    if s.coreThread[c] == NONE || s.phase[s.coreThread[c]] != Initializing {
      RescheduleMoves(s, time, c);
      PickAmongIsBest(s, c, time, |s.info|);
    }
  }

  /** Rescheduling a core keeps the invariant, and repairs it if that core is the only one out of order. */
  lemma RescheduleKeeps(s: State, time: nat, c: nat)
    requires Shape(s) && Mirror(s) && AbsentIdle(s) && Logged(s) && c < s.ncores && OthersFine(s, c)
    requires s.coreThread[c] != NONE && s.phase[s.coreThread[c]] == Initializing ==> CoreFine(s, c)
    ensures Inv(Reschedule(s, time, c))
  {
    RescheduleMirrors(s, time, c);
    RescheduleSettles(s, time, c);
    var r := Reschedule(s, time, c);
    forall d | 0 <= d < r.ncores
      ensures CoreFine(r, d)
    {
      if d != c { assert CoreFine(s, d); }
    }
  }

  lemma RescheduleFreeKeeps(s: State, t: nat, time: nat)
    requires Inv(s) && t < |s.info|
    ensures Inv(RescheduleFree(s, t, time))
  {
    var free := FreeCore(s, t);
    if free != NONE {
      RescheduleKeeps(s, time, free);
    }
  }

  // ---- Events

  lemma {:induction false} FreeCoreIsFree(s: State, t: nat, c: nat)
    requires Shape(s) && t < |s.info| && c <= s.ncores
    ensures var f := FreeCoreFrom(s, t, c);
            if f == NONE then forall d | c <= d < s.ncores :: !(d in s.info[t].affinity && s.coreThread[d] == NONE)
            else f in s.info[t].affinity && s.coreThread[f] == NONE && forall d | c <= d < f ::
              !(d in s.info[t].affinity && s.coreThread[d] == NONE)
    decreases s.ncores - c
  {
    if c < s.ncores {
      FreeCoreIsFree(s, t, c + 1);
    }
  }

  /** A thread that is newly there without a core. */
  lemma CreateWaiting(s: State, r: State, t: nat)
    requires Inv(s) && Shape(r) && |r.info| == |s.info| && t < |s.info| && s.phase[t] == Absent
             && r.info[t].core == NONE
    requires r == s.(info := s.info[t := r.info[t]], phase := s.phase[t := Initializing])
    ensures Inv(r)
  {
    RunningSame(s.info, r.info);
    forall d | 0 <= d < r.ncores
      ensures CoreFine(r, d)
    {
      assert CoreFine(s, d);
    }
  }

  lemma PlacedLogged(log: seq<Entry>, before: seq<ThreadInfo>, after: seq<ThreadInfo>, t: nat, core: int)
    requires Replay(log) == Running(before) && t < |before| && OnlyMoved(before, after, t, core)
    ensures Replay(log + [Entry(t, core)]) == Running(after)
  {
    ReplaySnoc(log, Entry(t, core));
    RunningMoved(before, after, t, core);
  }

  /** A thread that is newly there on a free core. */
  ghost predicate CreatedOn(s: State, r: State, t: nat, free: nat) {
    && Shape(s) && Shape(r) && |r.info| == |s.info| && t < |s.info| && s.phase[t] == Absent
    && free < s.ncores && s.coreThread[free] == NONE && r.info[t].core == free && free in r.info[t].affinity
    && r == s.(info := s.info[t := r.info[t]], phase := s.phase[t := Initializing],
               coreThread := s.coreThread[free := t],
               quantumLeft := s.quantumLeft[free := s.quantum], log := s.log + [Entry(t, free)])
  }

  lemma CreatedMirrors(s: State, r: State, t: nat, free: nat)
    requires CreatedOn(s, r, t, free) && Mirror(s) && AbsentIdle(s)
    ensures Mirror(r) && AbsentIdle(r)
  {
  }

  lemma CreatedFine(s: State, r: State, t: nat, free: nat, d: nat)
    requires CreatedOn(s, r, t, free) && Mirror(s) && AbsentIdle(s) && d < s.ncores && CoreFine(s, d)
    ensures CoreFine(r, d)
  {
  }

  lemma CreateRunning(s: State, r: State, t: nat, free: nat)
    requires Inv(s) && CreatedOn(s, r, t, free)
    ensures Inv(r)
  {
    CreatedMirrors(s, r, t, free);
    PlacedLogged(s.log, s.info, r.info, t, free);
    forall d | 0 <= d < r.ncores
      ensures CoreFine(r, d)
    {
      CreatedFine(s, r, t, free, d);
    }
  }

  lemma CreateKeeps(s: State, t: nat, cores: set<nat>)
    requires Inv(s) && t < |s.info| && s.phase[t] == Absent
    ensures Inv(ThreadCreate(s, t, cores))
  {
    var s1 := s.(info := s.info[t := SetInitialAffinity(s.info[t], cores)], phase := s.phase[t := Initializing]);
    FreeCoreIsFree(s1, t, 0);
    var free, r := FreeCore(s1, t), ThreadCreate(s, t, cores);
    assert r.info == s.info[t := r.info[t]];
    if free == NONE {
      CreateWaiting(s, r, t);
    } else {
      CreateRunning(s, r, t, free);
    }
  }

  lemma YieldKeeps(s: State, t: nat, time: nat)
    requires Shape(s) && Mirror(s) && AbsentIdle(s) && Logged(s) && t < |s.info|
    requires if s.info[t].core == NONE then Inv(s)
               else OthersFine(s, s.info[t].core) && (s.phase[t] == Started ==> s.runnable[t])
    ensures Inv(ThreadYield(s, t, time))
  {
    var c := s.info[t].core;
    if c != NONE {
      var s0 := s.(quantumLeft := s.quantumLeft[c := 0]);
      forall d | 0 <= d < s.ncores && d != c
        ensures CoreFine(s0, d)
      {
        assert CoreFine(s, d);
      }
      RescheduleKeeps(s0, time, c);
      RescheduleFreeKeeps(Reschedule(s0, time, c), t, time);
    }
  }

  lemma SetAffinityKeeps(s: State, caller: int, t: nat, mask: Option<set<nat>>, time: nat)
    requires Inv(s) && t < |s.info|
    ensures Inv(ThreadSetAffinity(s, caller, t, mask, time))
  {
    var s1 := ChangeAffinity(s, t, mask);
    RunningSame(s.info, s1.info);
    var c := s1.info[t].core;
    forall d | 0 <= d < s.ncores && d != c
      ensures CoreFine(s1, d)
    {
      assert CoreFine(s, d);
    }
    if s1.phase[t] == Absent {
    } else if t == caller {
      if c != NONE { assert CoreFine(s, c); }
      YieldKeeps(s1, t, time);
    } else if c != NONE && c !in s1.info[t].affinity {
      var r := s1.(quantumLeft := s1.quantumLeft[c := 0]);
      forall d | 0 <= d < s.ncores
        ensures CoreFine(r, d)
      {
        assert CoreFine(s, d);
      }
    } else if s1.runnable[t] && c == NONE {
      RescheduleFreeKeeps(s1, t, time);
    } else if c != NONE {
      assert CoreFine(s, c);
    }
  }

  lemma StartKeeps(s: State, t: nat, time: nat)
    requires Inv(s) && t < |s.info| && s.phase[t] != Absent
    ensures Inv(ThreadStart(s, t, time))
  {
    var s1 := s.(runnable := s.runnable[t := true], phase := s.phase[t := Started]);
    forall d | 0 <= d < s.ncores
      ensures CoreFine(s1, d)
    {
      assert CoreFine(s, d);
    }
    RescheduleFreeKeeps(s1, t, time);
  }

  lemma ResumeKeeps(s: State, t: nat, time: nat)
    requires Inv(s) && t < |s.info| && s.phase[t] != Absent
    ensures Inv(ThreadResume(s, t, time))
  {
    var s1 := s.(runnable := s.runnable[t := true]);
    forall d | 0 <= d < s.ncores
      ensures CoreFine(s1, d)
    {
      assert CoreFine(s, d);
    }
    RescheduleFreeKeeps(s1, t, time);
  }

  lemma StopKeeps(s: State, t: nat, time: nat)
    requires Inv(s) && t < |s.info|
    ensures Inv(ThreadStop(s, t, time))
  {
    var s1 := s.(runnable := s.runnable[t := false]);
    var c := s1.info[t].core;
    forall d | 0 <= d < s.ncores
      ensures d != c ==> CoreFine(s1, d)
      ensures s1.coreThread[d] != NONE && s1.phase[s1.coreThread[d]] == Initializing ==> CoreFine(s1, d)
    {
      assert CoreFine(s, d);
    }
    if c != NONE {
      RescheduleKeeps(s1, time, c);
    }
  }

  lemma PeriodicCoreKeeps(s: State, time: nat, delta: nat, c: nat)
    requires Inv(s) && c < s.ncores
    ensures var r := PeriodicCore(s, time, delta, c);
            && Inv(r) && SameOtherwise(s, r)
            && (delta > 0 ==> Settled(r, c))
            && forall d | 0 <= d < s.ncores && d != c :: r.coreThread[d] == s.coreThread[d]
  {
    assert CoreFine(s, c);
    if delta > s.quantumLeft[c] || s.coreThread[c] == NONE {
      RescheduleKeeps(s, time, c);
      RescheduleMirrors(s, time, c);
      RescheduleSettles(s, time, c);
    } else {
      var r := PeriodicCore(s, time, delta, c);
      assert AbsentIdle(s);
      forall d | 0 <= d < s.ncores
        ensures CoreFine(r, d)
      {
        assert CoreFine(s, d);
      }
    }
  }

  ghost predicate SettledBelow(s: State, n: nat)
    requires Shape(s) && n <= s.ncores
  {
    forall d | 0 <= d < n :: Settled(s, d)
  }

  lemma PeriodicCoreSettles(s: State, time: nat, delta: nat, c: nat)
    requires Inv(s) && c < s.ncores && delta > 0 && SettledBelow(s, c)
    ensures SettledBelow(PeriodicCore(s, time, delta, c), c + 1)
  {
    PeriodicCoreKeeps(s, time, delta, c);
    var r := PeriodicCore(s, time, delta, c);
    forall d | 0 <= d < c + 1
      ensures Settled(r, d)
    {
      if d < c { assert Settled(s, d); }
    }
  }

  /** The invariant, and the cores below c settled if any time has passed. */
  ghost predicate TickedBelow(s: State, delta: nat, c: nat) {
    Inv(s) && c <= s.ncores && (delta > 0 ==> SettledBelow(s, c))
  }

  lemma PeriodicCoreTicks(s: State, time: nat, delta: nat, c: nat)
    requires TickedBelow(s, delta, c) && c < s.ncores
    ensures TickedBelow(PeriodicCore(s, time, delta, c), delta, c + 1)
  {
    PeriodicCoreKeeps(s, time, delta, c);
    if delta > 0 {
      PeriodicCoreSettles(s, time, delta, c);
    }
  }

  lemma {:induction false} PeriodicFromKeeps(s: State, time: nat, delta: nat, c: nat)
    requires TickedBelow(s, delta, c)
    ensures TickedBelow(PeriodicFrom(s, time, delta, c), delta, s.ncores)
    decreases s.ncores - c
  {
    if c < s.ncores {
      PeriodicCoreTicks(s, time, delta, c);
      PeriodicFromKeeps(PeriodicCore(s, time, delta, c), time, delta, c + 1);
    }
  }

  /** Every event keeps the invariant. */
  lemma ApplyKeeps(s: State, e: Event)
    requires Inv(s) && Allowed(s, e)
    ensures Inv(Apply(s, e))
  {
    match e
    case Create(t, cores) => CreateKeeps(s, t, cores);
    case Yield(t, time) => if s.info[t].core != NONE { assert CoreFine(s, s.info[t].core); } YieldKeeps(s, t, time);
    case SetAffinity(caller, t, mask, time) => SetAffinityKeeps(s, caller, t, mask, time);
    case StartUp(t, time) => StartKeeps(s, t, time);
    case Stall(t, unscheduled, time) => StopKeeps(s, t, time);
    case Resume(t, time) => ResumeKeeps(s, t, time);
    case Exit(t, time) => StopKeeps(s, t, time);
    case Tick(time) =>
      PeriodicFromKeeps(s, time, time - s.lastPeriodic, 0);
      var r := PeriodicFrom(s, time, time - s.lastPeriodic, 0);
      forall d | 0 <= d < r.ncores
        ensures CoreFine(r.(lastPeriodic := time), d)
      {
        assert CoreFine(r, d);
      }
  }

  ghost predicate IsRun(states: seq<State>, events: seq<Event>) {
    && |states| == |events| + 1
    && forall i | 0 <= i < |events| ::
         Shape(states[i]) && Allowed(states[i], events[i]) && states[i + 1] == Apply(states[i], events[i])
  }

  /**
   * In every state of every run from an empty machine: core c records thread t exactly when t records c, so no thread
   * is on two cores; the placements and moves logged so far replay to that same map; a thread on a core it has no
   * affinity for sits there with no quantum left; and a started thread that has a core is runnable.
   */
  lemma {:induction false} RunKeepsInvariant(ncores: nat, nthreads: nat, quantum: nat, states: seq<State>,
                                             events: seq<Event>)
    requires IsRun(states, events) && states[0] == Scheduler.Start(ncores, nthreads, quantum)
    ensures forall i | 0 <= i < |states| :: Inv(states[i])
    decreases |events|
  {
    if events == [] {
    } else {
      var k := |events| - 1;
      RunKeepsInvariant(ncores, nthreads, quantum, states[..k + 1], events[..k]);
      assert Inv(states[..k + 1][k]);
      ApplyKeeps(states[k], events[k]);
      forall i | 0 <= i < |states|
        ensures Inv(states[i])
      {
        if i <= k { assert states[i] == states[..k + 1][i]; }
      }
    }
  }

  /**
   * The debt is paid at the next tick: afterwards every core that runs a started thread runs a runnable one that is
   * allowed there.
   */
  lemma TickSettlesEveryCore(s: State, time: nat)
    requires Inv(s) && s.lastPeriodic < time
    ensures var r := Periodic(s, time); forall c | 0 <= c < r.ncores :: Settled(r, c)
  {
    PeriodicFromKeeps(s, time, time - s.lastPeriodic, 0);
    var r0 := PeriodicFrom(s, time, time - s.lastPeriodic, 0);
    forall c | 0 <= c < r0.ncores
      ensures Settled(r0.(lastPeriodic := time), c)
    {
      assert Settled(r0, c);
    }
  }
}
