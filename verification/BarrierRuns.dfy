/** Runs of the barrier server, from its start, that reach what its invariants exclude. */
module BarrierRuns {
  import opened Barrier
  import opened BarrierProofs

  /** No hook, no reordering, and one host core. */
  function Plain(active: set<nat>): Env {
    Env(active, _ => [], cores => cores, 1)
  }

  /** A core enters and waits, because core d is running and has not arrived. */
  lemma CallWaits(s: State, c: nat, time: nat, t: int, env: Env, d: nat)
    requires Shape(s) && !s.fast && c < |s.clock| && s.group[c] == NONE && s.next <= time && s.toRelease == []
    requires d < |s.clock| && d != c && d in env.active && s.group[d] == NONE && s.clock[d] < s.next
    ensures !s.held[c] ==> !Asserts(s, Call(c, time, t), env)
    ensures Synchronize(s, c, time, t, env) ==
            s.(clock := s.clock[c := time], held := s.held[c := true], thread := s.thread[c := t],
               arrival := s.arrival[c := time], zeroed := s.zeroed[c := false],
               blocked := s.blocked + {c}, waits := s.waits + 1)
  {
    var s1 := Enter(s, c, time, t);
    assert !Passes(s1, env.active, d);
  }

  /** As a step to a given state. */
  lemma WaitsIn(s: State, c: nat, time: nat, t: int, env: Env, d: nat, r: State)
    requires Shape(s) && !s.fast && MayCall(s, c, t) && s.group[c] == NONE && s.next <= time && s.toRelease == []
             && !s.held[c]
    requires d < |s.clock| && d != c && d in env.active && s.group[d] == NONE && s.clock[d] < s.next
    requires r.clock == s.clock[c := time] && r.held == s.held[c := true] && r.thread == s.thread[c := t]
    requires r.arrival == s.arrival[c := time] && r.zeroed == s.zeroed[c := false] && r.blocked == s.blocked + {c}
             && r.waits == s.waits + 1
    requires r == s.(clock := r.clock, held := r.held, thread := r.thread, arrival := r.arrival, zeroed := r.zeroed,
                     blocked := r.blocked, waits := r.waits)
    ensures Takes(s, Call(c, time, t), env, r)
  {
    CallWaits(s, c, time, t, env, d);
  }

  /** A release in detailed mode whose first pass lets somebody go. */
  lemma ReleaseAtOnce(s: State, caller: int, env: Env, a: State, c: nat)
    requires Shape(s) && !s.fast && a == Advance(s, env.hook(0)) && !a.fast && c < |a.clock| && Due(a, c)
    requires c < |s.clock| && s.held[c] && env.hostCores == 1 && forall cores :: env.shuffle(cores) == cores
    ensures AnyHeld(s) && BarrierRelease(s, caller, env) ==
            (DoRelease(PassFrom(a, caller, 0), 1), !CallerDue(a, caller))
  {
    PassEffect(a, caller, 0);
    var p := PassFrom(a, caller, 0);
    assert p.(toRelease := Shuffled(env, p.toRelease)) == p;
  }

  // ---- Four cores, one of them woken at a time

  const ALL: set<nat> := {0, 1, 2, 3}
  const NO_GROUPS: seq<int> := [NONE, NONE, NONE, NONE]
  const NONE_ZEROED: seq<bool> := [false, false, false, false]

  /** As the barrier advances, threads 0, 1 and 2 are moved off their cores. */
  function Moving(active: set<nat>): Env {
    Env(active, i => if i == 0 then [Migrate(0), Migrate(1), Migrate(2)] else [], cores => cores, 1)
  }

  const FOUR_START: State :=
    State(10, 10, 0, false, [0, 0, 0, 0], [false, false, false, false], NO_GROUPS, NO_GROUPS,
          [], {}, [], 0, [0, 0, 0, 0], NONE_ZEROED)

  const ONE_WAITS: State :=
    State(10, 10, 0, false, [10, 0, 0, 0], [true, false, false, false], [0, NONE, NONE, NONE], NO_GROUPS,
          [], {0}, [], 1, [10, 0, 0, 0], NONE_ZEROED)

  const TWO_WAIT: State :=
    State(10, 10, 0, false, [10, 10, 0, 0], [true, true, false, false], [0, 1, NONE, NONE], NO_GROUPS,
          [], {0, 1}, [], 2, [10, 10, 0, 0], NONE_ZEROED)

  const THREE_WAIT: State :=
    State(10, 10, 0, false, [10, 10, 10, 0], [true, true, true, false], [0, 1, 2, NONE], NO_GROUPS,
          [], {0, 1, 2}, [], 3, [10, 10, 10, 0], NONE_ZEROED)

  /**
   * Core 3 has released the barrier, and the other threads were moved away; core 2 is woken, cores 0 and 1 are queued.
   */
  const TWO_QUEUED: State :=
    State(10, 20, 10, false, [0, 0, 0, 10], [false, false, false, false], [0, 1, 2, 3], NO_GROUPS,
          [0, 1], {0, 1}, [2], 3, [10, 10, 10, 10], [true, true, true, false])

  lemma FourStart()
    ensures FOUR_START == Start(4, 10, false)
  {
  }

  lemma FirstWaits()
    ensures Takes(FOUR_START, Call(0, 10, 0), Plain(ALL), ONE_WAITS)
  {
    WaitsIn(FOUR_START, 0, 10, 0, Plain(ALL), 1, ONE_WAITS);
  }

  lemma SecondWaits()
    ensures Takes(ONE_WAITS, Call(1, 10, 1), Plain(ALL), TWO_WAIT)
  {
    WaitsIn(ONE_WAITS, 1, 10, 1, Plain(ALL), 2, TWO_WAIT);
  }

  lemma ThirdWaits()
    ensures Takes(TWO_WAIT, Call(2, 10, 2), Plain(ALL), THREE_WAIT)
  {
    WaitsIn(TWO_WAIT, 2, 10, 2, Plain(ALL), 3, THREE_WAIT);
  }

  /** All four have arrived, the last of them about to release. */
  const FOUR_IN: State :=
    THREE_WAIT.(clock := [10, 10, 10, 10], held := [true, true, true, true], thread := [0, 1, 2, 3],
                arrival := [10, 10, 10, 10])

  lemma PassFour(a: State, p1: State, p2: State, p3: State, p4: State, caller: int)
    requires Shape(a) && |a.clock| == 4
    requires p1 == PassOne(a, caller, 0) && |p1.clock| == 4 && p2 == PassOne(p1, caller, 1) && |p2.clock| == 4
    requires p3 == PassOne(p2, caller, 2) && |p3.clock| == 4 && p4 == PassOne(p3, caller, 3) && |p4.clock| == 4
    ensures PassFrom(a, caller, 0) == p4
  {
    assert PassFrom(p4, caller, 4) == p4;
    assert PassFrom(p3, caller, 3) == p4;
    assert PassFrom(p2, caller, 2) == p4;
    assert PassFrom(p1, caller, 1) == p4;
  }

  /** The four after the threads of the first three were moved and the barrier advanced. */
  const FOUR_MOVED: State :=
    FOUR_IN.(global := 10, next := 20, clock := [0, 0, 0, 10], zeroed := [true, true, true, false])

  lemma ClearedBy(s: State, t: int, r: State)
    requires Shape(s) && s.toRelease == [] && ZeroClocks(s, t) == r
    ensures ReleaseThread(s, t) == r
  {
  }

  lemma FourAdvance()
    ensures Shape(FOUR_IN) && Advance(FOUR_IN, Moving(ALL).hook(0)) == FOUR_MOVED
  {
    var s0 := FOUR_IN.(global := 10);
    var s1 := s0.(clock := [0, 10, 10, 10], zeroed := [true, false, false, false]);
    var s2 := s0.(clock := [0, 0, 10, 10], zeroed := [true, true, false, false]);
    var s3 := s0.(clock := [0, 0, 0, 10], zeroed := [true, true, true, false]);
    ClearedBy(s0, 0, s1);
    ClearedBy(s1, 1, s2);
    ClearedBy(s2, 2, s3);
    var actions := Moving(ALL).hook(0);
    assert actions[1..] == [Migrate(1), Migrate(2)] && actions[1..][1..] == [Migrate(2)];
    assert RunHook(s3, []) == s3;
    assert RunHook(s2, [Migrate(2)]) == s3;
    assert RunHook(s1, [Migrate(1), Migrate(2)]) == s3;
  }

  const PASSED_ONE: State := FOUR_MOVED.(held := [false, true, true, true], toRelease := [0])
  const PASSED_TWO: State := FOUR_MOVED.(held := [false, false, true, true], toRelease := [0, 1])
  const PASSED_THREE: State := FOUR_MOVED.(held := [false, false, false, true], toRelease := [0, 1, 2])
  const PASSED_FOUR: State := FOUR_MOVED.(held := [false, false, false, false], toRelease := [0, 1, 2])

  lemma PassFirstTwo()
    ensures Shape(FOUR_MOVED) && PassOne(FOUR_MOVED, 3, 0) == PASSED_ONE
    ensures Shape(PASSED_ONE) && PassOne(PASSED_ONE, 3, 1) == PASSED_TWO
  {
  }

  lemma PassLastTwo()
    ensures Shape(PASSED_TWO) && PassOne(PASSED_TWO, 3, 2) == PASSED_THREE
    ensures Shape(PASSED_THREE) && PassOne(PASSED_THREE, 3, 3) == PASSED_FOUR
  {
  }

  lemma PassOfFour()
    ensures Shape(FOUR_MOVED) && PassFrom(FOUR_MOVED, 3, 0) == PASSED_FOUR
  {
    PassFirstTwo();
    PassLastTwo();
    PassFour(FOUR_MOVED, PASSED_ONE, PASSED_TWO, PASSED_THREE, PASSED_FOUR, 3);
  }

  lemma FourReached()
    ensures Shape(FOUR_IN) && Enter(THREE_WAIT, 3, 10, 3) == FOUR_IN && Reached(FOUR_IN, ALL)
  {
    assert AtBarrier(FOUR_IN, ALL, 0);
  }

  lemma FourReleased()
    ensures Shape(FOUR_IN) && AnyHeld(FOUR_IN) && BarrierRelease(FOUR_IN, 3, Moving(ALL)) == (TWO_QUEUED, false)
  {
    FourAdvance();
    PassOfFour();
    assert Due(FOUR_MOVED, 3) && FOUR_MOVED.thread[3] == 3;
    ReleaseAtOnce(FOUR_IN, 3, Moving(ALL), FOUR_MOVED, 3);
    OneWoken();
  }

  lemma OneWoken()
    ensures Shape(PASSED_FOUR) && DoRelease(PASSED_FOUR, 1) == TWO_QUEUED
  {
    assert Pop(PASSED_FOUR) == TWO_QUEUED;
  }

  lemma FourthReleases()
    ensures Takes(THREE_WAIT, Call(3, 10, 3), Moving(ALL), TWO_QUEUED)
  {
    FourReached();
    FourReleased();
  }

  /**
   * Four cores meet at the first barrier, with one host core; three threads are moved and two cores are left queued.
   */
  lemma FourMeet() returns (states: seq<State>, events: seq<Event>, envs: seq<Env>)
    ensures IsRun(states, events, envs) && states[0] == Start(4, 10, false) && states[|events|] == TWO_QUEUED
  {
    FourStart();
    FirstWaits();
    SecondWaits();
    ThirdWaits();
    FourthReleases();
    states, events, envs := FourEvents(FOUR_START, ONE_WAITS, TWO_WAIT, THREE_WAIT, TWO_QUEUED,
                                       Call(0, 10, 0), Call(1, 10, 1), Call(2, 10, 2), Call(3, 10, 3), Plain(ALL),
                                       Moving(ALL));
  }

  lemma FourEvents(s0: State, s1: State, s2: State, s3: State, s4: State, e0: Event, e1: Event, e2: Event, e3: Event,
                   env: Env, last: Env)
    returns (states: seq<State>, events: seq<Event>, envs: seq<Env>)
    requires Takes(s0, e0, env, s1) && Takes(s1, e1, env, s2) && Takes(s2, e2, env, s3) && Takes(s3, e3, last, s4)
    ensures IsRun(states, events, envs) && states[0] == s0 && states[|events|] == s4
  {
    states, events, envs := [s0], [], [];
    RunSnoc(states, events, envs, e0, env, s1);
    states, events, envs := states + [s1], events + [e0], envs + [env];
    RunSnoc(states, events, envs, e1, env, s2);
    states, events, envs := states + [s2], events + [e1], envs + [env];
    RunSnoc(states, events, envs, e2, env, s3);
    states, events, envs := states + [s3], events + [e2], envs + [env];
    RunSnoc(states, events, envs, e3, last, s4);
    states, events, envs := states + [s4], events + [e3], envs + [last];
  }

  /** Core 1 is woken by the next call, core 0 stays queued. */
  lemma OneMoreWoken()
    ensures Shape(TWO_QUEUED)
            && DoRelease(TWO_QUEUED, 1) == TWO_QUEUED.(toRelease := [0], blocked := {0}, signals := [2, 1])
  {
    assert Pop(TWO_QUEUED) == TWO_QUEUED.(toRelease := [0], blocked := {0}, signals := [2, 1]);
  }

  /** Two threads on core 0, one of them queued. */
  const DOUBLED: State :=
    State(10, 20, 10, false, [20, 0, 0, 10], [true, false, false, false], [7, 1, 2, 3], NO_GROUPS,
          [0], {0}, [2, 1], 4, [20, 10, 10, 10], [false, true, true, false])

  lemma DoublingCall()
    ensures Takes(TWO_QUEUED, Call(0, 20, 7), Plain(ALL), DOUBLED)
  {
    OneMoreWoken();
    var s1 := Enter(TWO_QUEUED, 0, 20, 7);
    assert !Passes(s1, ALL, 1);
    assert Wait(s1, 0) == DOUBLED;
  }

  /**
   * A wait can be doubled. The thread that waits on core 0 is moved away as the barrier advances, and the core is still
   * queued when the thread that has replaced it calls: the server lets it in, and from then on one core stands for two
   * waiting threads.
   */
  lemma QueuedCoreDoubles() returns (states: seq<State>, events: seq<Event>, envs: seq<Env>)
    ensures IsRun(states, events, envs) && states[0] == Start(4, 10, false)
    ensures states[|events|] == DOUBLED && !Inv(DOUBLED)
  {
    states, events, envs := FourMeet();
    DoublingCall();
    RunSnoc(states, events, envs, Call(0, 20, 7), Plain(ALL), DOUBLED);
    states, events, envs := states + [DOUBLED], events + [Call(0, 20, 7)], envs + [Plain(ALL)];
    DoubledBreaks(DOUBLED, 0);
  }

  lemma TwoQueuedInOrder()
    ensures Inv(TWO_QUEUED)
  {
  }

  lemma ThreeArrivesAlone()
    ensures Shape(TWO_QUEUED) && Asserts(TWO_QUEUED, Call(3, 20, 3), Plain({3}))
  {
    OneMoreWoken();
    var s1 := Enter(TWO_QUEUED, 3, 20, 3);
    assert AtBarrier(s1, {3}, 3);
  }

  /** The assertion on the queue can fire: only core 3 still has a thread, and it arrives while core 0 is queued. */
  lemma ReachedWhileQueued() returns (states: seq<State>, events: seq<Event>, envs: seq<Env>)
    ensures IsRun(states, events, envs) && states[0] == Start(4, 10, false)
    ensures var s, e := states[|events|], Call(3, 20, 3);
            Inv(s) && Allowed(s, e) && !s.held[MasterOf(s, 3)] && Asserts(s, e, Plain({3}))
  {
    TwoQueuedInOrder();
    ThreeArrivesAlone();
    states, events, envs := FourMeet();
  }
}
