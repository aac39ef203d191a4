/** What every run of barrier events keeps: wake-ups, clocks and times. */
module BarrierProofs {
  import opened Barrier

  ghost predicate NoRepeats(cores: seq<nat>) {
    forall i, j | 0 <= i < j < |cores| :: cores[i] != cores[j]
  }

  /**
   * The waiting threads are accounted for: a core is blocked exactly when it is held or queued for release, the two
   * groups are disjoint, nothing is queued twice, and every wait begun was ended by one signal or still goes on.
   * Core x, if any, is the one whose call is in progress: it is held but not blocked yet, and never queued.
   */
  ghost predicate Accounted(s: State, x: int)
    requires Shape(s)
  {
    && (forall c: nat | c < |s.clock| :: c in s.blocked <==> (s.held[c] && c != x) || c in s.toRelease)
    && (forall c | c in s.blocked :: c < |s.clock|)
    && NoRepeats(s.toRelease)
    && (forall i | 0 <= i < |s.toRelease| :: !s.held[s.toRelease[i]] && s.toRelease[i] != x)
    && s.waits == |s.signals| + |s.blocked|
  }

  /** A core that is not held has not reached the next barrier. */
  ghost predicate Below(s: State)
    requires Shape(s)
  {
    forall c | 0 <= c < |s.clock| :: !s.held[c] ==> s.clock[c] < s.next
  }

  /** Held cores belong to different threads. */
  ghost predicate OwnThreads(s: State)
    requires Shape(s)
  {
    && (forall c | 0 <= c < |s.clock| :: s.held[c] ==> s.thread[c] > NONE)
    && (forall c, d | 0 <= c < d < |s.clock| :: s.held[c] && s.held[d] ==> s.thread[c] != s.thread[d])
  }

  /**
   * A held core's clock is its arrival time unless it was cleared; a core let go uncleared arrived before the barrier.
   */
  ghost predicate Arrivals(s: State)
    requires Shape(s)
  {
    forall c | 0 <= c < |s.clock| ::
      if s.held[c] then s.clock[c] == if s.zeroed[c] then 0 else s.arrival[c]
      else s.zeroed[c] || s.arrival[c] < s.next
  }

  ghost predicate Clocks(s: State)
    requires Shape(s)
  {
    Below(s) && OwnThreads(s) && Arrivals(s) && s.global <= s.next
  }

  ghost predicate Inv(s: State) {
    Shape(s) && Accounted(s, NONE) && Clocks(s)
  }

  // ---- Wake-ups

  /** Popping the queue: the signalled core was blocked, is blocked no more, and is not queued any more. */
  lemma PopKeeps(s: State, x: int)
    requires Shape(s) && Accounted(s, x) && s.toRelease != []
    ensures var c := s.toRelease[|s.toRelease| - 1];
            Accounted(Pop(s), x) && c in s.blocked && c !in Pop(s).blocked
  {
    var k := |s.toRelease| - 1;
    var c := s.toRelease[k];
    assert c in s.toRelease;
    assert s.toRelease == s.toRelease[..k] + [c];
  }

  lemma {:induction false} DoReleaseKeeps(s: State, n: int, x: int)
    requires Shape(s) && Accounted(s, x)
    ensures Accounted(DoRelease(s, n), x)
    decreases |s.toRelease|
  {
    if s.toRelease != [] && n != 0 {
      PopKeeps(s, x);
      DoReleaseKeeps(Pop(s), n - 1, x);
    }
  }

  lemma ReleaseThreadAccounts(s: State, t: int, x: int)
    requires Shape(s) && Accounted(s, x)
    ensures Accounted(ReleaseThread(s, t), x)
  {
    DoReleaseKeeps(ZeroClocks(s, t), 1, x);
  }

  lemma {:induction false} RunHookAccounts(s: State, actions: seq<HookAction>, x: int)
    requires Shape(s) && Accounted(s, x)
    ensures Accounted(RunHook(s, actions), x)
    decreases |actions|
  {
    if actions != [] {
      if actions[0].Migrate? {
        ReleaseThreadAccounts(s, actions[0].thread, x);
      }
      RunHookAccounts(HookStep(s, actions[0]), actions[1..], x);
    }
  }

  /** Among held cores only x belongs to the caller. */
  ghost predicate CallerIs(s: State, caller: int, x: int)
    requires Shape(s)
  {
    forall c | 0 <= c < |s.clock| :: s.held[c] ==> (s.thread[c] == caller <==> c == x)
  }

  lemma QueueOneAccounts(s: State, c: nat, x: int)
    requires Shape(s) && Accounted(s, x) && c < |s.clock| && s.held[c] && c != x
    ensures Accounted(s.(held := s.held[c := false], toRelease := s.toRelease + [c]), x)
  {
    assert c !in s.toRelease;
  }

  lemma PassOneAccounts(s: State, caller: int, x: int, c: nat)
    requires Shape(s) && Accounted(s, x) && CallerIs(s, caller, x) && c < |s.clock|
    ensures Accounted(PassOne(s, caller, c), x) && CallerIs(PassOne(s, caller, c), caller, x)
  {
    if Due(s, c) && s.thread[c] != caller {
      QueueOneAccounts(s, c, x);
    }
  }

  lemma {:induction false} PassAccounts(s: State, caller: int, x: int, c: nat)
    requires Shape(s) && Accounted(s, x) && CallerIs(s, caller, x) && c <= |s.clock|
    ensures Accounted(PassFrom(s, caller, c), x)
    decreases |s.clock| - c
  {
    if c < |s.clock| {
      PassOneAccounts(s, caller, x, c);
      PassAccounts(PassOne(s, caller, c), caller, x, c + 1);
    }
  }

  /** Only the held flags and the queue change: from core c on, those due are no longer held. */
  ghost predicate PassedFrom(s: State, r: State, c: nat)
    requires Shape(s)
  {
    && |r.held| == |s.held| && r == s.(held := r.held, toRelease := r.toRelease)
    && forall d | 0 <= d < |s.held| :: r.held[d] == (s.held[d] && !(c <= d && Due(s, d)))
  }

  lemma PassedStep(s: State, s1: State, r: State, c: nat)
    requires Shape(s) && Shape(s1) && c < |s.clock| && PassedFrom(s1, r, c + 1)
    requires s1 == s.(held := s.held[c := s.held[c] && !Due(s, c)], toRelease := s1.toRelease)
    ensures PassedFrom(s, r, c)
  {
    forall d | 0 <= d < |s.held|
      ensures r.held[d] == (s.held[d] && !(c <= d && Due(s, d)))
    {
      assert d != c ==> Due(s1, d) == Due(s, d);
    }
  }

  lemma {:induction false} PassEffect(s: State, caller: int, c: nat)
    requires Shape(s) && c <= |s.clock|
    ensures PassedFrom(s, PassFrom(s, caller, c), c)
    decreases |s.clock| - c
  {
    if c < |s.clock| {
      var s1 := PassOne(s, caller, c);
      assert s1.held == s.held[c := s.held[c] && !Due(s, c)];
      PassEffect(s1, caller, c + 1);
      PassedStep(s, s1, PassFrom(s, caller, c), c);
    }
  }

  lemma ShuffleAccounts(s: State, env: Env, x: int)
    requires Shape(s) && Accounted(s, x)
    requires forall i | 0 <= i < |Shuffled(env, s.toRelease)| :: Shuffled(env, s.toRelease)[i] < |s.clock|
    ensures Accounted(s.(toRelease := Shuffled(env, s.toRelease)), x)
  {
    var q := Shuffled(env, s.toRelease);
    SameMembers(s.toRelease, q);
    NoRepeatsByCount(s.toRelease, q);
    forall i | 0 <= i < |q|
      ensures !s.held[q[i]] && q[i] != x
    {
      assert q[i] in q;
      assert q[i] in s.toRelease;
    }
  }

  lemma SameMembers(a: seq<nat>, b: seq<nat>)
    requires multiset(a) == multiset(b)
    ensures forall c :: c in a <==> c in b
  {
    forall c
      ensures c in a <==> c in b
    {
      assert c in a <==> c in multiset(a);
      assert c in b <==> c in multiset(b);
    }
  }

  lemma NoRepeatsByCount(a: seq<nat>, b: seq<nat>)
    requires NoRepeats(a) && multiset(a) == multiset(b)
    ensures NoRepeats(b)
  {
    forall i, j | 0 <= i < j < |b|
      ensures b[i] != b[j]
    {
      if b[i] == b[j] {
        TwiceCounted(b, i, j);
        OnceCounted(a, b[i]);
      }
    }
  }

  lemma TwiceCounted(b: seq<nat>, i: nat, j: nat)
    requires i < j < |b| && b[i] == b[j]
    ensures multiset(b)[b[i]] >= 2
  {
    assert b == b[..j] + [b[j]] + b[j + 1..];
    assert b[i] in b[..j];
    assert multiset(b[..j])[b[i]] >= 1;
  }

  lemma {:induction false} OnceCounted(a: seq<nat>, v: nat)
    requires NoRepeats(a)
    ensures multiset(a)[v] <= 1
  {
    if a != [] {
      var k := |a| - 1;
      OnceCounted(a[..k], v);
      assert a == a[..k] + [a[k]];
      if a[k] == v {
        assert v !in a[..k];
      }
    }
  }

  // ---- Clocks and times

  lemma HookKeepsClocks(s: State, r: State)
    requires HookEffect(s, r) && Clocks(s)
    ensures Clocks(r)
  {
  }

  /** Everything the release loop relies on while the call of core x is in progress. */
  ghost predicate Steady(s: State, caller: int, x: int) {
    Shape(s) && Accounted(s, x) && Clocks(s) && CallerIs(s, caller, x)
  }

  /** Time has moved on, and nothing but time, clocks and the queue has changed. */
  ghost predicate Later(s: State, r: State) {
    && Shape(s) && Shape(r) && |r.clock| == |s.clock| && r.group == s.group && r.interval == s.interval
    && r.arrival == s.arrival && s.next <= r.next && s.global <= r.global
  }

  lemma AdvanceKeeps(s: State, actions: seq<HookAction>, caller: int, x: int)
    requires Steady(s, caller, x)
    ensures var r := Advance(s, actions); Steady(r, caller, x) && r.held == s.held && Later(s, r) && s.next < r.next
  {
    var s0 := s.(global := s.next);
    RunHookEffect(s0, actions);
    RunHookAccounts(s0, actions, x);
    HookKeepsClocks(s0, RunHook(s0, actions));
  }

  lemma {:induction false} AdvanceUntilDueKeeps(s: State, hook: nat -> seq<HookAction>, i: nat, caller: int, x: int)
    requires Steady(s, caller, x) && AnyHeld(s)
    ensures var r := AdvanceUntilDue(s, hook, i);
            Steady(r, caller, x) && r.held == s.held && Later(s, r)
            && s.next < r.next
    decreases Distance(s)
  {
    AdvanceKeeps(s, hook(i), caller, x);
    var a := Advance(s, hook(i));
    if !AnyDue(a) {
      AdvanceCloser(s, hook(i));
      AdvanceUntilDueKeeps(a, hook, i + 1, caller, x);
    }
  }

  lemma PassKeeps(s: State, caller: int, x: int)
    requires Steady(s, caller, x)
    ensures var r := PassFrom(s, caller, 0); Shape(r) && Accounted(r, x) && Clocks(r) && Later(s, r)
    ensures 0 <= x < |s.clock| && s.held[x] ==> (CallerDue(s, caller) <==> !PassFrom(s, caller, 0).held[x])
  {
    PassAccounts(s, caller, x, 0);
    PassEffect(s, caller, 0);
    var r := PassFrom(s, caller, 0);
    if 0 <= x < |s.clock| && s.held[x] && Due(s, x) {
      assert s.thread[x] == caller;
    }
  }

  lemma QueueDrained(s: State, env: Env, x: int)
    requires Shape(s) && Accounted(s, x) && Clocks(s)
    requires forall i | 0 <= i < |Shuffled(env, s.toRelease)| :: Shuffled(env, s.toRelease)[i] < |s.clock|
    ensures var q := s.(toRelease := Shuffled(env, s.toRelease));
            var r := DoRelease(q, if q.fast then -1 else env.hostCores);
            Accounted(r, x) && Clocks(r) && Later(s, r) && r.held == s.held && (r.fast ==> r.toRelease == [])
  {
    var q := s.(toRelease := Shuffled(env, s.toRelease));
    var n := if q.fast then -1 else env.hostCores;
    ShuffleAccounts(s, env, x);
    DoReleaseKeeps(q, n, x);
    DoReleaseEffect(q, n);
  }

  /**
   * A release keeps every waiting thread accounted for, moves time on, and tells its caller to wait exactly if it is
   * still held.
   */
  lemma BarrierReleaseKeeps(s: State, caller: int, x: int, env: Env)
    requires Steady(s, caller, x) && AnyHeld(s)
    ensures var (r, mustWait) := BarrierRelease(s, caller, env);
            && Accounted(r, x) && Clocks(r) && Later(s, r) && s.next < r.next && s.next <= r.global
            && (r.fast ==> r.toRelease == [])
            && (0 <= x < |s.clock| && s.held[x] ==> (mustWait <==> r.held[x]))
  {
    var s0 := SkipAhead(s);
    AdvanceUntilDueKeeps(s0, env.hook, 0, caller, x);
    GlobalReaches(s0, env.hook, 0);
    var a := AdvanceUntilDue(s0, env.hook, 0);
    PassKeeps(a, caller, x);
    var p := PassFrom(a, caller, 0);
    ShuffledInRange(env, p.toRelease, |p.clock|);
    QueueDrained(p, env, x);
  }

  /** The global time becomes at least the barrier time that was reached. */
  lemma {:induction false} GlobalReaches(s: State, hook: nat -> seq<HookAction>, i: nat)
    requires Shape(s) && AnyHeld(s)
    ensures s.next <= AdvanceUntilDue(s, hook, i).global
    decreases Distance(s)
  {
    AdvanceEffect(s, hook(i));
    if !AnyDue(Advance(s, hook(i))) {
      AdvanceCloser(s, hook(i));
      GlobalReaches(Advance(s, hook(i)), hook, i + 1);
    }
  }

  // ---- Events

  /** A thread that is held in the barrier does not call. */
  ghost predicate MayCall(s: State, c: nat, t: int)
    requires Shape(s)
  {
    c < |s.clock| && t > NONE && forall d | 0 <= d < |s.clock| :: s.held[d] ==> s.thread[d] != t
  }

  ghost predicate Allowed(s: State, e: Event)
    requires Shape(s)
  {
    InRange(s, e) && (e.Call? ==> MayCall(s, e.core, e.thread))
  }

  /**
   * The event makes a thread wait on a core whose previous thread has not been woken yet: that core is still queued
   * after the one wake-up that comes with the call.
   */
  predicate Doubles(s: State, e: Event)
    requires Shape(s) && InRange(s, e)
  {
    e.Call? && Enters(s, e.time) && MasterOf(s, e.core) in DoRelease(s, 1).toRelease
  }

  /** A core that is neither held nor queued becomes the one whose call is in progress. */
  lemma EnterAccounts(s: State, r: State, m: nat)
    requires Shape(s) && Shape(r) && Accounted(s, NONE) && m < |s.clock| && !s.held[m] && m !in s.toRelease
    requires r == s.(clock := r.clock, held := s.held[m := true], thread := r.thread, arrival := r.arrival,
                     zeroed := r.zeroed)
    ensures Accounted(r, m)
  {
  }

  lemma EnterClocks(s: State, r: State, m: nat, time: nat, t: int)
    requires Shape(s) && Clocks(s) && m < |s.clock| && !s.held[m] && t > NONE && Enters(s, time)
    requires forall d | 0 <= d < |s.clock| :: s.held[d] ==> s.thread[d] != t
    requires r == s.(clock := s.clock[m := time], held := s.held[m := true], thread := s.thread[m := t],
                     arrival := s.arrival[m := time], zeroed := s.zeroed[m := false])
    ensures Shape(r) && Clocks(r) && CallerIs(r, t, m)
  {
  }

  lemma EnterKeepsClocks(s: State, m: nat, time: nat, t: int)
    requires Shape(s) && Clocks(s) && m < |s.clock| && !s.held[m] && t > NONE && Enters(s, time)
    requires forall d | 0 <= d < |s.clock| :: s.held[d] ==> s.thread[d] != t
    ensures var r := Enter(s, m, time, t); Clocks(r) && CallerIs(r, t, m)
  {
    DoReleaseEffect(s, 1);
    EnterClocks(DoRelease(s, 1), Enter(s, m, time, t), m, time, t);
  }

  lemma EnterKeeps(s: State, m: nat, time: nat, t: int)
    requires Inv(s) && m < |s.clock| && !s.held[m] && m !in DoRelease(s, 1).toRelease && t > NONE && Enters(s, time)
    requires forall d | 0 <= d < |s.clock| :: s.held[d] ==> s.thread[d] != t
    ensures var r := Enter(s, m, time, t); m < |r.held| && Steady(r, t, m) && r.held[m]
  {
    EnterKeepsClocks(s, m, time, t);
    DoReleaseKeeps(s, 1, NONE);
    DoReleaseEffect(s, 1);
    EnterAccounts(DoRelease(s, 1), Enter(s, m, time, t), m);
  }

  lemma WaitCloses(s: State, m: nat)
    requires Shape(s) && Accounted(s, m) && Clocks(s) && m < |s.clock| && s.held[m]
    ensures Inv(Wait(s, m))
  {
    assert m !in s.toRelease && m !in s.blocked;
  }

  lemma DoneCloses(s: State, m: nat)
    requires Shape(s) && Accounted(s, m) && Clocks(s) && m < |s.clock| && !s.held[m]
    ensures Inv(s)
  {
  }

  lemma CallKeeps(s: State, c: nat, time: nat, t: int, env: Env)
    requires Inv(s) && MayCall(s, c, t) && !s.held[MasterOf(s, c)] && !Doubles(s, Call(c, time, t))
    ensures Inv(Synchronize(s, c, time, t, env))
  {
    var m := MasterOf(s, c);
    if Enters(s, time) {
      EnterKeeps(s, m, time, t);
      var s1 := Enter(s, m, time, t);
      if Reached(s1, env.active) {
        BarrierReleaseKeeps(s1, t, m, env);
        var (s2, mustWait) := BarrierRelease(s1, t, env);
        if mustWait {
          WaitCloses(s2, m);
        } else {
          DoneCloses(s2, m);
        }
      } else {
        WaitCloses(s1, m);
      }
    }
  }

  /** A core that is held and queued at once is counted twice. */
  lemma DoubledBreaks(s: State, m: nat)
    requires Shape(s) && m < |s.clock| && s.held[m] && m in s.toRelease
    ensures !Inv(s)
  {
    var i :| 0 <= i < |s.toRelease| && s.toRelease[i] == m;
    assert s.held[s.toRelease[i]];
  }

  lemma DoubledCallBreaks(s: State, c: nat, time: nat, t: int, env: Env)
    requires Inv(s) && c < |s.clock| && Doubles(s, Call(c, time, t)) && !Asserts(s, Call(c, time, t), env)
    ensures !Inv(Synchronize(s, c, time, t, env))
  {
    var m := MasterOf(s, c);
    DoReleaseEffect(s, 1);
    var s1 := Enter(s, m, time, t);
    assert m in s1.toRelease;
    DoubledBreaks(Wait(s1, m), m);
  }

  lemma ReleaseThreadKeeps(s: State, t: int)
    requires Inv(s)
    ensures var r := ReleaseThread(s, t);
            Inv(r) && r.next == s.next && r.global == s.global && r.fast == s.fast
            && r.interval == s.interval
  {
    ReleaseThreadAccounts(s, t, NONE);
    ReleaseThreadEffect(s, t);
    HookKeepsClocks(s, ReleaseThread(s, t));
    DoReleaseEffect(ZeroClocks(s, t), 1);
  }

  lemma SignalKeeps(s: State, env: Env)
    requires Inv(s)
    ensures Inv(Signal(s, env))
  {
    if Reached(s, env.active) && AnyHeld(s) {
      BarrierReleaseKeeps(s, NONE, NONE, env);
    }
  }

  /** Every event the server does not assert on keeps the invariant, if and only if it doubles no wait. */
  lemma ApplyKeepsExactlyWhen(s: State, e: Event, env: Env)
    requires Inv(s) && Allowed(s, e) && !Asserts(s, e, env)
    ensures Inv(Apply(s, e, env)) <==> !Doubles(s, e)
  {
    match e
    case Call(c, time, t) =>
      if Doubles(s, e) {
        DoubledCallBreaks(s, c, time, t, env);
      } else {
        CallKeeps(s, c, time, t, env);
      }
    case Stop(t) =>
      ReleaseThreadKeeps(s, t);
      SignalKeeps(ReleaseThread(s, t), env);
    case MigrateThread(t) => ReleaseThreadKeeps(s, t);
    case SetGroup(_, _) =>
    case SwitchMode(_, _) =>
  }

  // ---- Time goes forward in every run, whether or not waits are doubled

  ghost predicate Forward(s: State, r: State) {
    s.next <= r.next && s.global <= r.global <= r.next && r.interval == s.interval && |r.clock| == |s.clock|
  }

  lemma {:induction false} AdvanceForward(s: State, hook: nat -> seq<HookAction>, i: nat)
    requires Shape(s) && AnyHeld(s)
    ensures var r := AdvanceUntilDue(s, hook, i);
            s.next < r.next && s.next <= r.global <= r.next && r.interval == s.interval && |r.clock| == |s.clock|
    decreases Distance(s)
  {
    AdvanceEffect(s, hook(i));
    if !AnyDue(Advance(s, hook(i))) {
      AdvanceCloser(s, hook(i));
      AdvanceForward(Advance(s, hook(i)), hook, i + 1);
    }
  }

  lemma ReleaseForward(s: State, caller: int, env: Env)
    requires Shape(s) && AnyHeld(s)
    ensures var r := BarrierRelease(s, caller, env).0;
            s.next < r.next && |r.clock| == |s.clock| && (s.global <= s.next ==> Forward(s, r))
  {
    var s0 := SkipAhead(s);
    AdvanceForward(s0, env.hook, 0);
    var a := AdvanceUntilDue(s0, env.hook, 0);
    PassEffect(a, caller, 0);
    var p := PassFrom(a, caller, 0);
    ShuffledInRange(env, p.toRelease, |p.clock|);
    var q := p.(toRelease := Shuffled(env, p.toRelease));
    DoReleaseEffect(q, if q.fast then -1 else env.hostCores);
  }

  lemma ApplyForward(s: State, e: Event, env: Env)
    requires Shape(s) && InRange(s, e) && s.global <= s.next
    ensures Forward(s, Apply(s, e, env))
  {
    match e
    case Call(c, time, t) =>
      if Enters(s, time) {
        var s1 := Enter(s, MasterOf(s, c), time, t);
        DoReleaseEffect(s, 1);
        if Reached(s1, env.active) {
          ReleaseForward(s1, t, env);
        }
      }
    case Stop(t) =>
      ReleaseThreadEffect(s, t);
      var s1 := ReleaseThread(s, t);
      if Reached(s1, env.active) && AnyHeld(s1) {
        ReleaseForward(s1, NONE, env);
      }
    case MigrateThread(t) => ReleaseThreadEffect(s, t);
    case SetGroup(_, _) =>
    case SwitchMode(_, _) =>
  }

  // ---- The size of the tables, and what is on record for a core, in every step

  /** Who called for a core, and when, is as it was. */
  ghost predicate SameRecords(s: State, r: State) {
    |r.clock| == |s.clock| && r.thread == s.thread && r.arrival == s.arrival
  }

  lemma {:induction false} AdvanceKeepsRecords(s: State, hook: nat -> seq<HookAction>, i: nat)
    requires Shape(s) && AnyHeld(s)
    ensures SameRecords(s, AdvanceUntilDue(s, hook, i))
    decreases Distance(s)
  {
    AdvanceEffect(s, hook(i));
    if !AnyDue(Advance(s, hook(i))) {
      AdvanceCloser(s, hook(i));
      AdvanceKeepsRecords(Advance(s, hook(i)), hook, i + 1);
    }
  }

  lemma ReleaseKeepsRecords(s: State, caller: int, env: Env)
    requires Shape(s) && AnyHeld(s)
    ensures SameRecords(s, BarrierRelease(s, caller, env).0)
  {
    var s0 := SkipAhead(s);
    AdvanceKeepsRecords(s0, env.hook, 0);
    var a := AdvanceUntilDue(s0, env.hook, 0);
    PassEffect(a, caller, 0);
    var p := PassFrom(a, caller, 0);
    ShuffledInRange(env, p.toRelease, |p.clock|);
    var q := p.(toRelease := Shuffled(env, p.toRelease));
    DoReleaseEffect(q, if q.fast then -1 else env.hostCores);
  }

  lemma RendezvousKeepsRecords(s: State, m: nat, t: int, env: Env)
    requires Shape(s) && AnyHeld(s)
    ensures SameRecords(s, Rendezvous(s, m, t, env))
  {
    if Reached(s, env.active) {
      ReleaseKeepsRecords(s, t, env);
    }
  }

  /** A call is recorded for its master, as a call of its thread if it enters, and for no other core. */
  lemma CallRecorded(s: State, c: nat, time: nat, t: int, env: Env)
    requires Shape(s) && c < |s.clock|
    ensures var r, m := Synchronize(s, c, time, t, env), MasterOf(s, c);
            && |r.clock| == |s.clock| && r.arrival == s.arrival[m := time]
            && r.thread == if Enters(s, time) then s.thread[m := t] else s.thread
  {
    var m := MasterOf(s, c);
    if Enters(s, time) {
      DoReleaseEffect(s, 1);
      RendezvousKeepsRecords(Enter(s, m, time, t), m, t, env);
    }
  }

  lemma OthersKeepRecords(s: State, e: Event, env: Env)
    requires Shape(s) && InRange(s, e) && !e.Call?
    ensures SameRecords(s, Apply(s, e, env))
  {
    match e
    case Stop(t) =>
      ReleaseThreadEffect(s, t);
      var s1 := ReleaseThread(s, t);
      if Reached(s1, env.active) && AnyHeld(s1) {
        ReleaseKeepsRecords(s1, NONE, env);
      }
    case MigrateThread(t) => ReleaseThreadEffect(s, t);
    case SetGroup(_, _) =>
    case SwitchMode(_, _) =>
  }

  lemma ApplySize(s: State, e: Event, env: Env)
    requires Shape(s) && InRange(s, e)
    ensures |Apply(s, e, env).clock| == |s.clock|
  {
    if e.Call? {
      CallRecorded(s, e.core, e.time, e.thread, env);
    } else {
      OthersKeepRecords(s, e, env);
    }
  }

  // ---- Runs

  /** The event happens without an assertion and leads from s to r. */
  ghost predicate Takes(s: State, e: Event, env: Env, r: State) {
    Shape(s) && Allowed(s, e) && !Asserts(s, e, env) && r == Apply(s, e, env)
  }

  /** A run of the server up to its first assertion, if any. */
  ghost predicate IsRun(states: seq<State>, events: seq<Event>, envs: seq<Env>) {
    && |states| == |events| + 1 && |envs| == |events|
    && forall i {:trigger Takes(states[i], events[i], envs[i], states[i + 1])} | 0 <= i < |events| ::
         Takes(states[i], events[i], envs[i], states[i + 1])
  }

  lemma RunSnoc(states: seq<State>, events: seq<Event>, envs: seq<Env>, e: Event, env: Env, r: State)
    requires IsRun(states, events, envs) && Takes(states[|events|], e, env, r)
    ensures IsRun(states + [r], events + [e], envs + [env])
  {
  }

  lemma RunTakes(states: seq<State>, events: seq<Event>, envs: seq<Env>, i: nat)
    requires IsRun(states, events, envs) && i < |events|
    ensures Takes(states[i], events[i], envs[i], states[i + 1])
  {
  }

  // ---- Clocks hold in every run, whether or not waits are doubled

  lemma {:induction false} AdvanceKeepsClocks(s: State, hook: nat -> seq<HookAction>, i: nat)
    requires Shape(s) && AnyHeld(s) && Clocks(s)
    ensures Clocks(AdvanceUntilDue(s, hook, i))
    decreases Distance(s)
  {
    var s0 := s.(global := s.next);
    RunHookEffect(s0, hook(i));
    HookKeepsClocks(s0, RunHook(s0, hook(i)));
    if !AnyDue(Advance(s, hook(i))) {
      AdvanceCloser(s, hook(i));
      AdvanceKeepsClocks(Advance(s, hook(i)), hook, i + 1);
    }
  }

  lemma PassKeepsClocks(s: State, r: State)
    requires Shape(s) && Shape(r) && Clocks(s) && PassedFrom(s, r, 0)
    ensures Clocks(r)
  {
  }

  lemma ReleaseKeepsClocks(s: State, caller: int, env: Env)
    requires Shape(s) && AnyHeld(s) && Clocks(s)
    ensures Clocks(BarrierRelease(s, caller, env).0)
  {
    AdvanceKeepsClocks(SkipAhead(s), env.hook, 0);
    var a := AdvanceUntilDue(SkipAhead(s), env.hook, 0);
    PassEffect(a, caller, 0);
    var p := PassFrom(a, caller, 0);
    PassKeepsClocks(a, p);
    ShuffledInRange(env, p.toRelease, |p.clock|);
    var q := p.(toRelease := Shuffled(env, p.toRelease));
    DoReleaseEffect(q, if q.fast then -1 else env.hostCores);
  }

  lemma RendezvousKeepsClocks(s: State, m: nat, t: int, env: Env)
    requires Shape(s) && AnyHeld(s) && Clocks(s)
    ensures Clocks(Rendezvous(s, m, t, env))
  {
    if Reached(s, env.active) {
      ReleaseKeepsClocks(s, t, env);
    }
  }

  lemma CallKeepsClocks(s: State, c: nat, time: nat, t: int, env: Env)
    requires Shape(s) && Clocks(s) && MayCall(s, c, t) && !s.held[MasterOf(s, c)]
    ensures Clocks(Synchronize(s, c, time, t, env))
  {
    var m := MasterOf(s, c);
    if Enters(s, time) {
      EnterKeepsClocks(s, m, time, t);
      RendezvousKeepsClocks(Enter(s, m, time, t), m, t, env);
    }
  }

  lemma StopKeepsClocks(s: State, t: int, env: Env)
    requires Shape(s) && Clocks(s)
    ensures Clocks(ReleaseThread(s, t)) && Clocks(Signal(ReleaseThread(s, t), env))
  {
    ReleaseThreadEffect(s, t);
    var s1 := ReleaseThread(s, t);
    HookKeepsClocks(s, s1);
    if Reached(s1, env.active) && AnyHeld(s1) {
      ReleaseKeepsClocks(s1, NONE, env);
    }
  }

  lemma TakesKeepsClocks(s: State, e: Event, env: Env, r: State)
    requires Takes(s, e, env, r) && Clocks(s)
    ensures Clocks(r)
  {
    match e
    case Call(c, time, t) => CallKeepsClocks(s, c, time, t, env);
    case Stop(t) => StopKeepsClocks(s, t, env);
    case MigrateThread(t) => StopKeepsClocks(s, t, env);
    case SetGroup(_, _) =>
    case SwitchMode(_, _) =>
  }

  /**
   * In every run a core that is not held has not reached the next barrier, and one that left uncleared arrived before
   * it.
   */
  lemma {:induction false} RunKeepsClocks(states: seq<State>, events: seq<Event>, envs: seq<Env>, i: nat)
    requires IsRun(states, events, envs) && Shape(states[0]) && Clocks(states[0]) && i <= |events|
    ensures Shape(states[i]) && Clocks(states[i])
  {
    if i > 0 {
      RunKeepsClocks(states, events, envs, i - 1);
      RunTakes(states, events, envs, i - 1);
      TakesKeepsClocks(states[i - 1], events[i - 1], envs[i - 1], states[i]);
    }
  }

  /** Event i of the run doubles a wait. */
  predicate DoublesAt(states: seq<State>, events: seq<Event>, i: nat) {
    i < |events| && i < |states| && Shape(states[i]) && InRange(states[i], events[i]) && Doubles(states[i], events[i])
  }

  ghost predicate NeverDoubles(states: seq<State>, events: seq<Event>) {
    forall i: nat :: !DoublesAt(states, events, i)
  }

  lemma StartKeeps(ncores: nat, interval: nat, fast: bool)
    requires interval > 0
    ensures Inv(Start(ncores, interval, fast))
  {
  }

  lemma TakesKeepsExactlyWhen(s: State, e: Event, env: Env, r: State)
    requires Inv(s) && Takes(s, e, env, r)
    ensures Inv(r) <==> !Doubles(s, e)
  {
    ApplyKeepsExactlyWhen(s, e, env);
  }

  /** Up to the first doubled wait the invariant holds, and just after it no more. */
  lemma {:induction false} InvUntilDoubled(states: seq<State>, events: seq<Event>, envs: seq<Env>, k: nat)
    requires IsRun(states, events, envs) && Inv(states[0]) && k <= |events|
    requires forall i: nat | i < k :: !DoublesAt(states, events, i)
    ensures Inv(states[k]) && (k < |events| && DoublesAt(states, events, k) ==> !Inv(states[k + 1]))
  {
    if k > 0 {
      InvUntilDoubled(states, events, envs, k - 1);
      RunTakes(states, events, envs, k - 1);
      assert !DoublesAt(states, events, k - 1);
      TakesKeepsExactlyWhen(states[k - 1], events[k - 1], envs[k - 1], states[k]);
    }
    if k < |events| {
      RunTakes(states, events, envs, k);
      TakesKeepsExactlyWhen(states[k], events[k], envs[k], states[k + 1]);
    }
  }

  /** The first event of the run that doubles a wait. */
  lemma {:induction false} FirstDoubled(states: seq<State>, events: seq<Event>, k: nat) returns (j: nat)
    requires DoublesAt(states, events, k)
    ensures DoublesAt(states, events, j) && forall i: nat | i < j :: !DoublesAt(states, events, i)
  {
    if i: nat :| i < k && DoublesAt(states, events, i) {
      j := FirstDoubled(states, events, i);
    } else {
      j := k;
    }
  }

  /**
   * In every run, whatever the hooks, shuffles, running cores, groups and modes: no wake-up is lost or doubled and a
   * core that is not held has a clock below the next barrier time, in all states, if and only if no call makes a thread
   * wait on a core that is still queued for its wake-up.
   */
  lemma RunKeepsInvariantExactlyWhen(ncores: nat, interval: nat, fast: bool, states: seq<State>, events: seq<Event>,
                                     envs: seq<Env>)
    requires interval > 0 && IsRun(states, events, envs) && states[0] == Start(ncores, interval, fast)
    ensures (forall i | 0 <= i < |states| :: Inv(states[i])) <==> NeverDoubles(states, events)
  {
    StartKeeps(ncores, interval, fast);
    if k: nat :| DoublesAt(states, events, k) {
      var j := FirstDoubled(states, events, k);
      InvUntilDoubled(states, events, envs, j);
      assert !Inv(states[j + 1]);
    } else {
      forall i | 0 <= i < |states|
        ensures Inv(states[i])
      {
        InvUntilDoubled(states, events, envs, i);
      }
    }
  }

  /** Barrier and global time only move forward, in every run. */
  lemma {:induction false} RunGoesForward(states: seq<State>, events: seq<Event>, envs: seq<Env>, i: nat, j: nat)
    requires IsRun(states, events, envs) && states[0].global <= states[0].next && i <= j <= |events|
    ensures Forward(states[i], states[j])
    decreases j
  {
    if j > 0 {
      RunGoesForward(states, events, envs, if i < j then i else j - 1, j - 1);
      RunTakes(states, events, envs, j - 1);
      ApplyForward(states[j - 1], events[j - 1], envs[j - 1]);
    }
  }

  // ---- Reached barriers

  /** In detailed mode every running group master is held. */
  ghost predicate RunningMastersHeld(s: State, active: set<nat>)
    requires Shape(s)
  {
    !s.fast ==> forall c | 0 <= c < |s.clock| :: s.group[c] == NONE && CoreRunning(s, active, c) ==> s.held[c]
  }

  /** A reached barrier has a held core, and in detailed mode holds every running group master. */
  lemma ReachedMeansAllHeld(s: State, active: set<nat>)
    requires Shape(s) && Clocks(s) && Reached(s, active)
    ensures AnyHeld(s) && RunningMastersHeld(s, active)
  {
    var m :| 0 <= m < |s.clock| && AtBarrier(s, active, m);
    assert s.held[m];
    forall c | 0 <= c < |s.clock| && !s.fast && s.group[c] == NONE && CoreRunning(s, active, c)
      ensures s.held[c]
    {
      assert Passes(s, active, c);
    }
  }

  /** So it is where a call asks: its core is in the barrier then, and does not wait yet. */
  lemma CallReachedMeansAllHeld(s: State, c: nat, time: nat, t: int, env: Env)
    requires Shape(s) && Clocks(s) && Allowed(s, Call(c, time, t)) && !Asserts(s, Call(c, time, t), env)
             && Enters(s, time)
    ensures var s1 := Enter(s, MasterOf(s, c), time, t);
            Reached(s1, env.active) ==> AnyHeld(s1) && RunningMastersHeld(s1, env.active)
  {
    var m := MasterOf(s, c);
    EnterKeepsClocks(s, m, time, t);
    if Reached(Enter(s, m, time, t), env.active) {
      ReachedMeansAllHeld(Enter(s, m, time, t), env.active);
    }
  }

  /** And where a stopped thread asks: the release then always has a core to let go. */
  lemma StopReachedMeansAllHeld(s: State, t: int, env: Env)
    requires Shape(s) && Clocks(s)
    ensures var s1 := ReleaseThread(s, t);
            && (Reached(s1, env.active) ==> AnyHeld(s1) && RunningMastersHeld(s1, env.active))
            && (Signal(s1, env) == if Reached(s1, env.active) then BarrierRelease(s1, NONE, env).0 else s1)
  {
    StopKeepsClocks(s, t, env);
    if Reached(ReleaseThread(s, t), env.active) {
      ReachedMeansAllHeld(ReleaseThread(s, t), env.active);
    }
  }

  /** In every state of every run, doubled waits or not, a barrier that is reached is so in earnest. */
  lemma RunReachedMeansAllHeld(states: seq<State>, events: seq<Event>, envs: seq<Env>, i: nat, active: set<nat>)
    requires IsRun(states, events, envs) && Shape(states[0]) && Clocks(states[0]) && i <= |events|
    ensures Shape(states[i]) && (Reached(states[i], active) ==>
                                   AnyHeld(states[i]) && RunningMastersHeld(states[i], active))
  {
    RunKeepsClocks(states, events, envs, i);
    if Reached(states[i], active) {
      ReachedMeansAllHeld(states[i], active);
    }
  }

  /** The core has stopped running or, in detailed mode, belongs to another master. */
  ghost predicate Stopped(s: State, active: set<nat>, c: nat)
    requires Shape(s) && c < |s.clock|
  {
    !CoreRunning(s, active, c) || (!s.fast && s.group[c] != NONE)
  }

  /**
   * When the assertion that everybody released by the previous barrier has been woken can fire: at a reached barrier
   * every core still queued has stopped. Core x, if any, is the one whose call is in progress.
   */
  lemma QueuedAtReachedHaveStopped(s: State, active: set<nat>, x: int)
    requires Shape(s) && Accounted(s, x) && Clocks(s) && Reached(s, active)
    ensures forall i | 0 <= i < |s.toRelease| :: Stopped(s, active, s.toRelease[i])
  {
    forall i | 0 <= i < |s.toRelease|
      ensures Stopped(s, active, s.toRelease[i])
    {
      assert !s.held[s.toRelease[i]];
      assert Passes(s, active, s.toRelease[i]);
    }
  }

  ghost predicate QueueRuns(s: State, active: set<nat>)
    requires Shape(s)
  {
    forall i | 0 <= i < |s.toRelease| :: !Stopped(s, active, s.toRelease[i])
  }

  /** As long as the queued cores all run, the barrier is not reached before they are woken. */
  lemma QueueHoldsOffBarrier(s: State, active: set<nat>, x: int)
    requires Shape(s) && Accounted(s, x) && Clocks(s) && QueueRuns(s, active)
    ensures !ReachedTooSoon(s, active)
  {
    if s.toRelease != [] {
      var c := s.toRelease[0];
      assert !Stopped(s, active, c) && !s.held[c];
      assert !Passes(s, active, c);
    }
  }

  /** Then a call of a core that is neither in the barrier nor queued itself runs into no assertion. */
  lemma CallFindsQueueRunning(s: State, c: nat, time: nat, t: int, env: Env)
    requires Inv(s) && Allowed(s, Call(c, time, t)) && !s.held[MasterOf(s, c)] && !Doubles(s, Call(c, time, t))
    requires Enters(s, time) ==> QueueRuns(Enter(s, MasterOf(s, c), time, t), env.active)
    ensures !Asserts(s, Call(c, time, t), env)
  {
    var m := MasterOf(s, c);
    if Enters(s, time) {
      EnterKeeps(s, m, time, t);
      QueueHoldsOffBarrier(Enter(s, m, time, t), env.active, m);
    }
  }

  /** Nor does a thread that stops. */
  lemma StopFindsQueueRunning(s: State, t: int, env: Env)
    requires Inv(s) && QueueRuns(ReleaseThread(s, t), env.active)
    ensures !Asserts(s, Stop(t), env)
  {
    ReleaseThreadKeeps(s, t);
    QueueHoldsOffBarrier(ReleaseThread(s, t), env.active, NONE);
  }
}
