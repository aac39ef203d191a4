/** The per-core client in front of the barrier server, which skips calls it believes to be pointless. */
module BarrierClient {
  import opened Barrier
  import opened BarrierProofs

  /** The next time at which a core that last asked at `time` asks again. */
  function NextSync(time: nat, interval: nat): nat
    requires interval > 0
  {
    time / interval * interval + interval
  }

  /** The last whole multiple of the interval up to a time. */
  function GridBelow(time: nat, interval: nat): nat
    requires interval > 0
  {
    time / interval * interval
  }

  lemma TimesMonotone(a: nat, b: nat, m: nat)
    requires a <= b
    ensures a * m <= b * m
  {
    assert b * m == a * m + (b - a) * m;
  }

  /** Points q and k of the grid, with remainders: q is before k exactly if it is so with its remainder. */
  lemma GridOrder(q: nat, r: nat, k: nat, rest: nat, interval: nat)
    requires r < interval && rest < interval
    ensures q * interval + interval <= k * interval + rest <==> q * interval + r < k * interval
  {
    if q < k {
      TimesMonotone(q + 1, k, interval);
      assert (q + 1) * interval == q * interval + interval;
    } else {
      TimesMonotone(k, q, interval);
    }
  }

  /**
   * The next time of the client is within a barrier time exactly if its last call was before the grid point below that.
   */
  lemma FilterIsExact(time: nat, next: nat, interval: nat)
    requires interval > 0
    ensures NextSync(time, interval) <= next <==> time < GridBelow(next, interval)
  {
    GridOrder(time / interval, time % interval, next / interval, next % interval, interval);
  }

  /**
   * Exactly which clients the filter serves well: every call that a client skips which last asked at `asked` would
   * have been let through, if and only if that was before the last grid point up to the barrier time.
   */
  lemma FilterSafeExactlyWhen(s: State, asked: nat)
    requires s.interval > 0 && !s.fast
    ensures (forall time: nat | time < NextSync(asked, s.interval) :: !Enters(s, time)) <==>
            asked < GridBelow(s.next, s.interval)
  {
    FilterIsExact(asked, s.next, s.interval);
    if s.next < NextSync(asked, s.interval) {
      assert Enters(s, s.next);
    }
  }

  // ---- The server does not look at the bookkeeping of arrivals

  /** The same server tables; only the record of arrivals may differ. */
  ghost predicate Same(s: State, r: State) {
    r == s.(arrival := r.arrival, zeroed := r.zeroed) && |r.arrival| == |s.arrival| && |r.zeroed| == |s.zeroed|
  }

  lemma {:induction false} DoReleaseSame(s: State, r: State, n: int)
    requires Shape(s) && Shape(r) && Same(s, r)
    ensures Same(DoRelease(s, n), DoRelease(r, n))
    decreases |s.toRelease|
  {
    if s.toRelease != [] && n != 0 {
      DoReleaseSame(Pop(s), Pop(r), n - 1);
    }
  }

  lemma ReleaseThreadSame(s: State, r: State, t: int)
    requires Shape(s) && Shape(r) && Same(s, r)
    ensures Same(ReleaseThread(s, t), ReleaseThread(r, t))
  {
    assert ZeroClocks(s, t).clock == ZeroClocks(r, t).clock;
    DoReleaseSame(ZeroClocks(s, t), ZeroClocks(r, t), 1);
  }

  lemma {:induction false} RunHookSame(s: State, r: State, actions: seq<HookAction>)
    requires Shape(s) && Shape(r) && Same(s, r)
    ensures Same(RunHook(s, actions), RunHook(r, actions))
    decreases |actions|
  {
    if actions != [] {
      if actions[0].Migrate? {
        ReleaseThreadSame(s, r, actions[0].thread);
      }
      RunHookSame(HookStep(s, actions[0]), HookStep(r, actions[0]), actions[1..]);
    }
  }

  lemma AdvanceSame(s: State, r: State, actions: seq<HookAction>)
    requires Shape(s) && Shape(r) && Same(s, r)
    ensures Same(Advance(s, actions), Advance(r, actions))
  {
    RunHookSame(s.(global := s.next), r.(global := r.next), actions);
  }

  lemma DueSame(s: State, r: State)
    requires Shape(s) && Shape(r) && Same(s, r)
    ensures AnyDue(s) == AnyDue(r) && forall caller :: CallerDue(s, caller) == CallerDue(r, caller)
  {
    assert forall c | 0 <= c < |s.clock| :: Due(s, c) == Due(r, c);
  }

  lemma {:induction false} AdvanceUntilDueSame(s: State, r: State, hook: nat -> seq<HookAction>, i: nat)
    requires Shape(s) && Shape(r) && Same(s, r) && AnyHeld(s) && AnyHeld(r)
    ensures Same(AdvanceUntilDue(s, hook, i), AdvanceUntilDue(r, hook, i))
    decreases Distance(s)
  {
    AdvanceSame(s, r, hook(i));
    DueSame(Advance(s, hook(i)), Advance(r, hook(i)));
    if !AnyDue(Advance(s, hook(i))) {
      AdvanceCloser(s, hook(i));
      AdvanceCloser(r, hook(i));
      AdvanceUntilDueSame(Advance(s, hook(i)), Advance(r, hook(i)), hook, i + 1);
    }
  }

  lemma {:induction false} PassSame(s: State, r: State, caller: int, c: nat)
    requires Shape(s) && Shape(r) && Same(s, r) && c <= |s.clock|
    ensures Same(PassFrom(s, caller, c), PassFrom(r, caller, c))
    decreases |s.clock| - c
  {
    if c < |s.clock| {
      PassSame(PassOne(s, caller, c), PassOne(r, caller, c), caller, c + 1);
    }
  }

  lemma ReleaseSame(s: State, r: State, caller: int, env: Env)
    requires Shape(s) && Shape(r) && Same(s, r) && AnyHeld(s) && AnyHeld(r)
    ensures var (s', wait) := BarrierRelease(s, caller, env);
            var (r', wait') := BarrierRelease(r, caller, env);
            Same(s', r') && wait == wait'
  {
    AdvanceUntilDueSame(SkipAhead(s), SkipAhead(r), env.hook, 0);
    var a, b := AdvanceUntilDue(SkipAhead(s), env.hook, 0), AdvanceUntilDue(SkipAhead(r), env.hook, 0);
    DueSame(a, b);
    PassSame(a, b, caller, 0);
    var p, q := PassFrom(a, caller, 0), PassFrom(b, caller, 0);
    ShuffledInRange(env, p.toRelease, |p.clock|);
    DoReleaseSame(p.(toRelease := Shuffled(env, p.toRelease)), q.(toRelease := Shuffled(env, q.toRelease)),
                  if p.fast then -1 else env.hostCores);
  }

  lemma ReachedSame(s: State, r: State, active: set<nat>)
    requires Shape(s) && Shape(r) && Same(s, r)
    ensures Reached(s, active) == Reached(r, active)
  {
    assert forall c | 0 <= c < |s.clock| :: CoreRunning(s, active, c) == CoreRunning(r, active, c);
    assert forall c | 0 <= c < |s.clock| :: Passes(s, active, c) == Passes(r, active, c);
    assert forall c | 0 <= c < |s.clock| :: AtBarrier(s, active, c) == AtBarrier(r, active, c);
  }

  lemma SettledSame(p: (State, bool), q: (State, bool), m: nat)
    requires Same(p.0, q.0) && p.1 == q.1
    ensures Same(Settled(p, m), Settled(q, m)) && Same(Wait(p.0, m), Wait(q.0, m))
  {
  }

  lemma RendezvousSame(s: State, r: State, m: nat, t: int, env: Env)
    requires Shape(s) && Shape(r) && Same(s, r) && AnyHeld(s) && AnyHeld(r)
    ensures Same(Rendezvous(s, m, t, env), Rendezvous(r, m, t, env))
  {
    ReachedSame(s, r, env.active);
    if Reached(s, env.active) {
      ReleaseSame(s, r, t, env);
      SettledSame(BarrierRelease(s, t, env), BarrierRelease(r, t, env), m);
    } else {
      SettledSame((s, true), (r, true), m);
    }
  }

  lemma EnterSame(s: State, r: State, m: nat, time: nat, t: int)
    requires Shape(s) && Shape(r) && Same(s, r) && m < |s.clock|
    ensures Same(Enter(s, m, time, t), Enter(r, m, time, t))
  {
    DoReleaseSame(s, r, 1);
    DoReleaseEffect(s, 1);
    DoReleaseEffect(r, 1);
  }

  lemma ApplySame(s: State, r: State, e: Event, env: Env)
    requires Shape(s) && Shape(r) && Same(s, r) && InRange(s, e)
    ensures InRange(r, e) && Same(Apply(s, e, env), Apply(r, e, env))
  {
    match e
    case Call(c, time, t) =>
      var m := MasterOf(s, c);
      if Enters(s, time) {
        EnterSame(s, r, m, time, t);
        RendezvousSame(Enter(s, m, time, t), Enter(r, m, time, t), m, t, env);
      }
    case Stop(t) =>
      ReleaseThreadSame(s, r, t);
      var s', r' := ReleaseThread(s, t), ReleaseThread(r, t);
      ReachedSame(s', r', env.active);
      if Reached(s', env.active) && AnyHeld(s') {
        ReleaseSame(s', r', NONE, env);
      }
    case MigrateThread(t) => ReleaseThreadSame(s, r, t);
    case SetGroup(_, _) =>
    case SwitchMode(_, _) =>
  }
}
