/**
 * Detailed-mode runs whose barrier time is raised to multiples of the interval at most: there the filter is safe but
 * for cleared clocks.
 */
module BarrierDetailed {
  import opened Barrier
  import opened BarrierProofs
  import opened BarrierClient
  import opened BarrierFilter

  function Times(k: nat, interval: nat): nat { k * interval }

  /** Barrier times are whole multiples of the interval. */
  ghost predicate OnGrid(next: nat, interval: nat) {
    exists k: nat :: next == Times(k, interval)
  }

  lemma GridStep(next: nat, interval: nat)
    requires OnGrid(next, interval)
    ensures OnGrid(next + interval, interval)
  {
    var k: nat :| next == Times(k, interval);
    assert next + interval == Times(k + 1, interval);
  }

  lemma GridBelowSelf(next: nat, interval: nat)
    requires interval > 0 && OnGrid(next, interval)
    ensures GridBelow(next, interval) == next
  {
    var k: nat :| next == Times(k, interval);
    var q := next / interval;
    assert next == q * interval + next % interval;
    if q < k {
      TimesMonotone(q + 1, k, interval);
    } else {
      TimesMonotone(k, q, interval);
    }
  }

  /** A client that asked at a grid point or later does not ask again before it. */
  lemma AskedAhead(asked: nat, next: nat, interval: nat)
    requires interval > 0 && OnGrid(next, interval) && next <= asked
    ensures next < NextSync(asked, interval)
  {
    GridBelowSelf(next, interval);
    FilterIsExact(asked, next, interval);
  }

  lemma GridMax(a: nat, b: nat, interval: nat)
    requires OnGrid(a, interval) && OnGrid(b, interval)
    ensures OnGrid(Max(a, b), interval)
  {
  }

  /** The hook migrates threads, and raises the barrier time to multiples of the interval at most. */
  ghost predicate StaysOnGrid(actions: seq<HookAction>, interval: nat) {
    forall i | 0 <= i < |actions| :: actions[i].Migrate? || (!actions[i].fast && OnGrid(actions[i].time, interval))
  }

  ghost predicate Quiet(env: Env, interval: nat) {
    forall i :: StaysOnGrid(env.hook(i), interval)
  }

  /** Detailed mode, the barrier time on its grid; cores may be grouped. */
  ghost predicate Detailed(s: State) {
    Shape(s) && !s.fast && OnGrid(s.next, s.interval)
  }

  /** Anything but a switch of the mode or a raise of the barrier time off its grid. */
  ghost predicate QuietEvent(e: Event, interval: nat) {
    e.SwitchMode? ==> !e.fast && OnGrid(e.time, interval)
  }

  ghost predicate QuietInput(x: Input, interval: nat) {
    x.Other? ==> QuietEvent(x.event, interval)
  }

  lemma {:induction false} HookStaysDetailed(s: State, actions: seq<HookAction>)
    requires Detailed(s) && StaysOnGrid(actions, s.interval)
    ensures var r := RunHook(s, actions); Detailed(r) && r.interval == s.interval
    decreases |actions|
  {
    if actions != [] {
      if actions[0].Migrate? {
        DoReleaseEffect(ZeroClocks(s, actions[0].thread), 1);
      } else {
        GridMax(s.next, actions[0].time, s.interval);
      }
      HookStaysDetailed(HookStep(s, actions[0]), actions[1..]);
    }
  }

  lemma AdvanceStaysDetailed(s: State, actions: seq<HookAction>)
    requires Detailed(s) && StaysOnGrid(actions, s.interval)
    ensures var r := Advance(s, actions); Detailed(r) && r.interval == s.interval
  {
    HookStaysDetailed(s.(global := s.next), actions);
    GridStep(RunHook(s.(global := s.next), actions).next, s.interval);
  }

  lemma {:induction false} AdvanceUntilDueStaysDetailed(s: State, env: Env, i: nat)
    requires Detailed(s) && AnyHeld(s) && Quiet(env, s.interval)
    ensures var r := AdvanceUntilDue(s, env.hook, i); Detailed(r) && r.interval == s.interval
    decreases Distance(s)
  {
    AdvanceStaysDetailed(s, env.hook(i));
    if !AnyDue(Advance(s, env.hook(i))) {
      AdvanceCloser(s, env.hook(i));
      AdvanceUntilDueStaysDetailed(Advance(s, env.hook(i)), env, i + 1);
    }
  }

  lemma ReleaseStaysDetailed(s: State, caller: int, env: Env)
    requires Detailed(s) && AnyHeld(s) && Quiet(env, s.interval)
    ensures var r := BarrierRelease(s, caller, env).0; Detailed(r) && r.interval == s.interval
  {
    AdvanceUntilDueStaysDetailed(s, env, 0);
    var a := AdvanceUntilDue(s, env.hook, 0);
    PassEffect(a, caller, 0);
    var p := PassFrom(a, caller, 0);
    ShuffledInRange(env, p.toRelease, |p.clock|);
    var q := p.(toRelease := Shuffled(env, p.toRelease));
    DoReleaseEffect(q, if q.fast then -1 else env.hostCores);
  }

  lemma CallStaysDetailed(s: State, c: nat, time: nat, t: int, env: Env)
    requires Detailed(s) && c < |s.clock| && Quiet(env, s.interval)
    ensures var r := Synchronize(s, c, time, t, env); Detailed(r) && r.interval == s.interval
  {
    if Enters(s, time) {
      DoReleaseEffect(s, 1);
      var s1 := Enter(s, MasterOf(s, c), time, t);
      if Reached(s1, env.active) {
        ReleaseStaysDetailed(s1, t, env);
      }
    }
  }

  lemma StopStaysDetailed(s: State, t: int, env: Env)
    requires Detailed(s) && Quiet(env, s.interval)
    ensures var r := ReleaseThread(s, t); Detailed(r) && r.interval == s.interval
    ensures var r := Signal(ReleaseThread(s, t), env); Detailed(r) && r.interval == s.interval
  {
    DoReleaseEffect(ZeroClocks(s, t), 1);
    var s1 := ReleaseThread(s, t);
    if Reached(s1, env.active) && AnyHeld(s1) {
      ReleaseStaysDetailed(s1, NONE, env);
    }
  }

  lemma ApplyStaysDetailed(s: State, e: Event, env: Env)
    requires Detailed(s) && InRange(s, e) && QuietEvent(e, s.interval) && Quiet(env, s.interval)
    ensures var r := Apply(s, e, env); Detailed(r) && r.interval == s.interval
  {
    match e
    case Call(c, time, t) => CallStaysDetailed(s, c, time, t, env);
    case Stop(t) => StopStaysDetailed(s, t, env);
    case MigrateThread(t) => StopStaysDetailed(s, t, env);
    case SetGroup(_, _) =>
    case SwitchMode(_, time) => GridMax(s.next, time, s.interval);
  }

  lemma StepStaysDetailed(k: Clients, x: Input, env: Env, k': Clients)
    requires Detailed(k.server) && FilteredTakes(k, x, env, k')
    requires QuietInput(x, k.server.interval) && Quiet(env, k.server.interval)
    ensures Detailed(k'.server) && k'.server.interval == k.server.interval
  {
    if !Skips(k, x) {
      match x
      case Attempt(c, time, t, _) => ApplyStaysDetailed(k.server, Call(c, time, t), env);
      case Return(_) =>
      case Other(e) => ApplyStaysDetailed(k.server, e, env);
    }
  }

  ghost predicate QuietRun(xs: seq<Input>, envs: seq<Env>, interval: nat) {
    |envs| == |xs| && forall i | 0 <= i < |xs| :: QuietInput(xs[i], interval) && Quiet(envs[i], interval)
  }

  lemma {:induction false} RunStaysDetailed(ncores: nat, interval: nat, ks: seq<Clients>, xs: seq<Input>,
                                            envs: seq<Env>, n: nat)
    requires interval > 0 && FilteredRun(ks, xs, envs) && QuietRun(xs, envs, interval)
    requires ks[0] == StartClients(ncores, interval) && n <= |xs|
    ensures Detailed(ks[n].server) && ks[n].server.interval == interval
  {
    if n == 0 {
      assert interval == Times(1, interval);
    } else {
      var i := n - 1;
      RunStaysDetailed(ncores, interval, ks, xs, envs, i);
      assert FilteredTakes(ks[i], xs[i], envs[i], ks[i + 1]);
      StepStaysDetailed(ks[i], xs[i], envs[i], ks[n]);
    }
  }

  /** A client that returned last from a call whose clock was not cleared misses nothing by skipping. */
  lemma UnclearedSkipIsSafe(k: Clients, x: Input)
    requires InOrder(k) && Detailed(k.server) && Fits(k, x) && Skips(k, x) && !k.cleared[x.core]
    ensures !Enters(k.server, x.time)
  {
    var s := k.server;
    GridBelowSelf(s.next, s.interval);
    FilterIsExact(k.asked[x.core], s.next, s.interval);
  }

  // ---- A cleared clock lets a core out of the barrier too early

  lemma ClearedCoreIsDue(s: State, c: nat, actions: seq<HookAction>)
    requires Shape(s) && c < |s.clock| && s.held[c] && s.clock[c] == 0
    ensures c < |Advance(s, actions).clock| && Due(Advance(s, actions), c)
  {
    AdvanceEffect(s, actions);
  }

  lemma ClearedCoreLeaves(s: State, c: nat, caller: int, env: Env)
    requires Detailed(s) && Quiet(env, s.interval) && c < |s.clock| && s.held[c] && s.clock[c] == 0
    ensures AnyHeld(s)
    ensures var r, a := BarrierRelease(s, caller, env).0, Advance(s, env.hook(0));
            && |r.clock| == |s.clock| && !r.held[c] && r.next == a.next && r.arrival == s.arrival
            && !r.fast && r.interval == s.interval
  {
    var a := Advance(s, env.hook(0));
    ClearedCoreIsDue(s, c, env.hook(0));
    AdvanceStaysDetailed(s, env.hook(0));
    AdvanceEffect(s, env.hook(0));
    assert AdvanceUntilDue(s, env.hook, 0) == a;
    PassEffect(a, caller, 0);
    var p := PassFrom(a, caller, 0);
    ShuffledInRange(env, p.toRelease, |p.clock|);
    var q := p.(toRelease := Shuffled(env, p.toRelease));
    DoReleaseEffect(q, if q.fast then -1 else env.hostCores);
  }

  lemma StoppedCoreLeaves(s: State, c: nat, t: int, env: Env)
    requires Detailed(s) && Quiet(env, s.interval) && Reached(ReleaseThread(s, t), env.active)
    requires c < |s.clock| && s.held[c] && s.thread[c] == t
    ensures var r, a := Apply(s, Stop(t), env), Advance(ReleaseThread(s, t), env.hook(0));
            && |r.clock| == |s.clock| && !r.held[c] && r.next == a.next && r.arrival == s.arrival
            && !r.fast && r.interval == s.interval
  {
    StopStaysDetailed(s, t, env);
    DoReleaseEffect(ZeroClocks(s, t), 1);
    var s1 := ReleaseThread(s, t);
    assert s1.held[c] && s1.clock[c] == 0;
    ClearedCoreLeaves(s1, c, NONE, env);
  }

  /**
   * A thread that stops while its core waits at or ahead of the barrier after the one that is reached: its core leaves
   * at this release, and a client that returns from that call skips calls that the server would have held back.
   */
  lemma ClearedCoreOverruns(s: State, c: nat, t: int, env: Env)
    requires Detailed(s) && Quiet(env, s.interval) && Reached(ReleaseThread(s, t), env.active)
    requires c < |s.clock| && s.held[c] && s.thread[c] == t
    requires Advance(ReleaseThread(s, t), env.hook(0)).next <= s.arrival[c]
    ensures var r := Apply(s, Stop(t), env);
            c < |r.clock| && !r.held[c] && r.next < NextSync(s.arrival[c], r.interval) && Enters(r, r.next)
  {
    StoppedCoreLeaves(s, c, t, env);
    ApplyStaysDetailed(s, Stop(t), env);
    var r := Apply(s, Stop(t), env);
    AskedAhead(s.arrival[c], r.next, r.interval);
  }

  // ---- Runs

  /** Input i of the run is a skipped call of a client that returned last from a call whose clock was cleared. */
  ghost predicate SkipsAfterClearing(ks: seq<Clients>, xs: seq<Input>, i: nat) {
    i < |xs| && i < |ks| && Fits(ks[i], xs[i]) && Skips(ks[i], xs[i]) && ks[i].cleared[xs[i].core]
  }

  /**
   * The filter refines always asking: in every detailed-mode run from the start, with any groups, in which the barrier
   * time is raised to multiples of the interval at most and no client skips a call after one whose clock was cleared,
   * the server goes through the same tables as if every call had been made.
   */
  lemma DetailedRunsCoincide(ncores: nat, interval: nat, ks: seq<Clients>, ss: seq<State>, xs: seq<Input>,
                             envs: seq<Env>)
    requires interval > 0 && FilteredRun(ks, xs, envs) && AskingRun(ss, xs, envs) && QuietRun(xs, envs, interval)
    requires ks[0] == StartClients(ncores, interval) && ss[0] == ks[0].server
    requires forall i: nat :: !SkipsAfterClearing(ks, xs, i)
    ensures forall i | 0 <= i < |ks| :: Same(ks[i].server, ss[i])
  {
    forall i: nat
      ensures !Misses(ks, xs, i)
    {
      if i < |xs| && Fits(ks[i], xs[i]) && Skips(ks[i], xs[i]) {
        RunStaysInOrder(ncores, interval, ks, xs, envs, i);
        RunStaysDetailed(ncores, interval, ks, xs, envs, i);
        assert !SkipsAfterClearing(ks, xs, i);
        UnclearedSkipIsSafe(ks[i], xs[i]);
      }
    }
    FilterRefinesExactlyWhen(ks, ss, xs, envs);
  }
}
