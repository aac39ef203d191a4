/** Runs from the start in which a client skips a call that the server would not have let through. */
module FilterRuns {
  import opened Barrier
  import opened BarrierProofs
  import opened BarrierClient
  import opened BarrierFilter
  import opened BarrierRuns

  lemma FilteredSnoc(ks: seq<Clients>, xs: seq<Input>, envs: seq<Env>, x: Input, env: Env, k': Clients)
    requires FilteredRun(ks, xs, envs) && FilteredTakes(ks[|xs|], x, env, k')
    ensures FilteredRun(ks + [k'], xs + [x], envs + [env])
  {
  }

  /** A run ends with a call that is missed. */
  lemma MissedAtLast(ks: seq<Clients>, xs: seq<Input>, envs: seq<Env>, x: Input, env: Env)
    returns (ks': seq<Clients>, xs': seq<Input>, envs': seq<Env>)
    requires FilteredRun(ks, xs, envs) && x.Attempt?
    requires var k := ks[|xs|]; Fits(k, x) && Skips(k, x) && Enters(k.server, x.time)
    ensures FilteredRun(ks', xs', envs') && ks'[0] == ks[0] && Misses(ks', xs', |xs|)
  {
    var k := ks[|xs|];
    assert FilteredTakes(k, x, env, k);
    ks', xs', envs' := ks + [k], xs + [x], envs + [env];
  }

  lemma ThreeSteps(k0: Clients, k1: Clients, k2: Clients, k3: Clients, x0: Input, x1: Input, x2: Input,
                   e0: Env, e1: Env, e2: Env)
    returns (ks: seq<Clients>, xs: seq<Input>, envs: seq<Env>)
    requires FilteredTakes(k0, x0, e0, k1) && FilteredTakes(k1, x1, e1, k2) && FilteredTakes(k2, x2, e2, k3)
    ensures FilteredRun(ks, xs, envs) && |xs| == 3 && ks[0] == k0 && ks[3] == k3
  {
    ks, xs, envs := [k0], [], [];
    FilteredSnoc(ks, xs, envs, x0, e0, k1);
    ks, xs, envs := ks + [k1], xs + [x0], envs + [e0];
    FilteredSnoc(ks, xs, envs, x1, e1, k2);
    ks, xs, envs := ks + [k2], xs + [x1], envs + [e1];
    FilteredSnoc(ks, xs, envs, x2, e2, k3);
    ks, xs, envs := ks + [k3], xs + [x2], envs + [e2];
  }

  lemma MissedAfterFour(k0: Clients, k1: Clients, k2: Clients, k3: Clients, k4: Clients,
                        x0: Input, x1: Input, x2: Input, x3: Input, x4: Input, e0: Env, e1: Env, e2: Env)
    returns (ks: seq<Clients>, xs: seq<Input>, envs: seq<Env>)
    requires FilteredTakes(k0, x0, e0, k1) && FilteredTakes(k1, x1, e1, k2) && FilteredTakes(k2, x2, e2, k3)
    requires FilteredTakes(k3, x3, e0, k4) && x4.Attempt? && Fits(k4, x4) && Skips(k4, x4) && Enters(k4.server, x4.time)
    ensures FilteredRun(ks, xs, envs) && ks[0] == k0 && Misses(ks, xs, 4)
  {
    ks, xs, envs := ThreeSteps(k0, k1, k2, k3, x0, x1, x2, e0, e1, e2);
    FilteredSnoc(ks, xs, envs, x3, e0, k4);
    ks, xs, envs := ks + [k4], xs + [x3], envs + [e0];
    ks, xs, envs := MissedAtLast(ks, xs, envs, x4, e0);
  }

  /** A call that the client does not skip. */
  lemma AskTakes(k: Clients, x: Input, env: Env, s': State, k': Clients)
    requires x.Attempt? && Fits(k, x) && !Skips(k, x) && Takes(k.server, Call(x.core, x.time, x.thread), env, s')
    requires |s'.clock| == |k.server.clock| && Shape(s')
    requires k' == k.(server := s', open := NotedAll(k.server, s', k.open) + [Opened(k.server, s', x)])
    ensures FilteredTakes(k, x, env, k')
  {
  }

  // ---- The barrier time raised off its grid

  const ONE_START: State := State(10, 10, 0, false, [0], [false], [NONE], [NONE], [], {}, [], 0, [0], [false])
  const RAISED: State := ONE_START.(next := 13)
  const PASSED: State := RAISED.(arrival := [12])

  const ONE_CLIENT: Clients := Clients(ONE_START, [0], [false], [])
  const RAISED_CLIENT: Clients := Clients(RAISED, [0], [false], [])
  const ASKED_CLIENT: Clients := Clients(PASSED, [0], [false], [Open(0, 12, 0, 0, false)])
  const BACK_CLIENT: Clients := Clients(PASSED, [12], [false], [])

  lemma RaiseTakes(env: Env)
    ensures FilteredTakes(ONE_CLIENT, Other(SwitchMode(false, 13)), env, RAISED_CLIENT)
  {
  }

  lemma PassTakes(env: Env)
    ensures FilteredTakes(RAISED_CLIENT, Attempt(0, 12, 0, false), env, ASKED_CLIENT)
  {
    assert NextSync(0, 10) == 10;
  }

  lemma BackTakes(env: Env)
    ensures FilteredTakes(ASKED_CLIENT, Return(0), env, BACK_CLIENT)
  {
  }

  lemma BackSkips()
    ensures var x := Attempt(0, 15, 0, false);
            Fits(BACK_CLIENT, x) && Skips(BACK_CLIENT, x) && Enters(BACK_CLIENT.server, x.time)
  {
    assert NextSync(12, 10) == 20;
  }

  /**
   * After the barrier time is set to 13, the core asks at 12, is let through and returns, and then skips a call at 15.
   */
  lemma RaisedBarrierIsMissed(env: Env) returns (ks: seq<Clients>, xs: seq<Input>, envs: seq<Env>)
    ensures FilteredRun(ks, xs, envs) && ks[0] == StartClients(1, 10) && Misses(ks, xs, 3)
  {
    assert ONE_CLIENT == StartClients(1, 10);
    RaiseTakes(env);
    PassTakes(env);
    BackTakes(env);
    BackSkips();
    ks, xs, envs := ThreeSteps(ONE_CLIENT, RAISED_CLIENT, ASKED_CLIENT, BACK_CLIENT,
                               Other(SwitchMode(false, 13)), Attempt(0, 12, 0, false), Return(0), env, env, env);
    ks, xs, envs := MissedAtLast(ks, xs, envs, Attempt(0, 15, 0, false), env);
  }

  // ---- The clock of a waiting core cleared

  const TWO_START: State :=
    State(10, 10, 0, false, [0, 0], [false, false], [NONE, NONE], [NONE, NONE], [], {}, [], 0, [0, 0], [false, false])
  const AHEAD: State :=
    TWO_START.(clock := [35, 0], held := [true, false], thread := [0, NONE], blocked := {0}, waits := 1,
               arrival := [35, 0])
  const CLEARED: State := AHEAD.(clock := [0, 0], zeroed := [true, false])
  const BOTH_IN: State := CLEARED.(clock := [0, 10], held := [true, true], thread := [0, 1], arrival := [35, 10])
  const BOTH_PASSED: State := BOTH_IN.(global := 10, next := 20, held := [false, false], toRelease := [0])
  const LET_GO: State :=
    State(10, 20, 10, false, [0, 10], [false, false], [0, 1], [NONE, NONE], [], {}, [0], 1, [35, 10], [true, false])

  const ZEROES: seq<nat> := [0, 0]
  const TWO_CLIENTS: Clients := Clients(TWO_START, ZEROES, [false, false], [])
  const ONE_AHEAD: Clients := Clients(AHEAD, ZEROES, [false, false], [Open(0, 35, 0, 0, false)])
  const ONE_CLEARED: Clients := Clients(CLEARED, ZEROES, [false, false], [Open(0, 35, 0, 0, true)])
  const ONE_LET_GO: Clients :=
    Clients(LET_GO, ZEROES, [false, false], [Open(0, 35, 0, 0, true), Open(1, 10, 1, 1, false)])
  const ONE_BACK: Clients := Clients(LET_GO, [35, 0], [true, false], [Open(1, 10, 1, 1, false)])

  lemma TwoStart()
    ensures TWO_CLIENTS == StartClients(2, 10)
  {
  }

  lemma AheadWaits()
    ensures Takes(TWO_START, Call(0, 35, 0), Plain({0, 1}), AHEAD)
  {
    WaitsIn(TWO_START, 0, 35, 0, Plain({0, 1}), 1, AHEAD);
  }

  lemma AheadTakes()
    ensures FilteredTakes(TWO_CLIENTS, Attempt(0, 35, 0, false), Plain({0, 1}), ONE_AHEAD)
  {
    AheadWaits();
    assert NextSync(0, 10) == 10;
    AskTakes(TWO_CLIENTS, Attempt(0, 35, 0, false), Plain({0, 1}), AHEAD, ONE_AHEAD);
  }

  lemma StopClears()
    ensures Takes(AHEAD, Stop(0), Plain({1}), CLEARED)
  {
    assert ReleaseThread(AHEAD, 0) == CLEARED;
    assert !Passes(CLEARED, {1}, 1);
  }

  lemma StopTakes()
    ensures FilteredTakes(ONE_AHEAD, Other(Stop(0)), Plain({1}), ONE_CLEARED)
  {
    StopClears();
    assert NotedAll(AHEAD, CLEARED, ONE_AHEAD.open) == ONE_CLEARED.open;
  }

  lemma PassTwo()
    ensures var a := BOTH_IN.(global := 10, next := 20); Shape(a) && PassFrom(a, 1, 0) == BOTH_PASSED
  {
    var a := BOTH_IN.(global := 10, next := 20);
    var p1 := a.(held := [false, true], toRelease := [0]);
    assert PassOne(a, 1, 0) == p1 && PassOne(p1, 1, 1) == BOTH_PASSED;
    assert PassFrom(BOTH_PASSED, 1, 2) == BOTH_PASSED;
    assert PassFrom(p1, 1, 1) == BOTH_PASSED;
  }

  lemma WokenAlone()
    ensures Shape(BOTH_PASSED) && DoRelease(BOTH_PASSED, 1) == LET_GO
  {
    assert Pop(BOTH_PASSED) == LET_GO;
  }

  lemma BothReleased()
    ensures Shape(BOTH_IN) && AnyHeld(BOTH_IN) && BarrierRelease(BOTH_IN, 1, Plain({1})) == (LET_GO, false)
  {
    var a := BOTH_IN.(global := 10, next := 20);
    assert Advance(BOTH_IN, Plain({1}).hook(0)) == a;
    assert Due(a, 1) && a.thread[1] == 1;
    ReleaseAtOnce(BOTH_IN, 1, Plain({1}), a, 1);
    PassTwo();
    WokenAlone();
  }

  lemma BothReached()
    ensures Shape(BOTH_IN) && Enter(CLEARED, 1, 10, 1) == BOTH_IN && Reached(BOTH_IN, {1})
  {
    assert AtBarrier(BOTH_IN, {1}, 1);
  }

  lemma OtherReleases()
    ensures Takes(CLEARED, Call(1, 10, 1), Plain({1}), LET_GO)
  {
    BothReached();
    BothReleased();
  }

  lemma LetGoTakes()
    ensures FilteredTakes(ONE_CLEARED, Attempt(1, 10, 1, false), Plain({1}), ONE_LET_GO)
  {
    OtherReleases();
    assert NextSync(0, 10) == 10;
    assert NotedAll(CLEARED, LET_GO, ONE_CLEARED.open) == ONE_CLEARED.open;
    AskTakes(ONE_CLEARED, Attempt(1, 10, 1, false), Plain({1}), LET_GO, ONE_LET_GO);
  }

  lemma ReturnTakes(env: Env)
    ensures FilteredTakes(ONE_LET_GO, Return(0), env, ONE_BACK)
  {
  }

  lemma LetGoSkips()
    ensures var x := Attempt(0, 36, 0, false);
            Fits(ONE_BACK, x) && Skips(ONE_BACK, x)
            && Enters(ONE_BACK.server, x.time)
  {
    assert NextSync(35, 10) == 40;
  }

  /**
   * Core 0 arrives at 35 and its thread stops while it waits. Core 1 alone then releases the barrier of time 10, which
   * lets core 0 go; its client, back from the call at 35, skips a call at 36 although the next barrier is at 20.
   */
  lemma ClearedCoreIsMissed() returns (ks: seq<Clients>, xs: seq<Input>, envs: seq<Env>)
    ensures FilteredRun(ks, xs, envs) && ks[0] == StartClients(2, 10) && Misses(ks, xs, 4)
  {
    TwoStart();
    AheadTakes();
    StopTakes();
    LetGoTakes();
    ReturnTakes(Plain({0, 1}));
    LetGoSkips();
    ks, xs, envs := MissedAfterFour(TWO_CLIENTS, ONE_AHEAD, ONE_CLEARED, ONE_LET_GO, ONE_BACK,
                                    Attempt(0, 35, 0, false), Other(Stop(0)), Attempt(1, 10, 1, false), Return(0),
                                    Attempt(0, 36, 0, false), Plain({0, 1}), Plain({1}), Plain({1}));
  }
}
