/** Sharing the set lock: which mutex stands for which core, and who can hold shared access together. */
module SetLockSharing {
  import opened SetLock

  /** The mutex of a core. */
  function MutexOf(c: Config, core: nat): nat
    requires InRange(c, core)
  {
    core - c.coreOffset
  }

  /** The thread has this mutex and no other. */
  ghost predicate HasOnly(s: State, t: nat, k: nat) {
    k < |s.locks| && forall i | 0 <= i < |s.locks| :: s.locks[i] == LockedBy(t) <==> i == k
  }

  /** Not exclusive nor on the way to or from it, and neither shared nor upgrading with mutex k. */
  predicate LeavesAlone(pc: Pc, k: nat) {
    pc.Idle? || pc.AcquiringShared? || ((pc.Shared? || pc.Upgrading?) && pc.own != k)
  }

  /** The thread is exclusive, has come past mutex k on the way to it, or not yet on the way from it. */
  predicate ExclusiveOver(pc: Pc, k: nat) {
    match pc
    case Exclusive => true
    case AcquiringExclusive(i) => k < i
    case ReleasingExclusive(i) => i <= k
    case Downgrading(own, i) => i <= k || k == own
    case _ => false
  }

  /**
   * A shared acquire goes through exactly if nobody is exclusive over the mutex of its core and no other thread holds
   * shared access for that core. The thread then has that mutex and no other.
   */
  lemma SharesExactlyWhen(c: Config, s: State, t: nat, core: nat)
    requires Inv(c, s) && Enabled(c, s, t, AcquireShared(core))
    ensures var s1, k := Step(c, s, t, AcquireShared(core)), MutexOf(c, core);
            && s1.locks == s.locks
            && (Enabled(c, s1, t, Proceed) <==>
                  forall u | 0 <= u < |s.pcs| ::
                    !ExclusiveOver(s.pcs[u], k) && !((s.pcs[u].Shared? || s.pcs[u].Upgrading?) && s.pcs[u].own == k))
            && (Enabled(c, s1, t, Proceed) ==>
                  var s2 := Step(c, s1, t, Proceed); s2.pcs == s.pcs[t := Shared(k)] && HasOnly(s2, t, k))
  {
    var s1, k := Step(c, s, t, AcquireShared(core)), MutexOf(c, core);
    StepKeepsInv(c, s, t, AcquireShared(core));
    assert forall u | 0 <= u < |s.pcs| :: s.locks[k] == LockedBy(u) <==> Owns(c, s.pcs[u], k);
    if Enabled(c, s1, t, Proceed) {
      StepKeepsInv(c, s1, t, Proceed);
      var s2 := Step(c, s1, t, Proceed);
      assert s1.pcs[t := Shared(k)] == s.pcs[t := Shared(k)];
      assert forall i | 0 <= i < |s2.locks| :: s2.locks[i] == LockedBy(t) <==> Owns(c, s2.pcs[t], i);
    }
  }

  lemma SharesBesideOthers(c: Config, s: State, t: nat, core: nat)
    requires Inv(c, s) && Enabled(c, s, t, AcquireShared(core))
    requires forall u | 0 <= u < |s.pcs| :: LeavesAlone(s.pcs[u], MutexOf(c, core))
    ensures Enabled(c, Step(c, s, t, AcquireShared(core)), t, Proceed)
  {
    SharesExactlyWhen(c, s, t, core);
  }

  // ---- Everybody shares

  /** Threads from n on ask for shared access one after the other, thread t for the core cores[t]. */
  function AskFrom(cores: seq<nat>, n: nat): seq<(nat, Move)>
    requires n <= |cores|
    decreases |cores| - n
  {
    if n == |cores| then [] else [(n, AcquireShared(cores[n])), (n, Proceed)] + AskFrom(cores, n + 1)
  }

  ghost predicate Cores(c: Config, cores: seq<nat>) {
    && (forall t | 0 <= t < |cores| :: InRange(c, cores[t]))
    && forall t, u | 0 <= t < u < |cores| :: cores[t] != cores[u]
  }

  /** The first n threads have shared access, each for its core, and the others are idle. */
  ghost predicate SharedBelow(c: Config, s: State, cores: seq<nat>, n: nat)
    requires Cores(c, cores) && n <= |cores|
  {
    && |cores| <= |s.pcs|
    && (forall t | 0 <= t < n :: s.pcs[t] == Shared(MutexOf(c, cores[t])))
    && (forall t | n <= t < |s.pcs| :: s.pcs[t].Idle?)
  }

  lemma ShareOne(c: Config, s: State, t: nat, core: nat, rest: seq<(nat, Move)>) returns (r: State)
    requires Inv(c, s) && Enabled(c, s, t, AcquireShared(core))
    requires forall u | 0 <= u < |s.pcs| :: LeavesAlone(s.pcs[u], MutexOf(c, core))
    ensures Inv(c, r) && r.pcs == s.pcs[t := Shared(MutexOf(c, core))]
    ensures Run(c, s, [(t, AcquireShared(core)), (t, Proceed)] + rest) == Run(c, r, rest)
  {
    SharesBesideOthers(c, s, t, core);
    SharesExactlyWhen(c, s, t, core);
    var s1 := Step(c, s, t, AcquireShared(core));
    r := Step(c, s1, t, Proceed);
    StepKeepsInv(c, s, t, AcquireShared(core));
    StepKeepsInv(c, s1, t, Proceed);
    RunTwo(c, s, (t, AcquireShared(core)), (t, Proceed), rest);
  }

  lemma OthersLeaveAlone(c: Config, s: State, cores: seq<nat>, n: nat)
    requires Cores(c, cores) && n < |cores| && SharedBelow(c, s, cores, n)
    ensures forall u | 0 <= u < |s.pcs| :: LeavesAlone(s.pcs[u], MutexOf(c, cores[n]))
  {
    forall u | 0 <= u < |s.pcs|
      ensures LeavesAlone(s.pcs[u], MutexOf(c, cores[n]))
    {
      if u < n { assert cores[u] != cores[n]; }
    }
  }

  lemma SharedNext(c: Config, s: State, r: State, cores: seq<nat>, n: nat)
    requires Cores(c, cores) && n < |cores| && SharedBelow(c, s, cores, n)
    requires r.pcs == s.pcs[n := Shared(MutexOf(c, cores[n]))]
    ensures SharedBelow(c, r, cores, n + 1)
  {
  }

  lemma {:induction false} OneMoreShares(c: Config, s: State, cores: seq<nat>, n: nat)
    requires Cores(c, cores) && n <= |cores| && Inv(c, s) && SharedBelow(c, s, cores, n)
    ensures var r := Run(c, s, AskFrom(cores, n)); SharedBelow(c, r, cores, |cores|) && Inv(c, r)
    decreases |cores| - n
  {
    if n < |cores| {
      OthersLeaveAlone(c, s, cores, n);
      var r := ShareOne(c, s, n, cores[n], AskFrom(cores, n + 1));
      SharedNext(c, s, r, cores, n);
      OneMoreShares(c, r, cores, n + 1);
    }
  }

  /** Threads that name different cores can all hold shared access at once, each with the mutex of its core alone. */
  lemma AllCanShare(c: Config, threads: nat, cores: seq<nat>, t: nat)
    requires Cores(c, cores) && t < |cores| <= threads
    ensures var s := Run(c, Start(c, threads), AskFrom(cores, 0));
            && |s.pcs| == threads && s.pcs[t] == Shared(MutexOf(c, cores[t])) && HasOnly(s, t, MutexOf(c, cores[t]))
  {
    var s0 := Start(c, threads);
    StartInv(c, threads);
    OneMoreShares(c, s0, cores, 0);
    RunKeepsThreads(c, s0, AskFrom(cores, 0));
    var s := Run(c, s0, AskFrom(cores, 0));
    assert forall i | 0 <= i < |s.locks| :: s.locks[i] == LockedBy(t) <==> Owns(c, s.pcs[t], i);
  }

  // ---- A whole downgrade

  /** The mutexes below i are unlocked but for the own one, and those from i on are still the thread's. */
  ghost predicate DowngradedBelow(s: State, t: nat, own: nat, i: nat) {
    forall j | 0 <= j < |s.locks| :: s.locks[j] == if i <= j || j == own then LockedBy(t) else Unlocked
  }

  lemma {:induction false} DowngradesTheRest(c: Config, s: State, t: nat, own: nat, i: nat)
    requires |s.locks| == c.sharers && i <= c.sharers && own < c.sharers && t < |s.pcs|
    requires s.pcs[t] == DowngradeFrom(c, own, i) && DowngradedBelow(s, t, own, i)
    ensures var r := Run(c, s, Turns(t, c.sharers - i));
            |r.locks| == c.sharers && r.pcs == s.pcs[t := Shared(own)] && DowngradedBelow(r, t, own, c.sharers)
    decreases c.sharers - i
  {
    if i < c.sharers {
      var n := c.sharers - i;
      var s' := Step(c, s, t, Proceed);
      DowngradesTheRest(c, s', t, own, i + 1);
      assert Turns(t, n)[1..] == Turns(t, n - 1);
      assert Run(c, s, Turns(t, n)) == Run(c, s', Turns(t, n - 1));
    }
  }

  /** A downgrade that is not interrupted leaves the mutex of the core named to the thread, and unlocks all others. */
  lemma DowngradeKeepsItsMutex(c: Config, s: State, t: nat, core: nat)
    requires Inv(c, s) && Enabled(c, s, t, Downgrade(core))
    ensures var r, k := Run(c, s, [(t, Downgrade(core))] + Turns(t, c.sharers)), MutexOf(c, core);
            && |r.locks| == c.sharers && r.pcs == s.pcs[t := Shared(k)]
            && forall i | 0 <= i < |r.locks| :: r.locks[i] == if i == k then LockedBy(t) else Unlocked
  {
    var k, s1 := MutexOf(c, core), Step(c, s, t, Downgrade(core));
    assert forall i | 0 <= i < |s.locks| :: s.locks[i] == LockedBy(t) <==> Owns(c, s.pcs[t], i);
    DowngradesTheRest(c, s1, t, k, 0);
    assert ([(t, Downgrade(core))] + Turns(t, c.sharers))[1..] == Turns(t, c.sharers);
    assert s1.pcs[t := Shared(k)] == s.pcs[t := Shared(k)];
  }

  // ---- Under every interleaving

  /** Wherever a thread has a mutex of its own, it is mutex k. */
  predicate OwnIs(pc: Pc, k: nat) {
    pc.AcquiringShared? || pc.Shared? || pc.Upgrading? || pc.Downgrading? ==> pc.own == k
  }

  /** Thread t names no other core in the schedule. */
  predicate NamesOnly(schedule: seq<(nat, Move)>, t: nat, core: nat) {
    forall i | 0 <= i < |schedule| && schedule[i].0 == t ::
      match schedule[i].1
      case AcquireShared(other) => other == core
      case Downgrade(other) => other == core
      case _ => true
  }

  lemma StepKeepsOwn(c: Config, s: State, u: nat, m: Move, t: nat, core: nat)
    requires Enabled(c, s, u, m) && InRange(c, core) && t < |s.pcs| && OwnIs(s.pcs[t], MutexOf(c, core))
    requires NamesOnly([(u, m)], t, core)
    ensures OwnIs(Step(c, s, u, m).pcs[t], MutexOf(c, core))
  {
    assert [(u, m)][0] == (u, m);
  }

  lemma {:induction false} RunKeepsOwn(c: Config, s: State, schedule: seq<(nat, Move)>, t: nat, core: nat)
    requires InRange(c, core) && t < |s.pcs| && OwnIs(s.pcs[t], MutexOf(c, core)) && NamesOnly(schedule, t, core)
    ensures var r := Run(c, s, schedule); |r.pcs| == |s.pcs| && OwnIs(r.pcs[t], MutexOf(c, core))
    decreases |schedule|
  {
    if schedule != [] {
      var (u, m) := schedule[0];
      assert forall i | 0 <= i < |schedule[1..]| :: schedule[1..][i] == schedule[i + 1];
      if Enabled(c, s, u, m) {
        assert NamesOnly([(u, m)], t, core);
        StepKeepsOwn(c, s, u, m, t, core);
        RunKeepsOwn(c, Step(c, s, u, m), schedule[1..], t, core);
      } else {
        RunKeepsOwn(c, s, schedule[1..], t, core);
      }
    }
  }

  /**
   * Under every interleaving a thread that names one core only, in shared acquires and in downgrades, has the mutex of
   * that core and no other whenever it holds shared access.
   */
  lemma SharedHolderHasItsCore(c: Config, threads: nat, schedule: seq<(nat, Move)>, t: nat, core: nat)
    requires t < threads && InRange(c, core) && NamesOnly(schedule, t, core)
    ensures var s := Run(c, Start(c, threads), schedule);
            |s.pcs| == threads && (s.pcs[t].Shared? ==> HasOnly(s, t, MutexOf(c, core)))
  {
    StartInv(c, threads);
    RunKeepsInv(c, Start(c, threads), schedule);
    RunKeepsOwn(c, Start(c, threads), schedule, t, core);
    var s := Run(c, Start(c, threads), schedule);
    assert forall i | 0 <= i < |s.locks| :: s.locks[i] == LockedBy(t) <==> Owns(c, s.pcs[t], i);
  }
}
