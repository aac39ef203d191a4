/** What the barrier server decides and whom it lets go, read off its tables. */
module BarrierOutcomes {
  import opened Barrier
  import opened BarrierProofs

  // ---- When the barrier is reached

  /** A thread runs on core m or, as its group's master, m answers for a sibling on which one runs. */
  ghost predicate AnswersFor(s: State, active: set<nat>, m: nat) {
    m in active || exists d :: 0 <= d < |s.group| && s.group[d] == m && d in active
  }

  /** Core m belongs to no other master and answers for a running thread. */
  ghost predicate RunningMaster(s: State, active: set<nat>, m: nat)
    requires Shape(s) && m < |s.clock|
  {
    s.group[m] == NONE && AnswersFor(s, active, m)
  }

  /**
   * In fast-forward mode some core is held in the barrier and no running core is not; in detailed mode some running
   * master has come up to the barrier time and none has not.
   */
  ghost predicate AllThere(s: State, active: set<nat>)
    requires Shape(s)
  {
    if s.fast then
      && (exists c: nat :: c < |s.clock| && s.held[c])
      && forall c: nat | c < |s.clock| && c in active :: s.held[c]
    else
      && (exists m: nat :: m < |s.clock| && RunningMaster(s, active, m) && s.clock[m] >= s.next)
      && forall m: nat | m < |s.clock| && RunningMaster(s, active, m) :: s.clock[m] >= s.next
  }

  lemma ReachedExactlyWhen(s: State, active: set<nat>)
    requires Shape(s)
    ensures Reached(s, active) <==> AllThere(s, active)
  {
    if s.fast {
      assert forall c: nat | c < |s.clock| :: Passes(s, active, c) == (s.held[c] || c !in active);
      assert forall c: nat | c < |s.clock| :: AtBarrier(s, active, c) == s.held[c];
    } else {
      assert forall c: nat | c < |s.clock| ::
          Passes(s, active, c) == !(RunningMaster(s, active, c) && s.clock[c] < s.next);
      assert forall c: nat | c < |s.clock| ::
          AtBarrier(s, active, c) == (RunningMaster(s, active, c) && s.clock[c] >= s.next);
    }
  }

  // ---- Wake-ups

  function Backwards(cores: seq<nat>): seq<nat> {
    if cores == [] then [] else [cores[|cores| - 1]] + Backwards(cores[..|cores| - 1])
  }

  lemma BackwardsSnoc(cores: seq<nat>, c: nat)
    ensures Backwards(cores + [c]) == [c] + Backwards(cores)
  {
    assert (cores + [c])[..|cores|] == cores;
  }

  lemma {:induction false} BackwardsMembers(cores: seq<nat>)
    ensures multiset(Backwards(cores)) == multiset(cores)
  {
    if cores != [] {
      BackwardsMembers(cores[..|cores| - 1]);
      assert cores == cores[..|cores| - 1] + [cores[|cores| - 1]];
    }
  }

  /** How many of a queue of that length stay when n are asked for; a negative n asks for all. */
  function Remaining(length: nat, n: int): nat { if 0 <= n <= length then length - n else 0 }

  /** The cores behind the first k of the queue were signalled, the last one first, and wait no longer. */
  ghost predicate Woken(s: State, r: State, k: nat)
    requires k <= |s.toRelease|
  {
    && r.toRelease == s.toRelease[..k] && r.signals == s.signals + Backwards(s.toRelease[k..])
    && forall c: nat :: c in r.blocked <==> c in s.blocked && c !in s.toRelease[k..]
  }

  lemma WokenStep(s: State, r: State, k: nat)
    requires Shape(s) && s.toRelease != [] && k < |s.toRelease| && Woken(Pop(s), r, k)
    ensures Woken(s, r, k)
  {
    var last := |s.toRelease| - 1;
    var c := s.toRelease[last];
    var front := s.toRelease[..last];
    assert front[..k] == s.toRelease[..k];
    assert s.toRelease[k..] == front[k..] + [c];
    BackwardsSnoc(front[k..], c);
    assert s.signals + [c] + Backwards(front[k..]) == s.signals + Backwards(s.toRelease[k..]);
  }

  lemma {:induction false} DoReleaseWakes(s: State, n: int)
    requires Shape(s)
    ensures Woken(s, DoRelease(s, n), Remaining(|s.toRelease|, n))
    decreases |s.toRelease|
  {
    if s.toRelease == [] || n == 0 {
      assert s.toRelease[..|s.toRelease|] == s.toRelease && s.toRelease[|s.toRelease|..] == [];
    } else {
      DoReleaseWakes(Pop(s), n - 1);
      WokenStep(s, DoRelease(s, n), Remaining(|s.toRelease|, n));
    }
  }

  // ---- Releases

  /** The cores from c on that are due and do not run the caller's thread, in order. */
  function DueFrom(s: State, caller: int, c: nat): (cores: seq<nat>)
    requires Shape(s) && c <= |s.clock|
    decreases |s.clock| - c
  {
    if c == |s.clock| then []
    else if s.held[c] && s.clock[c] < s.next && s.thread[c] != caller then [c] + DueFrom(s, caller, c + 1)
    else DueFrom(s, caller, c + 1)
  }

  lemma {:induction false} DueFromSame(s: State, r: State, caller: int, c: nat)
    requires Shape(s) && Shape(r) && |r.clock| == |s.clock| && c <= |s.clock|
    requires r.clock == s.clock && r.next == s.next && r.thread == s.thread
    requires forall d | c <= d < |s.clock| :: r.held[d] == s.held[d]
    ensures DueFrom(r, caller, c) == DueFrom(s, caller, c)
    decreases |s.clock| - c
  {
    if c < |s.clock| {
      DueFromSame(s, r, caller, c + 1);
    }
  }

  lemma PassOneQueues(s: State, caller: int, c: nat, rest: seq<nat>)
    requires Shape(s) && c < |s.clock|
    ensures PassOne(s, caller, c).toRelease + rest ==
            s.toRelease + (if s.held[c] && s.clock[c] < s.next && s.thread[c] != caller then [c] + rest else rest)
  {
    assert s.toRelease + [c] + rest == s.toRelease + ([c] + rest);
  }

  lemma {:induction false} PassQueues(s: State, caller: int, c: nat)
    requires Shape(s) && c <= |s.clock|
    ensures PassFrom(s, caller, c).toRelease == s.toRelease + DueFrom(s, caller, c)
    decreases |s.clock| - c
  {
    if c < |s.clock| {
      var s1 := PassOne(s, caller, c);
      PassQueues(s1, caller, c + 1);
      DueFromSame(s, s1, caller, c + 1);
      PassOneQueues(s, caller, c, DueFrom(s, caller, c + 1));
    }
  }

  /** Core c was let go by the release from s to r, and is not the caller's. */
  ghost predicate LetGo(s: State, r: State, caller: int, c: nat) {
    c < |s.held| && c < |r.held| && c < |s.thread| && s.held[c] && !r.held[c] && s.thread[c] != caller
  }

  lemma CountCons(c: nat, rest: seq<nat>, d: nat)
    ensures multiset([c] + rest)[d] == multiset(rest)[d] + if c == d then 1 else 0
  {
  }

  lemma {:induction false} DueOnce(s: State, caller: int, c: nat, d: nat)
    requires Shape(s) && c <= |s.clock|
    ensures multiset(DueFrom(s, caller, c))[d] ==
            if c <= d < |s.clock| && s.held[d] && s.clock[d] < s.next && s.thread[d] != caller then 1 else 0
    decreases |s.clock| - c
  {
    if c < |s.clock| {
      DueOnce(s, caller, c + 1, d);
      if s.held[c] && s.clock[c] < s.next && s.thread[c] != caller {
        CountCons(c, DueFrom(s, caller, c + 1), d);
        assert DueFrom(s, caller, c) == [c] + DueFrom(s, caller, c + 1);
      } else {
        assert DueFrom(s, caller, c) == DueFrom(s, caller, c + 1);
      }
    }
  }

  /** How often core c was signalled or is queued to be. */
  function Wakeups(s: State, c: nat): nat { multiset(s.signals)[c] + multiset(s.toRelease)[c] }

  lemma WokenCounts(s: State, r: State, k: nat, c: nat)
    requires k <= |s.toRelease| && Woken(s, r, k)
    ensures Wakeups(r, c) == Wakeups(s, c)
  {
    BackwardsMembers(s.toRelease[k..]);
    assert s.toRelease == s.toRelease[..k] + s.toRelease[k..];
  }

  lemma DoReleaseCounts(s: State, n: int, c: nat)
    requires Shape(s)
    ensures Wakeups(DoRelease(s, n), c) == Wakeups(s, c)
  {
    DoReleaseWakes(s, n);
    WokenCounts(s, DoRelease(s, n), Remaining(|s.toRelease|, n), c);
  }

  lemma {:induction false} RunHookCounts(s: State, actions: seq<HookAction>, c: nat)
    requires Shape(s)
    ensures Wakeups(RunHook(s, actions), c) == Wakeups(s, c)
    decreases |actions|
  {
    if actions != [] {
      var s1 := HookStep(s, actions[0]);
      if actions[0].Migrate? {
        DoReleaseCounts(ZeroClocks(s, actions[0].thread), 1, c);
      }
      RunHookCounts(s1, actions[1..], c);
    }
  }

  lemma {:induction false} AdvanceCounts(s: State, hook: nat -> seq<HookAction>, i: nat, c: nat)
    requires Shape(s) && AnyHeld(s)
    ensures var a := AdvanceUntilDue(s, hook, i);
            a.held == s.held && a.thread == s.thread && |a.clock| == |s.clock| && Wakeups(a, c) == Wakeups(s, c)
    decreases Distance(s)
  {
    var a := Advance(s, hook(i));
    AdvanceEffect(s, hook(i));
    RunHookCounts(s.(global := s.next), hook(i), c);
    if !AnyDue(a) {
      AdvanceCloser(s, hook(i));
      AdvanceCounts(a, hook, i + 1, c);
    }
  }

  /** The cores that stay held are those that have come up to the new barrier time, and some core does not. */
  ghost predicate LetsGoBelow(s: State, r: State) {
    && |r.clock| == |r.held| == |s.held|
    && (forall c | 0 <= c < |s.held| :: r.held[c] <==> s.held[c] && r.clock[c] >= r.next)
    && exists c :: 0 <= c < |s.held| && s.held[c] && !r.held[c]
  }

  /**
   * A release let go exactly the held cores whose clock is below the new barrier time, at least one; each of them but
   * the caller's was signalled or queued once more than before, and nobody else was; and the caller must wait exactly
   * if no core of its thread was let go.
   */
  ghost predicate Outcome(s: State, r: State, mustWait: bool, caller: int, c: nat) {
    && LetsGoBelow(s, r) && |s.thread| == |s.held|
    && Wakeups(r, c) == Wakeups(s, c) + (if LetGo(s, r, caller, c) then 1 else 0)
    && (mustWait <==> forall d | 0 <= d < |s.held| && s.held[d] && !r.held[d] :: s.thread[d] != caller)
  }

  lemma PassedBelow(s: State, r: State, caller: int)
    requires Shape(s) && AnyDue(s) && PassedFrom(s, r, 0)
    ensures LetsGoBelow(s, r)
    ensures CallerDue(s, caller) <==> exists d :: 0 <= d < |s.held| && s.held[d] && !r.held[d] && s.thread[d] == caller
  {
    assert forall d | 0 <= d < |s.clock| :: Due(s, d) == (s.held[d] && !r.held[d]);
    var d :| 0 <= d < |s.clock| && Due(s, d);
    assert s.held[d] && !r.held[d];
  }

  lemma PassedCounts(s: State, r: State, caller: int, c: nat)
    requires Shape(s) && PassedFrom(s, r, 0) && r.toRelease == s.toRelease + DueFrom(s, caller, 0)
    ensures Wakeups(r, c) == Wakeups(s, c) + if LetGo(s, r, caller, c) then 1 else 0
  {
    DueOnce(s, caller, 0, c);
  }

  lemma PassLetsGo(s: State, caller: int, c: nat)
    requires Shape(s) && AnyDue(s)
    ensures Outcome(s, PassFrom(s, caller, 0), !CallerDue(s, caller), caller, c)
  {
    var r := PassFrom(s, caller, 0);
    PassEffect(s, caller, 0);
    PassQueues(s, caller, 0);
    PassedBelow(s, r, caller);
    PassedCounts(s, r, caller, c);
  }

  lemma OutcomeThen(s: State, p: State, r: State, mustWait: bool, caller: int, c: nat)
    requires r.held == p.held && r.clock == p.clock && r.next == p.next && Wakeups(r, c) == Wakeups(p, c)
    requires Outcome(s, p, mustWait, caller, c)
    ensures Outcome(s, r, mustWait, caller, c)
  {
  }

  /** The part of a release that follows once a held core is due. */
  ghost function LettingGo(s: State, caller: int, env: Env): (r: State)
    requires Shape(s)
    ensures Shape(r)
  {
    var p := PassFrom(s, caller, 0);
    ShuffledInRange(env, p.toRelease, |p.clock|);
    var q := p.(toRelease := Shuffled(env, p.toRelease));
    DoRelease(q, if q.fast then -1 else env.hostCores)
  }

  lemma ReleaseIsLettingGo(s: State, caller: int, env: Env)
    requires Shape(s) && AnyHeld(s)
    ensures var a := AdvanceUntilDue(SkipAhead(s), env.hook, 0);
            BarrierRelease(s, caller, env) == (LettingGo(a, caller, env), !CallerDue(a, caller))
  {
  }

  lemma LettingGoEffect(s: State, caller: int, env: Env, c: nat)
    requires Shape(s)
    ensures var p, r := PassFrom(s, caller, 0), LettingGo(s, caller, env);
            && r.held == p.held && r.clock == p.clock == s.clock && r.next == p.next == s.next && r.global == s.global
            && Wakeups(r, c) == Wakeups(p, c)
  {
    PassEffect(s, caller, 0);
    var p := PassFrom(s, caller, 0);
    ShuffledInRange(env, p.toRelease, |p.clock|);
    var q := p.(toRelease := Shuffled(env, p.toRelease));
    var n := if q.fast then -1 else env.hostCores;
    DoReleaseCounts(q, n, c);
    DoReleaseEffect(q, n);
  }

  lemma ShuffledLength(env: Env, cores: seq<nat>)
    ensures |Shuffled(env, cores)| == |cores|
  {
    assert |multiset(Shuffled(env, cores))| == |multiset(cores)|;
  }

  lemma ReleasedLength(s: State, n: int)
    requires Shape(s)
    ensures |DoRelease(s, n).toRelease| == Remaining(|s.toRelease|, n)
  {
    DoReleaseWakes(s, n);
  }

  lemma ShuffledReleased(p: State, q: State, env: Env)
    requires Shape(p) && Shape(q) && q == p.(toRelease := Shuffled(env, p.toRelease))
    ensures |DoRelease(q, if q.fast then -1 else env.hostCores).toRelease| ==
            Remaining(|p.toRelease|, if p.fast then -1 else env.hostCores)
  {
    ShuffledLength(env, p.toRelease);
    ReleasedLength(q, if q.fast then -1 else env.hostCores);
  }

  lemma LettingGoWakes(s: State, caller: int, env: Env)
    requires Shape(s)
    ensures |LettingGo(s, caller, env).toRelease| ==
            Remaining(|s.toRelease| + |DueFrom(s, caller, 0)|, if s.fast then -1 else env.hostCores)
  {
    PassEffect(s, caller, 0);
    PassQueues(s, caller, 0);
    var p := PassFrom(s, caller, 0);
    ShuffledInRange(env, p.toRelease, |p.clock|);
    ShuffledReleased(p, p.(toRelease := Shuffled(env, p.toRelease)), env);
  }

  lemma LettingGoOutcome(s: State, caller: int, env: Env, c: nat)
    requires Shape(s) && AnyDue(s)
    ensures Outcome(s, LettingGo(s, caller, env), !CallerDue(s, caller), caller, c)
  {
    PassLetsGo(s, caller, c);
    LettingGoEffect(s, caller, env, c);
    OutcomeThen(s, PassFrom(s, caller, 0), LettingGo(s, caller, env), !CallerDue(s, caller), caller, c);
  }

  lemma OutcomeSince(s: State, a: State, r: State, mustWait: bool, caller: int, c: nat)
    requires a.held == s.held && a.thread == s.thread && Wakeups(a, c) == Wakeups(s, c)
    requires Outcome(a, r, mustWait, caller, c)
    ensures Outcome(s, r, mustWait, caller, c)
  {
  }

  /** So it is whatever the hooks do. */
  lemma ReleaseLetsGo(s: State, caller: int, env: Env, c: nat)
    requires Shape(s) && AnyHeld(s)
    ensures var (r, mustWait) := BarrierRelease(s, caller, env); Outcome(s, r, mustWait, caller, c)
  {
    ReleaseIsLettingGo(s, caller, env);
    var s0 := SkipAhead(s);
    AdvanceCounts(s0, env.hook, 0, c);
    var a := AdvanceUntilDue(s0, env.hook, 0);
    LettingGoOutcome(a, caller, env, c);
    OutcomeSince(s, a, LettingGo(a, caller, env), !CallerDue(a, caller), caller, c);
  }

  // ---- Releases during which the hooks do nothing

  ghost predicate Still(hook: nat -> seq<HookAction>) { forall i :: hook(i) == [] }

  /** The barrier time went up by whole intervals, at least one, and no further than it takes to let a held core go. */
  ghost predicate WentUp(s: State, next: nat, k: nat)
    requires Shape(s)
  {
    && k > 0 && next == s.next + k * s.interval && (exists c :: 0 <= c < |s.clock| && s.held[c] && s.clock[c] < next)
    && (k > 1 ==> forall c | 0 <= c < |s.clock| && s.held[c] :: next - s.interval <= s.clock[c])
  }

  lemma WentUpOnce(s: State, a: State)
    requires Shape(s) && Shape(a) && a == s.(next := s.next + s.interval, global := s.next) && AnyDue(a)
    ensures WentUp(s, a.next, 1)
  {
    var c :| 0 <= c < |a.clock| && Due(a, c);
    assert s.held[c] && s.clock[c] < a.next;
  }

  lemma WentUpMore(s: State, a: State, next: nat, k: nat)
    requires Shape(s) && Shape(a) && a == s.(next := s.next + s.interval, global := s.next) && !AnyDue(a)
    requires WentUp(a, next, k)
    ensures WentUp(s, next, k + 1)
  {
    assert (k + 1) * s.interval == k * s.interval + s.interval;
    forall c | 0 <= c < |s.clock| && s.held[c]
      ensures next - s.interval <= s.clock[c]
    {
      assert !Due(a, c);
    }
  }

  lemma {:induction false} StillAdvance(s: State, hook: nat -> seq<HookAction>, i: nat) returns (k: nat)
    requires Shape(s) && AnyHeld(s) && Still(hook)
    ensures var a := AdvanceUntilDue(s, hook, i);
            a == s.(next := a.next, global := a.global) && a.next == a.global + s.interval && WentUp(s, a.next, k)
    decreases Distance(s)
  {
    var a := Advance(s, hook(i));
    assert a == s.(next := s.next + s.interval, global := s.next);
    if AnyDue(a) {
      k := 1;
      WentUpOnce(s, a);
    } else {
      AdvanceCloser(s, hook(i));
      var j := StillAdvance(a, hook, i + 1);
      k := j + 1;
      WentUpMore(s, a, AdvanceUntilDue(a, hook, i + 1).next, j);
    }
  }

  /**
   * With hooks that do nothing the barrier time goes up by whole intervals until it passes the clock of a held core, in
   * fast-forward mode from the latest clock on record; the global time is one interval behind. All cores let go are
   * signalled in fast-forward mode, and as many as there are host cores in detailed mode.
   */
  ghost predicate StillOutcome(s: State, r: State, caller: int, env: Env, k: nat)
    requires Shape(s)
  {
    && WentUp(SkipAhead(s), r.next, k) && r.next == r.global + s.interval && r.clock == s.clock
    && |r.toRelease| == Remaining(|s.toRelease| + |DueFrom(s.(next := r.next), caller, 0)|,
                                  if s.fast then -1 else env.hostCores)
  }

  lemma StillLettingGo(s: State, a: State, r: State, caller: int, env: Env, k: nat)
    requires Shape(s) && Shape(a) && a == s.(next := a.next, global := a.global)
    requires a.next == a.global + s.interval && WentUp(SkipAhead(s), a.next, k)
    requires r.next == a.next && r.global == a.global && r.clock == a.clock
    requires |r.toRelease| == Remaining(|a.toRelease| + |DueFrom(a, caller, 0)|, if a.fast then -1 else env.hostCores)
    ensures StillOutcome(s, r, caller, env, k)
  {
    DueFromSame(a, s.(next := a.next), caller, 0);
  }

  lemma StillRelease(s: State, caller: int, env: Env) returns (k: nat)
    requires Shape(s) && AnyHeld(s) && Still(env.hook)
    ensures StillOutcome(s, BarrierRelease(s, caller, env).0, caller, env, k)
  {
    ReleaseIsLettingGo(s, caller, env);
    k := StillAdvance(SkipAhead(s), env.hook, 0);
    var a := AdvanceUntilDue(SkipAhead(s), env.hook, 0);
    LettingGoEffect(a, caller, env, 0);
    LettingGoWakes(a, caller, env);
    StillLettingGo(s, a, LettingGo(a, caller, env), caller, env, k);
  }

  lemma TwoIntervals(k: nat, interval: nat)
    requires k > 1
    ensures k * interval >= 2 * interval
  {
  }

  /** Fast-forwarding, one interval is enough: the latest clock on record is then below the barrier time. */
  lemma OneIntervalAhead(s: State, next: nat, k: nat)
    requires Shape(s) && AnyHeld(s) && WentUp(s, next, k) && forall c | 0 <= c < |s.clock| :: s.clock[c] <= s.next
    ensures next == s.next + s.interval
  {
    if k > 1 {
      TwoIntervals(k, s.interval);
      assert false;
    }
  }

  /** Fast-forwarding, such a release empties barrier and queue, and moves the global time to the latest clock. */
  lemma FastReleaseFreesAll(s: State, caller: int, env: Env)
    requires Shape(s) && AnyHeld(s) && Still(env.hook) && s.fast
    ensures var r := BarrierRelease(s, caller, env).0;
            && (forall c | 0 <= c < |r.held| :: !r.held[c]) && r.toRelease == []
            && s.next <= r.global && (forall c | 0 <= c < |s.clock| :: s.clock[c] <= r.global)
            && (r.global == s.next || exists c :: 0 <= c < |s.clock| && s.clock[c] == r.global)
            && r.next == r.global + s.interval
  {
    var k := StillRelease(s, caller, env);
    ReleaseLetsGo(s, caller, env, 0);
    OneIntervalAhead(SkipAhead(s), BarrierRelease(s, caller, env).0.next, k);
  }

  // ---- Calls

  /** The thread has entered for core m: its time, hold and name are on record, and one queued core was woken. */
  ghost predicate Entered(s: State, r: State, m: nat, time: nat, t: int)
    requires Shape(s) && m < |s.clock|
  {
    && r == s.(clock := s.clock[m := time], held := s.held[m := true], thread := s.thread[m := t],
               arrival := s.arrival[m := time], zeroed := s.zeroed[m := false], toRelease := r.toRelease,
               blocked := r.blocked, signals := r.signals)
    && Woken(s, r, if s.toRelease == [] then 0 else |s.toRelease| - 1)
  }

  lemma EnterEnters(s: State, m: nat, time: nat, t: int)
    requires Shape(s) && m < |s.clock|
    ensures Entered(s, Enter(s, m, time, t), m, time, t)
  {
    DoReleaseEffect(s, 1);
    DoReleaseWakes(s, 1);
  }

  /**
   * In detailed mode a call made before the barrier time leaves everything but the record of arrivals alone. Any other
   * call enters, in detailed mode for the master of its group. It waits if the barrier is not reached then, or if the
   * release that it starts lets no core of its thread go.
   */
  ghost predicate Called(s: State, r: State, c: nat, time: nat, t: int, active: set<nat>, s1: State)
    requires Shape(s) && Shape(s1) && c < |s.clock|
  {
    if time < s.next && !s.fast then r == s.(arrival := r.arrival, zeroed := r.zeroed)
    else
      var m: nat := if s.fast || s.group[c] == NONE then c else s.group[c];
      && Entered(s, s1, m, time, t)
      && if !Reached(s1, active) then r == s1.(blocked := s1.blocked + {m}, waits := s1.waits + 1)
         else LetsGoBelow(s1, r) && WaitsUnlessLetGo(s1, r, m, t)
  }

  ghost predicate WaitsUnlessLetGo(s: State, r: State, m: nat, t: int)
    requires |s.thread| == |s.held|
  {
    && |r.held| == |s.held|
    && if forall d | 0 <= d < |s.held| && s.held[d] && !r.held[d] :: s.thread[d] != t
       then m in r.blocked && r.waits == s.waits + 1
       else r.waits == s.waits
  }

  lemma {:induction false} AdvanceWaits(s: State, hook: nat -> seq<HookAction>, i: nat)
    requires Shape(s) && AnyHeld(s)
    ensures AdvanceUntilDue(s, hook, i).waits == s.waits
    decreases Distance(s)
  {
    var a := Advance(s, hook(i));
    HookWaits(s.(global := s.next), hook(i));
    if !AnyDue(a) {
      AdvanceCloser(s, hook(i));
      AdvanceWaits(a, hook, i + 1);
    }
  }

  lemma {:induction false} HookWaits(s: State, actions: seq<HookAction>)
    requires Shape(s)
    ensures RunHook(s, actions).waits == s.waits
    decreases |actions|
  {
    if actions != [] {
      if actions[0].Migrate? {
        DoReleaseEffect(ZeroClocks(s, actions[0].thread), 1);
      }
      HookWaits(HookStep(s, actions[0]), actions[1..]);
    }
  }

  lemma LettingGoWaits(s: State, caller: int, env: Env)
    requires Shape(s)
    ensures LettingGo(s, caller, env).waits == s.waits
  {
    PassEffect(s, caller, 0);
    var p := PassFrom(s, caller, 0);
    ShuffledInRange(env, p.toRelease, |p.clock|);
    var q := p.(toRelease := Shuffled(env, p.toRelease));
    DoReleaseEffect(q, if q.fast then -1 else env.hostCores);
  }

  /** A release begins no wait of its own. */
  lemma ReleaseWaits(s: State, caller: int, env: Env)
    requires Shape(s) && AnyHeld(s)
    ensures BarrierRelease(s, caller, env).0.waits == s.waits
  {
    ReleaseIsLettingGo(s, caller, env);
    AdvanceWaits(SkipAhead(s), env.hook, 0);
    LettingGoWaits(AdvanceUntilDue(SkipAhead(s), env.hook, 0), caller, env);
  }

  lemma MeetingOutcome(s: State, m: nat, t: int, env: Env)
    requires Shape(s) && AnyHeld(s) && Reached(s, env.active)
    ensures var r := Rendezvous(s, m, t, env); LetsGoBelow(s, r) && WaitsUnlessLetGo(s, r, m, t)
  {
    ReleaseLetsGo(s, t, env, 0);
    ReleaseWaits(s, t, env);
  }

  lemma CallOutcome(s: State, c: nat, time: nat, t: int, env: Env) returns (s1: State)
    requires Shape(s) && c < |s.clock|
    ensures Shape(s1) && Called(s, Apply(s, Call(c, time, t), env), c, time, t, env.active, s1)
  {
    var m := MasterOf(s, c);
    s1 := Enter(s, m, time, t);
    EnterEnters(s, m, time, t);
    if Reached(s1, env.active) {
      MeetingOutcome(s1, m, t, env);
    }
  }

  // ---- Threads that stop or move, and hooks

  /** The clocks of the held cores of the thread are cleared, and only these, and one queued core was woken. */
  ghost predicate Freed(s: State, r: State, t: int)
    requires Shape(s)
  {
    && r == s.(clock := r.clock, zeroed := r.zeroed, toRelease := r.toRelease, blocked := r.blocked,
               signals := r.signals)
    && |r.clock| == |s.clock|
    && (forall c | 0 <= c < |s.clock| :: r.clock[c] == if s.held[c] && s.thread[c] == t then 0 else s.clock[c])
    && Woken(s, r, if s.toRelease == [] then 0 else |s.toRelease| - 1)
  }

  lemma ReleaseThreadFrees(s: State, t: int)
    requires Shape(s)
    ensures Freed(s, ReleaseThread(s, t), t)
  {
    DoReleaseEffect(ZeroClocks(s, t), 1);
    DoReleaseWakes(ZeroClocks(s, t), 1);
  }

  lemma MigrationOutcome(s: State, t: int, env: Env)
    requires Shape(s)
    ensures Freed(s, Apply(s, MigrateThread(t), env), t)
  {
    ReleaseThreadFrees(s, t);
  }

  /** A thread that stops frees its cores, and releases the barrier if it is reached then. */
  lemma StopOutcome(s: State, t: int, env: Env) returns (s1: State)
    requires Shape(s)
    ensures Shape(s1) && Freed(s, s1, t)
    ensures var r := Apply(s, Stop(t), env);
            if Reached(s1, env.active) && AnyHeld(s1) then LetsGoBelow(s1, r) && r.waits == s1.waits else r == s1
  {
    s1 := ReleaseThread(s, t);
    ReleaseThreadFrees(s, t);
    if Reached(s1, env.active) && AnyHeld(s1) {
      ReleaseLetsGo(s1, NONE, env, 0);
      ReleaseWaits(s1, NONE, env);
    }
  }

  /** The mode is that of the last switch among the actions, or the old one if there is none. */
  ghost predicate ModeAfter(actions: seq<HookAction>, before: bool, after: bool) {
    || (after == before && forall i | 0 <= i < |actions| :: !actions[i].SetMode?)
    || exists i :: 0 <= i < |actions| && actions[i].SetMode? && actions[i].fast == after
                   && forall j | i < j < |actions| :: !actions[j].SetMode?
  }

  /** The barrier time is the latest of the old one and those of the switches. */
  ghost predicate TimeAfter(actions: seq<HookAction>, before: nat, after: nat) {
    && before <= after && (forall i | 0 <= i < |actions| && actions[i].SetMode? :: actions[i].time <= after)
    && (after == before || exists i :: 0 <= i < |actions| && actions[i].SetMode? && actions[i].time == after)
  }

  lemma ModeCons(a: HookAction, rest: seq<HookAction>, before: bool, middle: bool, after: bool)
    requires middle == (if a.SetMode? then a.fast else before) && ModeAfter(rest, middle, after)
    ensures ModeAfter([a] + rest, before, after)
  {
    var all := [a] + rest;
    assert all[0] == a && forall j | 0 < j < |all| :: all[j] == rest[j - 1];
    if i :| 0 <= i < |rest| && rest[i].SetMode? && rest[i].fast == after
            && forall j | i < j < |rest| :: !rest[j].SetMode? {
      assert all[i + 1].SetMode?;
    }
  }

  lemma TimeCons(a: HookAction, rest: seq<HookAction>, before: nat, middle: nat, after: nat)
    requires middle == (if a.SetMode? then Max(before, a.time) else before) && TimeAfter(rest, middle, after)
    ensures TimeAfter([a] + rest, before, after)
  {
    var all := [a] + rest;
    assert all[0] == a && forall j | 0 < j < |all| :: all[j] == rest[j - 1];
    if i :| 0 <= i < |rest| && rest[i].SetMode? && rest[i].time == after {
      assert all[i + 1].SetMode?;
    }
  }

  /** Held cores whose thread is migrated have their clock cleared, and no others. */
  ghost predicate ClearedBy(s: State, r: State, actions: seq<HookAction>)
    requires Shape(s)
  {
    && |r.clock| == |s.clock|
    && forall c | 0 <= c < |s.clock| ::
         r.clock[c] == if s.held[c] && Migrate(s.thread[c]) in actions then 0 else s.clock[c]
  }

  lemma ClearedCons(s: State, s1: State, r: State, a: HookAction, rest: seq<HookAction>)
    requires Shape(s) && Shape(s1) && s1.held == s.held && s1.thread == s.thread && |s1.clock| == |s.clock|
    requires ClearedBy(s1, r, rest)
    requires forall c | 0 <= c < |s.clock| ::
               s1.clock[c] == if s.held[c] && a == Migrate(s.thread[c]) then 0 else s.clock[c]
    ensures ClearedBy(s, r, [a] + rest)
  {
  }

  /** What a hook does, whatever its actions. */
  lemma {:induction false} HookOutcome(s: State, actions: seq<HookAction>)
    requires Shape(s)
    ensures var r := RunHook(s, actions);
            ModeAfter(actions, s.fast, r.fast) && TimeAfter(actions, s.next, r.next) && ClearedBy(s, r, actions)
    decreases |actions|
  {
    if actions != [] {
      var a, rest := actions[0], actions[1..];
      var s1, r := HookStep(s, a), RunHook(s, actions);
      if a.Migrate? { ReleaseThreadFrees(s, a.thread); }
      HookOutcome(s1, rest);
      ModeCons(a, rest, s.fast, s1.fast, r.fast);
      TimeCons(a, rest, s.next, s1.next, r.next);
      ClearedCons(s, s1, r, a, rest);
      assert [a] + rest == actions;
    }
  }

  /** In detailed mode a core put into a group is entered for its master from then on, every other core as before. */
  lemma GroupOutcome(s: State, c: nat, m: int, env: Env, d: nat)
    requires Shape(s) && InRange(s, SetGroup(c, m)) && d < |s.clock| && !s.fast
    ensures var r := Apply(s, SetGroup(c, m), env);
            && r == s.(group := r.group) && |r.group| == |s.group|
            && MasterOf(r, d) == if d != c then MasterOf(s, d) else if m == NONE then c else m
  {
  }

  /** A switch of the mode between calls takes effect, and raises the barrier time at most. */
  lemma SwitchOutcome(s: State, fast: bool, time: nat, env: Env)
    requires Shape(s)
    ensures var r := Apply(s, SwitchMode(fast, time), env);
            r == s.(fast := fast, next := r.next) && TimeAfter([SetMode(fast, time)], s.next, r.next)
  {
    assert [SetMode(fast, time)][0].SetMode?;
  }
}
