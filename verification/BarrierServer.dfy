/** The barrier server and its client as objects. */
module BarrierServer {
  import opened Barrier
  import opened BarrierProofs
  import opened BarrierClient
  import opened BarrierFilter
  import opened BarrierOutcomes

  predicate DueBelow(s: State, n: nat)
    requires Shape(s) && n <= |s.clock|
  {
    n > 0 && (DueBelow(s, n - 1) || Due(s, n - 1))
  }

  predicate CallerDueBelow(s: State, caller: int, n: nat)
    requires Shape(s) && n <= |s.clock|
  {
    n > 0 && (CallerDueBelow(s, caller, n - 1) || (Due(s, n - 1) && s.thread[n - 1] == caller))
  }

  lemma {:induction false} DueBelowIs(s: State, caller: int, n: nat)
    requires Shape(s) && n <= |s.clock|
    ensures DueBelow(s, n) <==> exists c :: 0 <= c < n && Due(s, c)
    ensures CallerDueBelow(s, caller, n) <==> exists c :: 0 <= c < n && Due(s, c) && s.thread[c] == caller
  {
    if n > 0 {
      DueBelowIs(s, caller, n - 1);
    }
  }

  /** The cores from c on are as they were. */
  ghost predicate SameBut(s: State, r: State, c: nat) {
    && |r.clock| == |s.clock| == |s.held| == |r.held| && r.clock == s.clock && r.next == s.next && r.thread == s.thread
    && forall d | c <= d < |s.held| :: r.held[d] == s.held[d]
  }

  lemma PassOneKeeps(s: State, r: State, caller: int, c: nat)
    requires Shape(s) && Shape(r) && SameBut(s, r, c) && c < |s.clock|
    ensures SameBut(s, PassOne(r, caller, c), c + 1) && Due(r, c) == Due(s, c)
    ensures PassFrom(r, caller, c) == PassFrom(PassOne(r, caller, c), caller, c + 1)
  {
  }

  class BarrierSyncServer {
    const interval: nat
    var group: seq<int>
    var next: nat
    var global: nat
    var fast: bool
    var clock: seq<nat>
    var held: seq<bool>
    var thread: seq<int>
    var toRelease: seq<nat>
    ghost var blocked: set<nat>
    ghost var signals: seq<nat>
    ghost var waits: nat
    ghost var arrival: seq<nat>
    ghost var zeroed: seq<bool>

    constructor (ncores: nat, interval: nat)
      requires interval > 0
      ensures Tables() == Start(ncores, interval, false) && Shape(Tables())
    {
      this.interval, group, next, global, fast := interval, seq(ncores, _ => NONE), interval, 0, false;
      clock, held, thread, toRelease := seq(ncores, _ => 0), seq(ncores, _ => false), seq(ncores, _ => NONE), [];
      blocked, signals, waits, arrival, zeroed := {}, [], 0, seq(ncores, _ => 0), seq(ncores, _ => false);
    }

    ghost function Tables(): State
      reads this
    {
      State(interval, next, global, fast, clock, held, thread, group, toRelease, blocked, signals, waits, arrival,
            zeroed)
    }

    method DoRelease(n: int)
      requires Shape(Tables())
      modifies this
      ensures Tables() == Barrier.DoRelease(old(Tables()), n)
      ensures Woken(old(Tables()), Tables(), Remaining(|old(toRelease)|, n))
    {
      DoReleaseWakes(Tables(), n);
      var left := n;
      while toRelease != [] && left != 0
        invariant Shape(Tables())
        invariant Barrier.DoRelease(Tables(), left) == Barrier.DoRelease(old(Tables()), n)
        decreases |toRelease|
      {
        ghost var before := Tables();
        var c := toRelease[|toRelease| - 1];
        toRelease := toRelease[..|toRelease| - 1];
        blocked, signals := blocked - {c}, signals + [c];
        assert Tables() == Pop(before);
        left := left - 1;
      }
    }

    method ReleaseThread(t: int)
      requires Shape(Tables())
      modifies this
      ensures Tables() == Barrier.ReleaseThread(old(Tables()), t)
      ensures |clock| == |old(clock)|
      ensures forall c | 0 <= c < |clock| :: clock[c] == if old(held[c] && thread[c] == t) then 0 else old(clock[c])
      ensures Woken(old(Tables()), Tables(), Remaining(|old(toRelease)|, 1))
    {
      ghost var target := ZeroClocks(Tables(), t);
      var c := 0;
      while c < |clock|
        invariant 0 <= c <= |clock| == |old(clock)| == |zeroed|
        invariant Tables() == old(Tables()).(clock := clock, zeroed := zeroed)
        invariant forall d | 0 <= d < |clock| :: clock[d] == if d < c then target.clock[d] else old(clock[d])
        invariant forall d | 0 <= d < |clock| :: zeroed[d] == if d < c then target.zeroed[d] else old(zeroed[d])
      {
        if held[c] && thread[c] == t {
          clock, zeroed := clock[c := 0], zeroed[c := true];
        }
        c := c + 1;
      }
      assert Tables() == target;
      DoRelease(1);
    }

    method IsCoreRunning(active: set<nat>, c: nat) returns (running: bool)
      ensures running <==> CoreRunning(Tables(), active, c)
    {
      if c in active {
        return true;
      }
      if !fast {
        var d := 0;
        while d < |group|
          invariant 0 <= d <= |group|
          invariant forall e | 0 <= e < d :: !(group[e] == c && e in active)
        {
          if group[d] == c && d in active {
            return true;
          }
          d := d + 1;
        }
      }
      return false;
    }

    method IsBarrierReached(active: set<nat>) returns (reached: bool)
      requires Shape(Tables())
      ensures reached <==> Reached(Tables(), active)
      ensures reached <==> AllThere(Tables(), active)
    {
      ReachedExactlyWhen(Tables(), active);
      var single := false;
      var c := 0;
      while c < |clock|
        invariant 0 <= c <= |clock|
        invariant forall d | 0 <= d < c :: Passes(Tables(), active, d)
        invariant single <==> exists d :: 0 <= d < c && AtBarrier(Tables(), active, d)
      {
        var running := IsCoreRunning(active, c);
        if fast {
          if held[c] {
            assert AtBarrier(Tables(), active, c);
            single := true;
          } else if running {
            assert !Passes(Tables(), active, c);
            return false;
          }
        } else if group[c] == NONE && running {
          if clock[c] < next {
            assert !Passes(Tables(), active, c);
            return false;
          }
          assert AtBarrier(Tables(), active, c);
          single := true;
        }
        c := c + 1;
      }
      return single;
    }

    method RunHook(actions: seq<HookAction>)
      requires Shape(Tables())
      modifies this
      ensures Tables() == Barrier.RunHook(old(Tables()), actions)
    {
      var left := actions;
      while left != []
        invariant Shape(Tables())
        invariant Barrier.RunHook(Tables(), left) == Barrier.RunHook(old(Tables()), actions)
        decreases |left|
      {
        match left[0] {
          case Migrate(t) => ReleaseThread(t);
          case SetMode(mode, time) => SetFastForward(mode, time);
        }
        left := left[1..];
      }
    }

    /** One core of the pass: if due it is let go and, unless it is the caller, queued. */
    method ReleaseCore(caller: int, c: nat) returns (due: bool)
      requires Shape(Tables()) && c < |clock|
      modifies `held, `toRelease
      ensures due == Due(old(Tables()), c) && Tables() == PassOne(old(Tables()), caller, c)
    {
      due := clock[c] < next && held[c];
      if due {
        held := held[c := false];
        if thread[c] != caller {
          toRelease := toRelease + [c];
        }
      }
    }

    /** One pass over the cores. */
    method ReleasePass(caller: int) returns (resumed: bool, mustWait: bool)
      requires Shape(Tables())
      modifies `held, `toRelease
      ensures Tables() == PassFrom(old(Tables()), caller, 0)
      ensures resumed <==> AnyDue(old(Tables()))
      ensures mustWait <==> !CallerDue(old(Tables()), caller)
    {
      resumed, mustWait := false, true;
      ghost var s := Tables();
      var c := 0;
      while c < |clock|
        invariant 0 <= c <= |clock| && Shape(Tables()) && SameBut(s, Tables(), c)
        invariant PassFrom(Tables(), caller, c) == PassFrom(s, caller, 0)
        invariant resumed == DueBelow(s, c) && mustWait == !CallerDueBelow(s, caller, c)
      {
        PassOneKeeps(s, Tables(), caller, c);
        var due := ReleaseCore(caller, c);
        if due {
          resumed := true;
          if thread[c] == caller {
            mustWait := false;
          }
        }
        c := c + 1;
      }
      DueBelowIs(s, caller, |s.clock|);
    }

    method AdvanceOnce(actions: seq<HookAction>)
      requires Shape(Tables())
      modifies this
      ensures Tables() == Advance(old(Tables()), actions)
    {
      global := next;
      RunHook(actions);
      next := next + interval;
    }

    /** The barrier moves on, one interval per pass, until somebody can be let go. */
    method AdvanceUntilRelease(caller: int, env: Env) returns (mustWait: bool)
      requires Shape(Tables()) && AnyHeld(Tables())
      modifies this
      ensures var a := AdvanceUntilDue(old(Tables()), env.hook, 0);
              Tables() == PassFrom(a, caller, 0) && (mustWait <==> !CallerDue(a, caller))
    {
      ghost var goal := AdvanceUntilDue(Tables(), env.hook, 0);
      mustWait := true;
      var resumed, i := false, 0;
      while !resumed
        invariant 0 <= i && Shape(Tables())
        invariant !resumed ==> AnyHeld(Tables()) && AdvanceUntilDue(Tables(), env.hook, i) == goal && mustWait
        invariant resumed ==> Tables() == PassFrom(goal, caller, 0) && (mustWait <==> !CallerDue(goal, caller))
        decreases !resumed, Distance(Tables())
      {
        ghost var before := Tables();
        AdvanceOnce(env.hook(i));
        ghost var a := Tables();
        resumed, mustWait := ReleasePass(caller);
        if !resumed {
          AdvanceCloser(before, env.hook(i));
          PassWithoutDue(a, caller, 0);
          assert mustWait;
        }
        i := i + 1;
      }
    }

    /** In fast-forward mode, skip over potentially very many timeslots. */
    method SkipTimeslots()
      requires Shape(Tables())
      modifies `next
      ensures Tables() == SkipAhead(old(Tables()))
    {
      if fast {
        var c := 0;
        while c < |clock|
          invariant 0 <= c <= |clock|
          invariant Tables() == old(Tables()).(next := next)
          invariant MaxClock(clock, c, next) == MaxClock(clock, 0, old(next))
        {
          if clock[c] > next {
            next := clock[c];
          }
          c := c + 1;
        }
      }
    }

    method BarrierRelease(caller: int, env: Env) returns (mustWait: bool)
      requires Shape(Tables()) && AnyHeld(Tables())
      modifies this
      ensures (Tables(), mustWait) == Barrier.BarrierRelease(old(Tables()), caller, env)
    {
      SkipTimeslots();
      mustWait := AdvanceUntilRelease(caller, env);
      ShuffledInRange(env, toRelease, |clock|);
      toRelease := Shuffled(env, toRelease);
      DoRelease(if fast then -1 else env.hostCores);
    }

    method EnterBarrier(m: nat, time: nat, t: int)
      requires Shape(Tables()) && m < |clock|
      modifies this
      ensures Tables() == Enter(old(Tables()), m, time, t)
    {
      DoReleaseEffect(Tables(), 1);
      DoRelease(1);
      clock, held, thread := clock[m := time], held[m := true], thread[m := t];
      arrival, zeroed := arrival[m := time], zeroed[m := false];
    }

    method Rendezvous(m: nat, t: int, env: Env) returns (waiting: bool)
      requires Shape(Tables()) && AnyHeld(Tables())
      modifies this
      ensures Tables() == Barrier.Rendezvous(old(Tables()), m, t, env)
      ensures waiting ==> m in blocked
    {
      waiting := true;
      var reached := IsBarrierReached(env.active);
      if reached {
        waiting := BarrierRelease(t, env);
      }
      if waiting {
        blocked, waits := blocked + {m}, waits + 1;
      }
    }

    /** The call of a core; `waiting` tells whether its thread is left waiting on its condition variable. */
    method Synchronize(c: nat, time: nat, t: int, env: Env) returns (waiting: bool)
      requires Shape(Tables()) && c < |clock|
      modifies this
      ensures Tables() == Barrier.Synchronize(old(Tables()), c, time, t, env)
      ensures waiting ==> MasterOf(old(Tables()), c) in blocked
      ensures time < old(next) && !old(fast) ==>
                !waiting && Tables() == old(Tables()).(arrival := arrival, zeroed := zeroed)
    {
      var m: nat := if fast || group[c] == NONE then c else group[c];
      if time < next && !fast {
        arrival, zeroed := arrival[m := time], zeroed[m := false];
        return false;
      }
      EnterBarrier(m, time, t);
      waiting := Rendezvous(m, t, env);
    }

    method Signal(env: Env)
      requires Shape(Tables()) && Clocks(Tables())
      modifies this
      ensures Tables() == Barrier.Signal(old(Tables()), env)
    {
      var reached := IsBarrierReached(env.active);
      if reached {
        ReachedMeansAllHeld(Tables(), env.active);
        var _ := BarrierRelease(NONE, env);
      }
    }

    /** A thread stops: its clock is cleared and the barrier may then be reached. */
    method StopThread(t: int, env: Env)
      requires Shape(Tables()) && Clocks(Tables())
      modifies this
      ensures Tables() == Apply(old(Tables()), Stop(t), env)
    {
      StopKeepsClocks(Tables(), t, env);
      ReleaseThread(t);
      Signal(env);
    }

    method SetFastForward(mode: bool, time: nat)
      requires Shape(Tables())
      modifies `fast, `next
      ensures Tables() == Barrier.SetFastForward(old(Tables()), mode, time)
      ensures fast == mode && old(next) <= next && time <= next && (next == old(next) || next == time)
    {
      fast := mode;
      next := Max(next, time);
    }

    method SetGroup(c: nat, master: int)
      requires Shape(Tables()) && InRange(Tables(), Event.SetGroup(c, master)) && (master != NONE ==> !held[c])
      modifies `group
      ensures Shape(Tables()) && forall env :: Tables() == Apply(old(Tables()), Event.SetGroup(c, master), env)
    {
      group := group[c := master];
    }
  }

  lemma {:induction false} PassWithoutDue(s: State, caller: int, c: nat)
    requires Shape(s) && c <= |s.clock| && !AnyDue(s)
    ensures PassFrom(s, caller, c) == s
    decreases |s.clock| - c
  {
    if c < |s.clock| {
      PassWithoutDue(s, caller, c + 1);
    }
  }

  /** A call goes through to the server, or is skipped and changes nothing. */
  lemma AttemptIs(k: Clients, x: Input, env: Env)
    requires x.Attempt? && Fits(k, x)
    ensures |Barrier.Synchronize(k.server, x.core, x.time, x.thread, env).clock| == |k.server.clock|
    ensures var k' := FilteredStep(k, x, env);
            && k'.asked == k.asked
            && k'.server == if Skips(k, x) then k.server
                 else Barrier.Synchronize(k.server, x.core, x.time, x.thread, env)
  {
    AskedSize(k.server, x, env);
  }

  lemma ReturnIs(k: Clients, i: nat, env: Env)
    requires Fits(k, Return(i))
    ensures var k' := FilteredStep(k, Return(i), env);
            k'.server == k.server && k'.asked == k.asked[k.open[i].core := k.open[i].time]
  {
  }

  /** The client of one core, between it and the server; `asked` is the time of the call it returned from last. */
  class BarrierSyncClient {
    const core: nat
    const server: BarrierSyncServer
    var nextSync: nat
    ghost var asked: nat

    ghost predicate Valid()
      reads this, server
    {
      Shape(server.Tables()) && core < |server.clock| && nextSync == NextSync(asked, server.interval)
    }

    /** This client among those of all cores. */
    ghost predicate PartOf(k: Clients)
      reads this, server
    {
      k.server == server.Tables() && core < |k.asked| && k.asked[core] == asked
    }

    constructor (core: nat, server: BarrierSyncServer)
      requires Shape(server.Tables()) && core < |server.clock|
      ensures Valid() && asked == 0 && this.core == core && this.server == server
    {
      this.core, this.server := core, server;
      nextSync, asked := NextSync(0, server.interval), 0;
    }

    /**
     * The first half of synchronize, up to the end of the wait: a core wants to synchronize at a time, or at its
     * present one if none is given. The client skips the call or makes it, as the clients of the proved runs do.
     */
    method Synchronize(time: nat, present: nat, t: int, ignoreTime: bool, env: Env, ghost k: Clients)
      returns (asks: bool, waiting: bool)
      requires Valid() && SameSizes(k) && PartOf(k)
      modifies server
      ensures Valid()
      ensures var x := Attempt(core, if time == 0 then present else time, t, ignoreTime);
              asks == !Skips(k, x) && PartOf(FilteredStep(k, x, env))
    {
      var now := if time == 0 then present else time;
      AttemptIs(k, Attempt(core, now, t, ignoreTime), env);
      asks, waiting := now >= nextSync || ignoreTime, false;
      if asks {
        waiting := server.Synchronize(core, now, t, env);
      }
    }

    /** The second half, once the call at this time has come back: the client notes when it asks again. */
    method Returned(time: nat, env: Env, ghost k: Clients, ghost i: nat)
      requires Valid() && SameSizes(k) && PartOf(k) && i < |k.open| && k.open[i].core == core && k.open[i].time == time
      modifies this
      ensures Valid() && PartOf(FilteredStep(k, Return(i), env))
    {
      ReturnIs(k, i, env);
      nextSync := NextSync(time, server.interval);
      asked := time;
    }
  }
}
