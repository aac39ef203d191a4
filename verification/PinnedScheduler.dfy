/** The pinned scheduler as an object whose event handlers update its tables in place. */
module PinnedScheduler {
  import opened Prelude
  import opened Scheduler
  import opened SchedulerProofs
  import opened SchedulerEvents

  class SchedulerPinned {
    const ncores: nat
    const quantum: nat
    var lastPeriodic: nat
    var info: seq<ThreadInfo>
    var runnable: seq<bool>
    var phase: seq<Phase>
    var coreThread: seq<int>
    var quantumLeft: seq<nat>
    var log: seq<Entry>

    constructor (ncores: nat, nthreads: nat, quantum: nat)
      ensures Tables() == Start(ncores, nthreads, quantum) && Shape(Tables())
    {
      this.ncores, this.quantum, lastPeriodic := ncores, quantum, 0;
      info, runnable, phase := seq(nthreads, _ => NEW_THREAD), seq(nthreads, _ => false), seq(nthreads, _ => Absent);
      coreThread, quantumLeft, log := seq(ncores, _ => NONE), seq(ncores, _ => 0), [];
    }

    ghost function Tables(): State
      reads this
    {
      State(ncores, quantum, lastPeriodic, info, runnable, phase, coreThread, quantumLeft, log)
    }

    method FindFreeCoreForThread(t: nat) returns (core: int)
      requires Shape(Tables()) && t < |info|
      ensures core == FreeCore(Tables(), t)
    {
      var c := 0;
      while c < ncores
        invariant 0 <= c <= ncores
        invariant FreeCoreFrom(Tables(), t, c) == FreeCore(Tables(), t)
      {
        if c in info[t].affinity && coreThread[c] == NONE {
          return c;
        }
        c := c + 1;
      }
      return NONE;
    }

    /** The candidate with the highest score, the first one found among equals. */
    method ChooseThread(c: nat, time: nat) returns (chosen: int)
      requires Shape(Tables())
      ensures chosen == Pick(Tables(), c, time)
    {
      chosen := NONE;
      var maxScore := 0;
      var t := 0;
      while t < |info|
        invariant 0 <= t <= |info|
        invariant chosen == PickAmong(Tables(), c, time, t)
        invariant chosen != NONE ==> maxScore == Score(Tables(), chosen, time)
      {
        if c in info[t].affinity && runnable[t] && (info[t].core == NONE || info[t].core == c) {
          var score;
          if info[t].core != NONE {
            score := PS(info[t].lastIn) - PS(time);
          } else {
            score := PS(time) - PS(info[t].lastOut);
          }
          if chosen == NONE || score > maxScore {
            chosen, maxScore := t, score;
          }
        }
        t := t + 1;
      }
    }

    method MoveThread(t: nat, core: int)
      modifies `log
      ensures log == old(log) + [Entry(t, core)]
    {
      log := log + [Entry(t, core)];
    }

    /** The thread on core c, if any, leaves it. */
    method Unschedule(time: nat, c: nat)
      requires Shape(Tables()) && c < ncores
      modifies `info, `log
      ensures Tables() == Scheduler.Unschedule(old(Tables()), time, c)
    {
      var current := coreThread[c];
      if current != NONE {
        info := info[current := info[current].(core := NONE)];
        info := info[current := info[current].(lastOut := time + c * FS_PER_PS)];
        MoveThread(current, NONE);
      }
    }

    /** The chosen thread, if any, takes core c. */
    method Install(time: nat, c: nat, chosen: int)
      requires Shape(Tables()) && c < ncores && NONE <= chosen < |info|
      modifies `info, `coreThread, `log
      ensures Tables() == Scheduler.Install(old(Tables()), time, c, chosen)
    {
      coreThread := coreThread[c := chosen];
      if chosen != NONE {
        if info[chosen].core != NONE {
          coreThread := coreThread[info[chosen].core := NONE];
        }
        info := info[chosen := info[chosen].(core := c)];
        info := info[chosen := info[chosen].(lastIn := time)];
        MoveThread(chosen, c);
      }
    }

    method Reschedule(time: nat, c: nat)
      requires Shape(Tables()) && c < ncores
      modifies this
      ensures Tables() == Scheduler.Reschedule(old(Tables()), time, c)
    {
      var current := coreThread[c];
      if current != NONE && phase[current] == Initializing {
        return;
      }
      var chosen := ChooseThread(c, time);
      if current != chosen {
        Unschedule(time, c);
        Install(time, c, chosen);
      }
      quantumLeft := quantumLeft[c := quantum];
    }

    method RescheduleFree(t: nat, time: nat)
      requires Shape(Tables()) && t < |info|
      modifies this
      ensures Tables() == Scheduler.RescheduleFree(old(Tables()), t, time)
    {
      var free := FindFreeCoreForThread(t);
      if free != NONE {
        Reschedule(time, free);
      }
    }

    /** The initial affinity, asked for only when the thread has none yet, comes from the derived class. */
    method ThreadCreate(t: nat, cores: set<nat>) returns (core: int)
      requires Shape(Tables()) && t < |info|
      modifies this
      ensures Tables() == Scheduler.ThreadCreate(old(Tables()), t, cores)
      ensures core == info[t].core
    {
      phase := phase[t := Initializing];
      if !info[t].hasAffinity {
        info := info[t := info[t].(affinity := cores, hasAffinity := cores != {})];
      } else {
        info := info[t := info[t]];
      }
      var free := FindFreeCoreForThread(t);
      info := info[t := info[t].(core := free)];
      if free != NONE {
        coreThread := coreThread[free := t];
        quantumLeft := quantumLeft[free := quantum];
        log := log + [Entry(t, free)];
      }
      return free;
    }

    method ThreadYield(t: nat, time: nat)
      requires Shape(Tables()) && t < |info|
      modifies this
      ensures Tables() == Scheduler.ThreadYield(old(Tables()), t, time)
    {
      var c := info[t].core;
      if c != NONE {
        quantumLeft := quantumLeft[c := 0];
        Reschedule(time, c);
        if c !in info[t].affinity {
          RescheduleFree(t, time);
        }
      }
    }

    method AddAffinity(t: nat, c: nat)
      requires t < |info|
      modifies `info
      ensures info == old(info)[t := old(info)[t].(affinity := old(info)[t].affinity + {c}, hasAffinity := true)]
    {
      info := info[t := info[t].(affinity := info[t].affinity + {c}, hasAffinity := true)];
    }

    /** Without a mask all cores are added to the affinity; a mask replaces it. */
    method SetMask(t: nat, mask: Option<set<nat>>)
      requires Shape(Tables()) && t < |info| && (mask.Some? ==> forall c | c in mask.value :: c < ncores)
      modifies `info
      ensures Tables() == ChangeAffinity(old(Tables()), t, mask)
    {
      info := info[t := info[t].(explicit := true)];
      if mask.Some? {
        info := info[t := info[t].(affinity := {})];
      }
      ghost var start := info[t];
      var c := 0;
      ghost var added: set<nat> := {};
      assert start.affinity + added == start.affinity;
      while c < ncores
        invariant 0 <= c <= ncores && |info| == |old(info)|
        invariant forall d: nat :: d in added <==> d < c && (mask.None? || d in mask.value)
        invariant info == old(info)[t := start.(affinity := start.affinity + added, hasAffinity := start.hasAffinity
                                                || added != {})]
      {
        if mask.None? || c in mask.value {
          AddAffinity(t, c);
          assert (start.affinity + added) + {c} == start.affinity + (added + {c});
          added := added + {c};
        }
        c := c + 1;
      }
      assert mask.Some? ==> added == mask.value && start.affinity + added == added;
      assert mask.None? ==> added == CoresBelow(ncores) && (added != {} <==> ncores > 0) by {
        if ncores > 0 { assert mask.None? ==> 0 in added; }
      }
    }

    method ThreadSetAffinity(caller: int, t: nat, mask: Option<set<nat>>, time: nat)
      requires Shape(Tables()) && t < |info| && (mask.Some? ==> forall c | c in mask.value :: c < ncores)
      modifies this
      ensures Tables() == Scheduler.ThreadSetAffinity(old(Tables()), caller, t, mask, time)
    {
      SetMask(t, mask);
      var c := info[t].core;
      if phase[t] == Absent {
        return;
      }
      if t == caller {
        ThreadYield(t, time);
      } else if c != NONE && c !in info[t].affinity {
        quantumLeft := quantumLeft[c := 0];
      } else if runnable[t] && c == NONE {
        RescheduleFree(t, time);
      }
    }

    method ThreadStart(t: nat, time: nat)
      requires Shape(Tables()) && t < |info|
      modifies this
      ensures Tables() == Scheduler.ThreadStart(old(Tables()), t, time)
    {
      phase := phase[t := Started];
      runnable := runnable[t := true];
      RescheduleFree(t, time);
    }

    method ThreadStall(t: nat, unscheduled: bool, time: nat)
      requires Shape(Tables()) && t < |info|
      modifies this
      ensures Tables() == Scheduler.ThreadStall(old(Tables()), t, unscheduled, time)
      ensures if unscheduled then Tables() == old(Tables()) else runnable == old(runnable)[t := false]
      ensures Inv(old(Tables())) && old(phase[t]) == Started && !unscheduled ==> HasStopped(old(Tables()), Tables(), t)
    {
      if !unscheduled {
        ThreadExit(t, time);
      }
    }

    method ThreadExit(t: nat, time: nat)
      requires Shape(Tables()) && t < |info|
      modifies this
      ensures Tables() == ThreadStop(old(Tables()), t, time) && runnable == old(runnable)[t := false]
      ensures Inv(old(Tables())) && old(phase[t]) == Started ==> HasStopped(old(Tables()), Tables(), t)
    {
      if Inv(Tables()) && phase[t] == Started {
        StopStops(Tables(), t, time);
      }
      runnable := runnable[t := false];
      if info[t].core != NONE {
        Reschedule(time, info[t].core);
      }
    }

    method ThreadResume(t: nat, time: nat)
      requires Shape(Tables()) && t < |info|
      modifies this
      ensures Tables() == Scheduler.ThreadResume(old(Tables()), t, time)
    {
      runnable := runnable[t := true];
      RescheduleFree(t, time);
    }

    method PeriodicCore(time: nat, delta: nat, c: nat)
      requires Shape(Tables()) && c < ncores
      modifies this
      ensures Tables() == Scheduler.PeriodicCore(old(Tables()), time, delta, c)
    {
      if delta > quantumLeft[c] || coreThread[c] == NONE {
        Reschedule(time, c);
      } else {
        quantumLeft := quantumLeft[c := quantumLeft[c] - delta];
      }
    }

    method Periodic(time: nat)
      requires Shape(Tables()) && lastPeriodic <= time
      modifies this
      ensures Tables() == Scheduler.Periodic(old(Tables()), time)
    {
      var delta := time - lastPeriodic;
      var c := 0;
      while c < ncores
        invariant 0 <= c <= ncores
        invariant Shape(Tables())
        invariant PeriodicFrom(Tables(), time, delta, c) == PeriodicFrom(old(Tables()), time, delta, 0)
      {
        PeriodicCore(time, delta, c);
        c := c + 1;
      }
      lastPeriodic := time;
    }
  }
}
