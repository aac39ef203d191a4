/** Time sharing driven by the periodic hook alone: who gets a core when, over runs of ticks. */
module SchedulerTicks {
  import opened Scheduler
  import opened SchedulerProofs
  import opened SchedulerFairness

  /** Core c is shared by the ring, and has this much of its quantum left. */
  ghost predicate Turning(s: State, c: nat, ring: seq<nat>, limit: int, left: nat) {
    Inv(s) && |ring| > 0 && Sharing(s, c, ring, limit) && s.quantumLeft[c] == left
  }

  /** What some time does to the ring, the quantum left, and the latest scheduling time on record. */
  function RingAfter(ring: seq<nat>, delta: nat, left: nat): seq<nat>
    requires |ring| > 0
  {
    if delta > left then Rotate(ring) else ring
  }

  function LeftAfter(quantum: nat, delta: nat, left: nat): nat {
    if delta > left then quantum else left - delta
  }

  function RecordedAfter(limit: int, c: nat, time: nat, delta: nat, left: nat): int {
    if delta > left then PS(time) + c else limit
  }

  // ---- One tick

  lemma QuantumSpent(s: State, r: State, c: nat, d: nat, ring: seq<nat>, limit: int)
    requires Sharing(s, c, ring, limit) && d < s.ncores && Shape(r) && r == s.(quantumLeft := r.quantumLeft)
    ensures Sharing(r, c, ring, limit)
  {
    SharingFrame(s, r, c, ring, limit);
  }

  lemma OtherCoreTicks(s: State, c: nat, ring: seq<nat>, limit: int, left: nat, time: nat, delta: nat, d: nat)
    requires Turning(s, c, ring, limit, left) && d < s.ncores && d != c
    ensures var r := PeriodicCore(s, time, delta, d); Turning(r, c, ring, limit, left) && r.quantum == s.quantum
  {
    PeriodicCoreKeeps(s, time, delta, d);
    if delta > s.quantumLeft[d] || s.coreThread[d] == NONE {
      OtherCoreLeavesRing(s, c, ring, limit, d, time);
      RescheduleMirrors(s, time, d);
    } else {
      QuantumSpent(s, PeriodicCore(s, time, delta, d), c, d, ring, limit);
    }
  }

  lemma RescheduleRefills(s: State, c: nat, time: nat)
    requires Shape(s) && c < s.ncores && s.coreThread[c] != NONE && s.phase[s.coreThread[c]] == Started
    ensures Reschedule(s, time, c).quantumLeft[c] == s.quantum && Reschedule(s, time, c).quantum == s.quantum
  {
  }

  lemma OwnCoreTurns(s: State, c: nat, ring: seq<nat>, limit: int, left: nat, time: nat)
    requires Turning(s, c, ring, limit, left) && limit < PS(time)
    ensures var r := Reschedule(s, time, c);
            Turning(r, c, Rotate(ring), PS(time) + c, s.quantum)
            && r.quantum == s.quantum
  {
    StepTurnsRing(s, c, ring, limit, Step(c, time));
    assert s.phase[ring[0]] == Started;
    RescheduleRefills(s, c, time);
  }

  lemma OwnCoreSpends(s: State, c: nat, ring: seq<nat>, limit: int, left: nat, time: nat, delta: nat)
    requires Turning(s, c, ring, limit, left) && delta <= left
    ensures var r := PeriodicCore(s, time, delta, c); Turning(r, c, ring, limit, left - delta) && r.quantum == s.quantum
  {
    PeriodicCoreKeeps(s, time, delta, c);
    QuantumSpent(s, PeriodicCore(s, time, delta, c), c, c, ring, limit);
  }

  lemma OwnCoreTicks(s: State, c: nat, ring: seq<nat>, limit: int, left: nat, time: nat, delta: nat)
    requires Turning(s, c, ring, limit, left) && (delta > left ==> limit < PS(time))
    ensures var r := PeriodicCore(s, time, delta, c);
            && Turning(r, c, RingAfter(ring, delta, left), RecordedAfter(limit, c, time, delta, left),
                       LeftAfter(s.quantum, delta, left))
            && r.quantum == s.quantum
  {
    if delta > left {
      OwnCoreTurns(s, c, ring, limit, left, time);
    } else {
      OwnCoreSpends(s, c, ring, limit, left, time, delta);
    }
  }

  /** What the tick of each of the cores from d up to n keeps, the ticks of them all keep. */
  lemma {:induction false} CoresKeep(keeps: State -> bool, s: State, time: nat, delta: nat, d: nat, n: nat)
    requires Shape(s) && keeps(s) && d <= n <= s.ncores
    requires forall r, e: nat {:trigger PeriodicCore(r, time, delta, e)} |
               Shape(r) && r.ncores == s.ncores && d <= e < n && keeps(r) :: keeps(PeriodicCore(r, time, delta, e))
    ensures var r := CoresUpTo(s, time, delta, d, n);
            keeps(r) && r.ncores == s.ncores && PeriodicFrom(s, time, delta, d) == PeriodicFrom(r, time, delta, n)
    decreases n - d
  {
    if d < n {
      CoresKeep(keeps, PeriodicCore(s, time, delta, d), time, delta, d + 1, n);
    }
  }

  /** The ticks of the cores from d up to n. */
  function CoresUpTo(s: State, time: nat, delta: nat, d: nat, n: nat): (r: State)
    requires Shape(s) && d <= n <= s.ncores
    ensures Shape(r)
    decreases n - d
  {
    if d == n then s else CoresUpTo(PeriodicCore(s, time, delta, d), time, delta, d + 1, n)
  }

  ghost function TurningIn(c: nat, ring: seq<nat>, limit: int, left: nat, quantum: nat): State -> bool {
    (r: State) => Turning(r, c, ring, limit, left) && r.quantum == quantum
  }

  lemma OthersTick(s: State, c: nat, ring: seq<nat>, limit: int, left: nat, time: nat, delta: nat, d: nat, n: nat)
    requires Turning(s, c, ring, limit, left) && d <= n <= s.ncores && !(d <= c < n)
    ensures var r := CoresUpTo(s, time, delta, d, n);
            && Turning(r, c, ring, limit, left) && r.quantum == s.quantum && r.ncores == s.ncores
            && PeriodicFrom(s, time, delta, d) == PeriodicFrom(r, time, delta, n)
  {
    var keeps := TurningIn(c, ring, limit, left, s.quantum);
    forall r, e: nat | Shape(r) && r.ncores == s.ncores && d <= e < n && keeps(r)
      ensures keeps(PeriodicCore(r, time, delta, e))
    {
      OtherCoreTicks(r, c, ring, limit, left, time, delta, e);
    }
    CoresKeep(keeps, s, time, delta, d, n);
  }

  /** A tick: the cores below c, core c, and the cores above. */
  lemma CoresTick(s: State, c: nat, ring: seq<nat>, limit: int, left: nat, time: nat, delta: nat)
    requires Turning(s, c, ring, limit, left) && (delta > left ==> limit < PS(time))
    ensures var r := PeriodicFrom(s, time, delta, 0);
            && Turning(r, c, RingAfter(ring, delta, left), RecordedAfter(limit, c, time, delta, left),
                       LeftAfter(s.quantum, delta, left))
            && r.quantum == s.quantum
  {
    OthersTick(s, c, ring, limit, left, time, delta, 0, c);
    var s1 := CoresUpTo(s, time, delta, 0, c);
    OwnCoreTicks(s1, c, ring, limit, left, time, delta);
    var s2 := PeriodicCore(s1, time, delta, c);
    assert PeriodicFrom(s1, time, delta, c) == PeriodicFrom(s2, time, delta, c + 1);
    OthersTick(s2, c, RingAfter(ring, delta, left), RecordedAfter(limit, c, time, delta, left),
               LeftAfter(s.quantum, delta, left),
               time, delta, c + 1, s2.ncores);
    var s3 := CoresUpTo(s2, time, delta, c + 1, s2.ncores);
    assert PeriodicFrom(s3, time, delta, s3.ncores) == s3;
  }

  lemma TimePasses(s: State, r: State, c: nat, ring: seq<nat>, limit: int, left: nat)
    requires Turning(s, c, ring, limit, left) && r == s.(lastPeriodic := r.lastPeriodic)
    ensures Turning(r, c, ring, limit, left)
  {
    SharingFrame(s, r, c, ring, limit);
    forall d | 0 <= d < r.ncores
      ensures CoreFine(r, d)
    {
      assert CoreFine(s, d);
    }
  }

  lemma PeriodicIs(s: State, time: nat, delta: nat)
    requires Shape(s) && s.lastPeriodic + delta == time
    ensures Periodic(s, time) == PeriodicFrom(s, time, delta, 0).(lastPeriodic := time)
  {
  }

  lemma TickTurns(s: State, c: nat, ring: seq<nat>, limit: int, left: nat, time: nat, delta: nat, r: State)
    requires Turning(s, c, ring, limit, left) && (delta > left ==> limit < PS(time))
    requires r == PeriodicFrom(s, time, delta, 0).(lastPeriodic := time)
    ensures Turning(r, c, RingAfter(ring, delta, left), RecordedAfter(limit, c, time, delta, left),
                    LeftAfter(s.quantum, delta, left))
    ensures r.quantum == s.quantum && r.lastPeriodic == time
  {
    CoresTick(s, c, ring, limit, left, time, delta);
    TimePasses(PeriodicFrom(s, time, delta, 0), r, c, RingAfter(ring, delta, left),
               RecordedAfter(limit, c, time, delta, left),
               LeftAfter(s.quantum, delta, left));
  }

  // ---- Runs of ticks

  /** Ticks come in order, never more than `gap` apart. */
  ghost predicate Ticks(last: nat, gap: nat, times: seq<nat>)
    decreases |times|
  {
    times == [] || (last <= times[0] <= last + gap && Ticks(times[0], gap, times[1..]))
  }

  function RunTicks(s: State, times: seq<nat>): (r: State)
    requires Shape(s)
    ensures Shape(r) && r.ncores == s.ncores
    decreases |times|
  {
    if times == [] || times[0] < s.lastPeriodic then s else RunTicks(Periodic(s, times[0]), times[1..])
  }

  /** The times at which a core with this much of its quantum left is given to the next thread. */
  function Turns(last: nat, quantum: nat, left: nat, times: seq<nat>): (n: nat)
    decreases |times|
  {
    if times == [] || times[0] < last then 0
    else
      var delta := times[0] - last;
      (if delta > left then 1 else 0) + Turns(times[0], quantum, LeftAfter(quantum, delta, left), times[1..])
  }

  /** The core cannot be given away before all scheduling times on record are past. */
  ghost predicate Past(s: State, left: nat, limit: int) {
    limit < PS(s.lastPeriodic + left + 1)
  }

  /** A quantum covers the penalty of core c, one picosecond for each lower core. */
  predicate CoversPenalty(quantum: nat, c: nat) {
    (c + 1) * FS_PER_PS <= quantum + 1
  }

  lemma LaterInPS(a: nat, b: nat)
    requires a <= b
    ensures PS(a) <= PS(b)
  {
  }

  lemma PenaltyPast(time: nat, quantum: nat, c: nat)
    requires CoversPenalty(quantum, c)
    ensures PS(time) + c < PS(time + quantum + 1)
  {
    PenaltyInPS(time, c + 1);
    LaterInPS(time + (c + 1) * FS_PER_PS, time + quantum + 1);
  }

  lemma PastAfterTick(s: State, r: State, c: nat, limit: int, left: nat, time: nat)
    requires s.lastPeriodic <= time && Past(s, left, limit) && CoversPenalty(s.quantum, c) && r.lastPeriodic == time
    ensures time - s.lastPeriodic > left ==> limit < PS(time)
    ensures var delta := time - s.lastPeriodic; Past(r, LeftAfter(s.quantum, delta, left),
                                                     RecordedAfter(limit, c, time, delta, left))
  {
    if time - s.lastPeriodic > left {
      LaterInPS(s.lastPeriodic + left + 1, time);
      PenaltyPast(time, s.quantum, c);
    }
  }

  lemma TurnedTick(ring: seq<nat>, last: nat, quantum: nat, left: nat, times: seq<nat>)
    requires |ring| > 0 && times != [] && last <= times[0]
    ensures var delta := times[0] - last;
            Turned(ring, Turns(last, quantum, left, times)) ==
            Turned(RingAfter(ring, delta, left), Turns(times[0], quantum, LeftAfter(quantum, delta, left), times[1..]))
  {
  }

  /** Over every run of ticks, the ring has turned as often as the quantum ran out. */
  lemma {:induction false} TicksTurnRing(s: State, c: nat, ring: seq<nat>, limit: int, left: nat, gap: nat,
                                         times: seq<nat>)
    returns (limit': int, left': nat)
    requires Turning(s, c, ring, limit, left) && Past(s, left, limit) && CoversPenalty(s.quantum, c)
             && Ticks(s.lastPeriodic, gap, times)
    ensures Turning(RunTicks(s, times), c, Turned(ring, Turns(s.lastPeriodic, s.quantum, left, times)), limit', left')
    decreases |times|
  {
    if times == [] {
      limit', left' := limit, left;
    } else {
      var time := times[0];
      var delta, r := time - s.lastPeriodic, Periodic(s, time);
      assert r.lastPeriodic == time;
      PastAfterTick(s, r, c, limit, left, time);
      PeriodicIs(s, time, delta);
      TickTurns(s, c, ring, limit, left, time, delta, r);
      TurnedTick(ring, s.lastPeriodic, s.quantum, left, times);
      limit', left' := TicksTurnRing(r, c, RingAfter(ring, delta, left), RecordedAfter(limit, c, time, delta, left),
                                     LeftAfter(s.quantum, delta, left), gap, times[1..]);
    }
  }

  // ---- How soon

  function Rounds(n: nat, period: nat): nat {
    if n == 0 then 0 else period + Rounds(n - 1, period)
  }

  lemma {:induction false} MoreRounds(m: nat, n: nat, period: nat)
    requires m <= n
    ensures Rounds(m, period) <= Rounds(n, period)
    decreases n
  {
    if m < n {
      MoreRounds(m, n - 1, period);
    }
  }

  /** The time of the last tick. */
  function LastTick(last: nat, times: seq<nat>): nat {
    if times == [] then last else times[|times| - 1]
  }

  /** By its n-th turn a core has been at it for no more than n quanta, each with the gap to the tick that ends it. */
  lemma {:induction false} TurnsBound(last: nat, quantum: nat, left: nat, gap: nat, times: seq<nat>)
    requires Ticks(last, gap, times)
    ensures LastTick(last, times) <= last + left + Rounds(Turns(last, quantum, left, times), quantum + gap)
    decreases |times|
  {
    if times != [] {
      var delta := times[0] - last;
      TurnsBound(times[0], quantum, LeftAfter(quantum, delta, left), gap, times[1..]);
      assert LastTick(last, times) == LastTick(times[0], times[1..]);
    }
  }

  /** The ticks up to the m-th turn. */
  lemma {:induction false} TicksWithTurns(last: nat, quantum: nat, left: nat, gap: nat, times: seq<nat>, m: nat)
    returns (k: nat)
    requires Ticks(last, gap, times) && m <= Turns(last, quantum, left, times)
    ensures k <= |times| && Turns(last, quantum, left, times[..k]) == m && Ticks(last, gap, times[..k])
            && (m > 0 ==> k > 0)
    decreases |times|
  {
    if m == 0 {
      k := 0;
    } else {
      var delta := times[0] - last;
      var rest := TicksWithTurns(times[0], quantum, LeftAfter(quantum, delta, left), gap, times[1..],
                                 if delta > left then m - 1 else m);
      k := rest + 1;
      assert times[..k][1..] == times[1..][..rest];
    }
  }

  /** Within the time of |ring| quanta, each with a gap, every thread of the ring gets the core. */
  lemma RingIsServed(s: State, c: nat, ring: seq<nat>, limit: int, left: nat, gap: nat, times: seq<nat>, t: nat)
    returns (k: nat)
    requires Turning(s, c, ring, limit, left) && Past(s, left, limit) && CoversPenalty(s.quantum, c)
             && Ticks(s.lastPeriodic, gap, times)
    requires LastTick(s.lastPeriodic, times) > s.lastPeriodic + left + Rounds(|ring| - 1, s.quantum + gap) && t in ring
    ensures 0 < k <= |times| && RunTicks(s, times[..k]).coreThread[c] == t
  {
    var n := Turns(s.lastPeriodic, s.quantum, left, times);
    TurnsBound(s.lastPeriodic, s.quantum, left, gap, times);
    if n < |ring| {
      MoreRounds(n, |ring| - 1, s.quantum + gap);
    }
    var j :| 0 <= j < |ring| && ring[j] == t;
    var m := if j == 0 then |ring| else j;
    k := TicksWithTurns(s.lastPeriodic, s.quantum, left, gap, times, m);
    var limit', left' := TicksTurnRing(s, c, ring, limit, left, gap, times[..k]);
    TurnedSplit(ring, m);
  }

  // ---- From a set of threads to the ring

  /** In the order in which they have waited, the longest first. */
  ghost predicate ByWait(s: State, queue: seq<nat>) {
    Within(s, queue) && forall i, j | 0 <= i < j < |queue| :: WaitedLonger(s, queue[i], queue[j])
  }

  lemma {:induction false} InsertByWait(s: State, queue: seq<nat>, t: nat) returns (longer: seq<nat>)
    requires ByWait(s, queue) && t < |s.info| && t !in queue
    ensures ByWait(s, longer) && |longer| == |queue| + 1 && forall u :: u in longer <==> u in queue || u == t
    decreases |queue|
  {
    if queue == [] || WaitedLonger(s, t, queue[0]) {
      longer := [t] + queue;
      assert forall j | 1 <= j < |queue| :: WaitedLonger(s, queue[0], queue[j]);
    } else {
      var head, tail := queue[0], queue[1..];
      assert queue == [head] + tail;
      var rest := InsertByWait(s, tail, t);
      longer := [head] + rest;
      forall j | 0 <= j < |rest|
        ensures WaitedLonger(s, head, rest[j])
      {
        assert rest[j] in rest;
        if rest[j] in tail {
          var i :| 0 <= i < |tail| && tail[i] == rest[j];
          assert WaitedLonger(s, queue[0], queue[i + 1]);
        }
      }
    }
  }

  lemma {:induction false} SortByWait(s: State, waiting: set<nat>) returns (queue: seq<nat>)
    requires forall t | t in waiting :: t < |s.info|
    ensures ByWait(s, queue) && |queue| == |waiting| && forall t :: t in queue <==> t in waiting
    decreases waiting
  {
    if waiting == {} {
      queue := [];
    } else {
      var t :| t in waiting;
      var rest := SortByWait(s, waiting - {t});
      queue := InsertByWait(s, rest, t);
    }
  }

  /**
   * These threads, and no other runnable ones, may run on core c and nowhere else; one of them runs, the others wait.
   */
  ghost predicate SharedBy(s: State, c: nat, threads: set<nat>, limit: int) {
    && Shape(s) && c < s.ncores && s.coreThread[c] in threads
    && (forall t | t in threads ::
          && t < |s.info| && s.runnable[t] && s.phase[t] == Started && s.info[t].affinity == {c}
          && PS(s.info[t].lastIn) <= limit && PS(s.info[t].lastOut) <= limit
          && (t != s.coreThread[c] ==> s.info[t].core == NONE))
    && (forall t: nat | t < |s.info| && t !in threads :: !(c in s.info[t].affinity && s.runnable[t]))
  }

  lemma RingIsDistinct(s: State, running: nat, queue: seq<nat>)
    requires ByWait(s, queue) && running !in queue
    ensures Distinct([running] + queue)
  {
    var ring := [running] + queue;
    forall i, j | 0 <= i < j < |ring|
      ensures ring[i] != ring[j]
    {
      if i > 0 {
        assert WaitedLonger(s, queue[i - 1], queue[j - 1]);
      } else {
        assert ring[j] == queue[j - 1];
      }
    }
  }

  lemma RingIsPinned(s: State, c: nat, threads: set<nat>, limit: int, ring: seq<nat>)
    requires SharedBy(s, c, threads, limit) && |ring| > 0 && Distinct(ring) && forall t :: t in ring <==> t in threads
    ensures Pinned(s, c, ring)
  {
    forall i | 0 <= i < |ring|
      ensures ring[i] in threads
    {
      assert ring[i] in ring;
    }
  }

  lemma RingIsQueued(s: State, c: nat, threads: set<nat>, limit: int, running: nat, queue: seq<nat>)
    requires SharedBy(s, c, threads, limit) && running == s.coreThread[c] && ByWait(s, queue)
    requires forall t | t in queue :: t in threads && t != running
    ensures var ring := [running] + queue; Within(s, ring) && Queued(s, ring, 1, limit)
  {
    var ring := [running] + queue;
    forall i | 1 <= i < |ring|
      ensures ring[i] == queue[i - 1] && ring[i] in threads && ring[i] != running
    {
      assert queue[i - 1] in queue;
    }
    forall i, j | 1 <= i < j < |ring|
      ensures WaitedLonger(s, ring[i], ring[j])
    {
      assert WaitedLonger(s, queue[i - 1], queue[j - 1]);
    }
  }

  lemma RingOf(s: State, c: nat, threads: set<nat>, limit: int) returns (ring: seq<nat>)
    requires Inv(s) && SharedBy(s, c, threads, limit)
    ensures Sharing(s, c, ring, limit) && |ring| == |threads| && forall t :: t in ring <==> t in threads
  {
    var running: nat := s.coreThread[c];
    var queue := SortByWait(s, threads - {running});
    ring := [running] + queue;
    RingIsDistinct(s, running, queue);
    RingIsPinned(s, c, threads, limit, ring);
    RingIsQueued(s, c, threads, limit, running, queue);
    assert s.info[running].core == c;
  }

  /**
   * No starvation, by the clock. Threads that share one core, whatever the other cores do: within the time of as many
   * quanta as there are threads, each with the gap between two ticks, every one of them gets the core.
   */
  lemma NobodyStarves(s: State, c: nat, threads: set<nat>, limit: int, gap: nat, times: seq<nat>, t: nat)
    returns (k: nat)
    requires Inv(s) && SharedBy(s, c, threads, limit) && CoversPenalty(s.quantum, c)
    requires Past(s, s.quantumLeft[c], limit) && Ticks(s.lastPeriodic, gap, times)
    requires LastTick(s.lastPeriodic, times) > s.lastPeriodic + s.quantumLeft[c]
             + Rounds(|threads| - 1, s.quantum + gap) && t in threads
    ensures 0 < k <= |times| && RunTicks(s, times[..k]).coreThread[c] == t
  {
    var ring := RingOf(s, c, threads, limit);
    k := RingIsServed(s, c, ring, limit, s.quantumLeft[c], gap, times, t);
  }
}
