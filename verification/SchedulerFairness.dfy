/** Time sharing of one core among the threads pinned to it. */
module SchedulerFairness {
  import opened Scheduler
  import opened SchedulerProofs

  ghost predicate Distinct(ring: seq<nat>) {
    forall i, j | 0 <= i < j < |ring| :: ring[i] != ring[j]
  }

  /** Thread a has waited longer than b, or as long with a lower id. */
  ghost predicate WaitedLonger(s: State, a: nat, b: nat)
    requires a < |s.info| && b < |s.info|
  {
    PS(s.info[a].lastOut) < PS(s.info[b].lastOut) || (PS(s.info[a].lastOut) == PS(s.info[b].lastOut) && a < b)
  }

  ghost predicate Within(s: State, ring: seq<nat>) {
    forall i | 0 <= i < |ring| :: ring[i] < |s.info|
  }

  /** The threads of the ring, and no other runnable thread, may run on core c, and they may run nowhere else. */
  ghost predicate Pinned(s: State, c: nat, ring: seq<nat>)
    requires Shape(s)
  {
    && |ring| > 0 && Distinct(ring)
    && Within(s, ring)
    && (forall i | 0 <= i < |ring| ::
          s.runnable[ring[i]] && s.phase[ring[i]] == Started && s.info[ring[i]].affinity == {c})
    && (forall t: nat | t < |s.info| && t !in ring :: !(c in s.info[t].affinity && s.runnable[t]))
  }

  /**
   * Threads from position `from` on wait in the order of the ring, none of them put aside later than `limit`
   * picoseconds.
   */
  ghost predicate Queued(s: State, ring: seq<nat>, from: nat, limit: int)
    requires Within(s, ring)
  {
    && (forall i | from <= i < |ring| :: s.info[ring[i]].core == NONE && PS(s.info[ring[i]].lastOut) <= limit)
    && (forall i, j | from <= i < j < |ring| :: WaitedLonger(s, ring[i], ring[j]))
  }

  /** The first thread of the ring runs on core c and the others queue behind it. */
  ghost predicate Sharing(s: State, c: nat, ring: seq<nat>, limit: int) {
    && Shape(s) && c < s.ncores && Pinned(s, c, ring)
    && s.coreThread[c] == ring[0] && s.info[ring[0]].core == c && PS(s.info[ring[0]].lastIn) <= limit
    && Queued(s, ring, 1, limit)
  }

  function Rotate(ring: seq<nat>): seq<nat>
    requires |ring| > 0
  {
    ring[1..] + [ring[0]]
  }

  lemma CandidatesAreRing(s: State, c: nat, ring: seq<nat>, limit: int, t: nat)
    requires Sharing(s, c, ring, limit) && t < |s.info|
    ensures Candidate(s, t, c) <==> t in ring
  {
    if t in ring {
      var i :| 0 <= i < |ring| && ring[i] == t;
      assert i >= 1 ==> s.info[ring[i]].core == NONE;
    }
  }

  lemma HeadScoresBest(s: State, c: nat, ring: seq<nat>, limit: int, time: nat, t: nat)
    requires Sharing(s, c, ring, limit) && limit < PS(time) && |ring| > 1 && t in ring && t != ring[1]
    ensures Score(s, t, time) < Score(s, ring[1], time) || (Score(s, t, time) == Score(s, ring[1], time) && ring[1] < t)
  {
    var i :| 0 <= i < |ring| && ring[i] == t;
    assert s.info[ring[1]].core == NONE;
    if i > 1 {
      assert s.info[ring[i]].core == NONE && WaitedLonger(s, ring[1], ring[i]);
    }
  }

  /** Once every scheduling time is in the past, the choice is the longest waiting thread of the ring. */
  lemma PickIsHead(s: State, c: nat, ring: seq<nat>, limit: int, time: nat)
    requires Sharing(s, c, ring, limit) && limit < PS(time)
    ensures Pick(s, c, time) == if |ring| > 1 then ring[1] else ring[0]
  {
    PickAmongIsBest(s, c, time, |s.info|);
    var p := Pick(s, c, time);
    CandidatesAreRing(s, c, ring, limit, ring[0]);
    CandidatesAreRing(s, c, ring, limit, p);
    if |ring| > 1 {
      assert ring[1] in ring;
      CandidatesAreRing(s, c, ring, limit, ring[1]);
      if p != ring[1] {
        HeadScoresBest(s, c, ring, limit, time, p);
      }
    } else {
      assert ring == [ring[0]];
    }
  }

  lemma PenaltyInPS(time: nat, c: nat)
    ensures PS(time + c * FS_PER_PS) == PS(time) + c
  {
  }

  lemma RotatePinned(s: State, r: State, c: nat, ring: seq<nat>)
    requires Shape(s) && Shape(r) && Pinned(s, c, ring) && SameOtherwise(s, r)
    ensures Pinned(r, c, Rotate(ring))
  {
    var turned := Rotate(ring);
    forall i | 0 <= i < |turned|
      ensures turned[i] == ring[if i == |ring| - 1 then 0 else i + 1]
    {
    }
    assert forall t | t !in turned :: t !in ring by {
      assert forall t :: t in turned <==> t in ring[1..] || t == ring[0];
      assert ring == [ring[0]] + ring[1..];
    }
  }

  /** The thread records after core c went from the head of the ring to the next thread. */
  ghost predicate HandedOver(s: State, r: State, c: nat, ring: seq<nat>, time: nat)
    requires Within(s, ring) && |ring| > 1
  {
    var out, in_ := ring[0], ring[1];
    r.info == s.info[out := s.info[out].(core := NONE, lastOut := time + c * FS_PER_PS)]
                    [in_ := s.info[in_].(core := c, lastIn := time)]
  }

  lemma RotateQueued(s: State, r: State, c: nat, ring: seq<nat>, limit: int, time: nat)
    requires Sharing(s, c, ring, limit) && limit < PS(time) && |ring| > 1 && HandedOver(s, r, c, ring, time)
             && Within(r, Rotate(ring))
    ensures Queued(r, Rotate(ring), 1, PS(time) + c)
  {
    PenaltyInPS(time, c);
    var turned, last := Rotate(ring), |ring| - 1;
    forall i | 1 <= i < last
      ensures r.info[turned[i]] == s.info[ring[i + 1]] && s.info[ring[i + 1]].core == NONE
              && PS(r.info[turned[i]].lastOut) <= limit
    {
      assert turned[i] == ring[i + 1];
    }
    assert turned[last] == ring[0];
    forall i, j | 1 <= i < j < |turned|
      ensures WaitedLonger(r, turned[i], turned[j])
    {
      assert r.info[turned[i]] == s.info[ring[i + 1]];
      if j < last {
        assert WaitedLonger(s, ring[i + 1], ring[j + 1]);
      }
    }
  }

  lemma RescheduleHandsOver(s: State, c: nat, ring: seq<nat>, limit: int, time: nat)
    requires Sharing(s, c, ring, limit) && limit < PS(time)
    ensures var r := Reschedule(s, time, c);
            && SameOtherwise(s, r) && r.coreThread[c] == Rotate(ring)[0]
            && (if |ring| > 1 then HandedOver(s, r, c, ring, time) else r.info == s.info)
  {
    PickIsHead(s, c, ring, limit, time);
    if |ring| > 1 {
      assert s.info[ring[1]].core == NONE;
    }
  }

  /** One rescheduling turns the ring by one place: the head of the queue runs, the thread that ran joins the tail. */
  lemma RescheduleRotates(s: State, c: nat, ring: seq<nat>, limit: int, time: nat)
    requires Sharing(s, c, ring, limit) && limit < PS(time)
    ensures Sharing(Reschedule(s, time, c), c, Rotate(ring), PS(time) + c)
  {
    var r := Reschedule(s, time, c);
    RescheduleHandsOver(s, c, ring, limit, time);
    RotatePinned(s, r, c, ring);
    if |ring| > 1 {
      RotateQueued(s, r, c, ring, limit, time);
    } else {
      assert Rotate(ring) == ring;
    }
  }

  lemma SharingFrame(s: State, r: State, c: nat, ring: seq<nat>, limit: int)
    requires Sharing(s, c, ring, limit) && Shape(r) && SameOtherwise(s, r) && r.coreThread[c] == s.coreThread[c]
    requires forall i | 0 <= i < |ring| :: r.info[ring[i]] == s.info[ring[i]]
    ensures Sharing(r, c, ring, limit)
  {
    forall i, j | 1 <= i < j < |ring|
      ensures WaitedLonger(r, ring[i], ring[j])
    {
      assert WaitedLonger(s, ring[i], ring[j]);
    }
  }

  lemma RescheduleFrame(s: State, time: nat, c: nat, t: nat)
    requires Shape(s) && Mirror(s) && c < s.ncores && t < |s.info| && t != s.coreThread[c] && t != Pick(s, c, time)
    ensures Reschedule(s, time, c).info[t] == s.info[t]
  {
  }

  lemma RingStaysOff(s: State, c: nat, ring: seq<nat>, limit: int, other: nat, time: nat, i: nat)
    requires Sharing(s, c, ring, limit) && other < s.ncores && other != c && Mirror(s) && i < |ring|
    ensures ring[i] != s.coreThread[other] && ring[i] != Pick(s, other, time)
  {
    PickAmongIsBest(s, other, time, |s.info|);
    assert s.info[ring[i]].affinity == {c};
    assert i >= 1 ==> s.info[ring[i]].core == NONE;
  }

  /** Rescheduling another core leaves the ring and its queue alone. */
  lemma OtherCoreLeavesRing(s: State, c: nat, ring: seq<nat>, limit: int, other: nat, time: nat)
    requires Sharing(s, c, ring, limit) && other < s.ncores && other != c && Inv(s)
    ensures Sharing(Reschedule(s, time, other), c, ring, limit)
  {
    var r := Reschedule(s, time, other);
    RescheduleMirrors(s, time, other);
    forall i | 0 <= i < |ring|
      ensures r.info[ring[i]] == s.info[ring[i]]
    {
      RingStaysOff(s, c, ring, limit, other, time, i);
      RescheduleFrame(s, time, other, ring[i]);
    }
    SharingFrame(s, r, c, ring, limit);
  }

  // ---- Runs of reschedules

  datatype Step = Step(core: nat, time: nat)

  predicate OnCores(ncores: nat, steps: seq<Step>) {
    forall i | 0 <= i < |steps| :: steps[i].core < ncores
  }

  function RunSteps(s: State, steps: seq<Step>): (r: State)
    requires Shape(s) && OnCores(s.ncores, steps)
    ensures Shape(r) && r.ncores == s.ncores
    decreases |steps|
  {
    if steps == [] then s else RunSteps(Reschedule(s, steps[0].time, steps[0].core), steps[1..])
  }

  function CountTurns(steps: seq<Step>, c: nat): nat {
    if steps == [] then 0 else (if steps[0].core == c then 1 else 0) + CountTurns(steps[1..], c)
  }

  /** Reschedules of core c are more than c picoseconds apart, the first one after everything recorded so far. */
  ghost predicate Spaced(steps: seq<Step>, c: nat, limit: int)
    decreases |steps|
  {
    steps == [] ||
    if steps[0].core == c then limit < PS(steps[0].time) && Spaced(steps[1..], c, PS(steps[0].time) + c)
    else Spaced(steps[1..], c, limit)
  }

  /** The ring after n turns. */
  function Turned(ring: seq<nat>, n: nat): (r: seq<nat>)
    requires |ring| > 0
    decreases n
  {
    if n == 0 then ring else Turned(Rotate(ring), n - 1)
  }

  lemma SplitTurned(x: nat, a: seq<nat>, b: seq<nat>)
    ensures var r := a + b + [x]; r[|a|..] + r[..|a|] == b + ([x] + a)
  {
    var r := a + b + [x];
    assert r[|a|..] == b + [x];
    assert r[..|a|] == a;
  }

  lemma {:induction false} TurnedSplit(ring: seq<nat>, n: nat)
    requires |ring| > 0 && n <= |ring|
    ensures Turned(ring, n) == ring[n..] + ring[..n]
    decreases n
  {
    if n == 0 {
      assert ring[0..] + ring[..0] == ring;
    } else {
      TurnedSplit(Rotate(ring), n - 1);
      var x, a, b := ring[0], ring[1..n], ring[n..];
      SplitTurned(x, a, b);
      assert Rotate(ring) == a + b + [x];
      assert ring[..n] == [x] + a;
    }
  }

  function AfterStep(ring: seq<nat>, c: nat, st: Step): seq<nat>
    requires |ring| > 0
  {
    if st.core == c then Rotate(ring) else ring
  }

  function LimitAfter(limit: int, c: nat, st: Step): int {
    if st.core == c then PS(st.time) + c else limit
  }

  lemma StepTurnsRing(s: State, c: nat, ring: seq<nat>, limit: int, st: Step)
    requires Inv(s) && Sharing(s, c, ring, limit) && st.core < s.ncores && (st.core == c ==> limit < PS(st.time))
    ensures var s1 := Reschedule(s, st.time, st.core);
            Inv(s1) && Sharing(s1, c, AfterStep(ring, c, st), LimitAfter(limit, c, st))
  {
    assert CoreFine(s, st.core);
    RescheduleKeeps(s, st.time, st.core);
    if st.core == c {
      RescheduleRotates(s, c, ring, limit, st.time);
    } else {
      OtherCoreLeavesRing(s, c, ring, limit, st.core, st.time);
    }
  }

  lemma TurnedCons(steps: seq<Step>, c: nat, ring: seq<nat>)
    requires steps != [] && |ring| > 0
    ensures Turned(ring, CountTurns(steps, c)) == Turned(AfterStep(ring, c, steps[0]), CountTurns(steps[1..], c))
  {
  }

  /** However the reschedules of all cores interleave, after n turns of core c the ring has turned n places. */
  lemma {:induction false} RunTurnsRing(s: State, c: nat, ring: seq<nat>, limit: int, steps: seq<Step>)
    returns (limit': int)
    requires Inv(s) && OnCores(s.ncores, steps) && |ring| > 0 && Sharing(s, c, ring, limit) && Spaced(steps, c, limit)
    ensures Sharing(RunSteps(s, steps), c, Turned(ring, CountTurns(steps, c)), limit')
    decreases |steps|
  {
    if steps == [] {
      limit' := limit;
    } else {
      StepTurnsRing(s, c, ring, limit, steps[0]);
      TurnedCons(steps, c, ring);
      limit' := RunTurnsRing(Reschedule(s, steps[0].time, steps[0].core), c, AfterStep(ring, c, steps[0]),
                             LimitAfter(limit, c, steps[0]), steps[1..]);
    }
  }

  lemma {:induction false} PrefixWithTurns(steps: seq<Step>, c: nat, limit: int, m: nat) returns (k: nat)
    requires m <= CountTurns(steps, c) && Spaced(steps, c, limit)
    ensures k <= |steps| && CountTurns(steps[..k], c) == m && Spaced(steps[..k], c, limit)
    decreases |steps|
  {
    if m == 0 {
      k := 0;
    } else {
      var mine := steps[0].core == c;
      var rest := PrefixWithTurns(steps[1..], c, if mine then PS(steps[0].time) + c else limit,
                                  if mine then m - 1 else m);
      k := rest + 1;
      assert steps[..k][1..] == steps[1..][..rest];
    }
  }

  /** No starvation: within any |ring| turns of the core, every thread of the ring gets it. */
  lemma EveryThreadRuns(s: State, c: nat, ring: seq<nat>, limit: int, steps: seq<Step>, t: nat) returns (k: nat)
    requires Inv(s) && OnCores(s.ncores, steps) && Sharing(s, c, ring, limit) && Spaced(steps, c, limit)
    requires t in ring && CountTurns(steps, c) == |ring|
    ensures k <= |steps| && 0 < CountTurns(steps[..k], c) <= |ring| && RunSteps(s, steps[..k]).coreThread[c] == t
  {
    var j :| 0 <= j < |ring| && ring[j] == t;
    var m := if j == 0 then |ring| else j;
    k := PrefixWithTurns(steps, c, limit, m);
    var _ := RunTurnsRing(s, c, ring, limit, steps[..k]);
    TurnedSplit(ring, m);
  }

  lemma IdleCorePicksHead(s: State, c: nat, ring: seq<nat>, limit: int, time: nat)
    requires Shape(s) && c < s.ncores && s.coreThread[c] == NONE && Pinned(s, c, ring) && Queued(s, ring, 0, limit)
    ensures Pick(s, c, time) == ring[0]
  {
    PickAmongIsBest(s, c, time, |s.info|);
    assert s.info[ring[0]].core == NONE && Candidate(s, ring[0], c);
    var p := Pick(s, c, time);
    var i :| 0 <= i < |ring| && ring[i] == p;
    assert i == 0 || WaitedLonger(s, ring[0], ring[i]);
    assert s.info[ring[i]].core == NONE;
  }

  /** A core found idle starts its queue: the longest waiting thread runs and the others keep their order behind it. */
  lemma IdleCoreStarts(s: State, c: nat, ring: seq<nat>, limit: int, time: nat)
    requires Shape(s) && c < s.ncores && s.coreThread[c] == NONE && Pinned(s, c, ring) && Queued(s, ring, 0, limit)
    ensures Sharing(Reschedule(s, time, c), c, ring, if limit < PS(time) then PS(time) else limit)
  {
    IdleCorePicksHead(s, c, ring, limit, time);
    var r, p := Reschedule(s, time, c), ring[0];
    assert s.info[p].core == NONE;
    assert r.info == s.info[p := s.info[p].(core := c, lastIn := time)];
    forall i, j | 1 <= i < j < |ring|
      ensures WaitedLonger(r, ring[i], ring[j])
    {
      assert WaitedLonger(s, ring[i], ring[j]);
    }
  }
}
