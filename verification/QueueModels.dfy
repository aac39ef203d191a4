/** The queue models as objects, and their agreement on requests that arrive in order. */
module QueueModels {
  import opened Prelude
  import opened HistoryQueue
  import C = Contention

  function Max(a: nat, b: nat): nat { if a < b then b else a }

  /** The basic model without moving average: the queue is busy until one point in time. */
  function BasicDelay(queueTime: nat, time: nat): nat {
    if queueTime > time then queueTime - time else 0
  }

  function BasicNext(queueTime: nat, time: nat, work: nat): nat { Max(queueTime, time) + work }

  /** The queue over a one-slot contention model. */
  function ContentionDelay(m: C.Model, time: nat, work: nat): int {
    C.Complete(m, time, work, 0).1 - time - work
  }

  /** Gaps that are over by `last`. */
  ghost predicate Past(gaps: seq<Interval>, last: nat) {
    forall i | 0 <= i < |gaps| :: gaps[i].start <= last && gaps[i].end <= last
  }

  /** The three models describe the same queue: busy until `busy`, with every other recorded gap over by `last`. */
  ghost predicate SameQueue(free: seq<Interval>, m: C.Model, queueTime: nat, last: nat) {
    && |free| > 0 && free[|free| - 1] == Interval(queueTime, HORIZON)
    && Past(free[..|free| - 1], last)
    && |m.slots| == 1 && m.slots[0].finish == queueTime && m.last <= last
  }

  lemma InOrderScan(free: seq<Interval>, m: C.Model, queueTime: nat, last: nat, time: nat, work: nat)
    requires SameQueue(free, m, queueTime, last) && last <= time && 0 < work && Max(queueTime, time) + work <= HORIZON
    ensures StopAt(free, 0, time, work) == |free| - 1
  {
    var gaps := free[..|free| - 1];
    assert forall i | 0 <= i < |gaps| :: free[i] == gaps[i];
    assert FitsIn(free[|free| - 1], time, work) || time < free[|free| - 1].start;
  }

  /** What an in-order request leaves of the last entry: a gap before it, if long enough, and the time after it. */
  lemma AroundInOrder(queueTime: nat, min: nat, time: nat, work: nat) returns (gap: seq<Interval>)
    requires Max(queueTime, time) + work + min <= HORIZON
    ensures Around(Interval(queueTime, HORIZON), time, work, min) ==
            gap + [Interval(BasicNext(queueTime, time, work), HORIZON)]
    ensures Past(gap, time)
  {
    PieceIs(BasicNext(queueTime, time, work), HORIZON, min);
    gap := [];
    if time >= queueTime {
      PieceIs(queueTime, time, min);
      gap := Piece(queueTime, time, min);
    }
  }

  lemma PastConcat(a: seq<Interval>, b: seq<Interval>, last: nat, time: nat)
    requires Past(a, last) && Past(b, time) && last <= time
    ensures Past(a + b, time)
  {
  }

  /** The history list on an in-order request: the old gaps stay over, and the last entry moves on. */
  lemma HistoryInOrder(free: seq<Interval>, queueTime: nat, last: nat, min: nat, time: nat, work: nat)
    requires |free| > 0 && free[|free| - 1] == Interval(queueTime, HORIZON) && StopAt(free, 0, time, work) == |free| - 1
    requires Past(free[..|free| - 1], last) && last <= time && Max(queueTime, time) + work + min <= HORIZON
    ensures var g := ScanFrom(free, 0, time, work, min);
            && g.Some? && g.value.delay == BasicDelay(queueTime, time) && |g.value.free| > 0
            && g.value.free[|g.value.free| - 1] == Interval(BasicNext(queueTime, time, work), HORIZON)
            && Past(g.value.free[..|g.value.free| - 1], time)
  {
    var k := |free| - 1;
    ScanStops(free, 0, time, work, min);
    var gap := AroundInOrder(queueTime, min, time, work);
    PastConcat(free[..k], gap, last, time);
    LastOf(free, k, gap, Interval(BasicNext(queueTime, time, work), HORIZON));
  }

  lemma LastOf(free: seq<Interval>, k: nat, gap: seq<Interval>, v: Interval)
    requires k + 1 == |free|
    ensures var after := Replaced(free, k, gap + [v]);
            |after| > 0 && after[|after| - 1] == v && after[..|after| - 1] == free[..k] + gap
  {
    assert free[k + 1..] == [];
  }

  /** The one slot on an in-order request. */
  lemma ContentionInOrder(m: C.Model, queueTime: nat, time: nat, work: nat)
    requires |m.slots| == 1 && m.slots[0].finish == queueTime && m.last <= time && 0 < time
    ensures ContentionDelay(m, time, work) == BasicDelay(queueTime, time)
    ensures var m' := C.Complete(m, time, work, 0).0;
            |m'.slots| == 1 && m'.slots[0].finish == BasicNext(queueTime, time, work) && m'.last == time
  {
  }

  lemma TrimPast(free: seq<Interval>, limit: nat, last: nat)
    requires |free| > 0 && limit >= 1 && Past(free[..|free| - 1], last)
    ensures var t := Trim(free, limit); |t| > 0 && t[|t| - 1] == free[|free| - 1] && Past(t[..|t| - 1], last)
  {
    var t := Trim(free, limit);
    if |free| > limit {
      assert t[..|t| - 1] == free[..|free| - 1][1..];
    }
  }

  /** One in-order request: the same delay in all three models, which then still describe the same queue. */
  lemma SameDelay(free: seq<Interval>, m: C.Model, queueTime: nat, last: nat, limit: nat, min: nat, time: nat,
                  work: nat)
    requires SameQueue(free, m, queueTime, last) && limit >= 1
    requires last <= time && 0 < time && 0 < work && Max(queueTime, time) + work + min <= HORIZON
    ensures var r := Request(free, limit, time, work, min);
            && r.Some? && r.value.delay == BasicDelay(queueTime, time) == ContentionDelay(m, time, work)
            && SameQueue(r.value.free, C.Complete(m, time, work, 0).0, BasicNext(queueTime, time, work), time)
  {
    InOrderScan(free, m, queueTime, last, time, work);
    HistoryInOrder(free, queueTime, last, min, time, work);
    ContentionInOrder(m, queueTime, time, work);
    TrimPast(ScanFrom(free, 0, time, work, min).value.free, limit, time);
  }

  /** Delays of a run of requests in each model. */
  function HistoryDelays(free: seq<Interval>, limit: nat, min: nat, reqs: seq<Req>): seq<int>
    decreases |reqs|
  {
    if reqs == [] then []
    else
      match Request(free, limit, reqs[0].time, reqs[0].work, min)
      case None => []
      case Some(g) => [g.delay] + HistoryDelays(g.free, limit, min, reqs[1..])
  }

  function ContentionDelays(m: C.Model, reqs: seq<Req>): seq<int>
    decreases |reqs|
  {
    if reqs == [] then []
    else
      [ContentionDelay(m, reqs[0].time, reqs[0].work)]
      + ContentionDelays(C.Complete(m, reqs[0].time, reqs[0].work, 0).0, reqs[1..])
  }

  function BasicDelays(queueTime: nat, reqs: seq<Req>): seq<int>
    decreases |reqs|
  {
    if reqs == [] then []
    else
      [BasicDelay(queueTime, reqs[0].time)]
      + BasicDelays(BasicNext(queueTime, reqs[0].time, reqs[0].work), reqs[1..])
  }

  ghost predicate NonDecreasing(reqs: seq<Req>, last: nat) {
    forall i | 0 <= i < |reqs| ::
      0 < reqs[i].time && 0 < reqs[i].work && last <= reqs[i].time && (i > 0 ==> reqs[i - 1].time <= reqs[i].time)
  }

  /** On every in-order run within the horizon the three models return the same delay at every step. */
  lemma {:induction false} ModelsCoincide(free: seq<Interval>, m: C.Model, queueTime: nat, last: nat, limit: nat,
                                          min: nat, latest: nat, reqs: seq<Req>)
    requires SameQueue(free, m, queueTime, last) && limit >= 1 && NonDecreasing(reqs, last)
    requires queueTime <= latest && forall i | 0 <= i < |reqs| :: reqs[i].time <= latest
    requires latest + TotalWork(reqs) + min <= HORIZON
    ensures var delays := BasicDelays(queueTime, reqs);
            |delays| == |reqs| && HistoryDelays(free, limit, min, reqs) == delays && ContentionDelays(m, reqs) == delays
    decreases |reqs|
  {
    if reqs != [] {
      var q := reqs[0];
      SameDelay(free, m, queueTime, last, limit, min, q.time, q.work);
      var g := Request(free, limit, q.time, q.work, min).value;
      forall i | 0 <= i < |reqs[1..]|
        ensures q.time <= reqs[1..][i].time
      {
        OrderFrom(reqs, last, i + 1);
      }
      assert forall i | 0 < i < |reqs[1..]| :: reqs[1..][i - 1] == reqs[i];
      ModelsCoincide(g.free, C.Complete(m, q.time, q.work, 0).0, BasicNext(queueTime, q.time, q.work), q.time, limit,
                     min,
                     latest + q.work, reqs[1..]);
    }
  }

  lemma {:induction false} OrderFrom(reqs: seq<Req>, last: nat, i: nat)
    requires NonDecreasing(reqs, last) && i < |reqs|
    ensures reqs[0].time <= reqs[i].time
  {
    if i > 0 {
      OrderFrom(reqs, last, i - 1);
    }
  }

  /** Newly made models describe the same, empty, queue. */
  lemma NewModelsAgree()
    ensures SameQueue(START, C.New(1), 0, 0)
  {
  }

  // ---- The models as objects

  class QueueModelHistoryList {
    const min: nat
    const limit: nat
    const analytical: bool
    var free: seq<Interval>
    var utilized: nat
    var totalDelay: nat
    var requests: nat
    var analyticalRequests: nat

    constructor (min: nat, limit: nat, analytical: bool)
      ensures free == START && this.min == min && this.limit == limit && this.analytical == analytical
      ensures utilized == totalDelay == requests == analyticalRequests == 0
    {
      this.min, this.limit, this.analytical, free := min, limit, analytical, START;
      utilized, totalDelay, requests, analyticalRequests := 0, 0, 0, 0;
    }

    /** Entry i is erased and what is left of it on either side is put in its place. */
    method Cut(i: nat, time: nat, work: nat)
      requires i < |free| && (FitsIn(free[i], time, work) || time < free[i].start)
      modifies `free
      ensures free == Replaced(old(free), i, Around(old(free)[i], time, work, min))
    {
      var v := free[i];
      var pieces: seq<Interval> := [];
      var begin := if time < v.start then v.start else time;
      if time >= v.start && Minus(time, v.start) >= min {
        pieces := pieces + [Interval(v.start, time)];
      }
      if Minus(v.end, begin + work) >= min {
        pieces := pieces + [Interval(begin + work, v.end)];
      }
      assert pieces == Around(v, time, work, min);
      free := free[..i] + pieces + free[i + 1..];
    }

    /** The scan with its cut in the list; None where no free interval is found. */
    method ComputeUsingHistoryList(time: nat, work: nat) returns (delay: Option<nat>)
      modifies `free
      ensures match Request(old(free), limit, time, work, min)
              case None => delay == None && free == old(free)
              case Some(g) => delay == Some(g.delay) && free == g.free
    {
      var i := 0;
      while i < |free|
        invariant 0 <= i <= |free| && free == old(free)
        invariant ScanFrom(free, i, time, work, min) == ScanFrom(free, 0, time, work, min)
      {
        var v := free[i];
        if (v.start <= time && time + work <= v.end) || time < v.start {
          Cut(i, time, work);
          if |free| > limit {
            free := free[1..];
          }
          return Some(if time < v.start then v.start - time else 0);
        }
        i := i + 1;
      }
      return None;
    }

    /** An old request may be answered with the average of the delays so far, which leaves the list alone. */
    method ComputeQueueDelay(time: nat, work: nat, average: nat) returns (delay: Option<nat>)
      requires |free| >= 1
      modifies this
      ensures analytical && time + work <= old(free)[0].start ==> delay == Some(average) && free == old(free)
      ensures !(analytical && time + work <= old(free)[0].start) ==>
                match Request(old(free), limit, time, work, min)
                case None => delay == None && free == old(free)
                case Some(g) => delay == Some(g.delay) && free == g.free
      ensures delay.Some? ==>
                totalDelay == old(totalDelay) + delay.value && utilized == old(utilized) + work
                && requests == old(requests) + 1
    {
      if analytical && time + work <= free[0].start {
        analyticalRequests := analyticalRequests + 1;
        delay := Some(average);
      } else {
        delay := ComputeUsingHistoryList(time, work);
      }
      if delay.Some? {
        utilized := utilized + work;
        requests := requests + 1;
        totalDelay := totalDelay + delay.value;
      }
    }
  }

  class QueueModelBasic {
    var queueTime: nat

    constructor ()
      ensures queueTime == 0
    {
      queueTime := 0;
    }

    /**
     * Service starts at the arrival or when the queue gets free, whichever is later, and occupies the queue to its end.
     */
    method ComputeQueueDelay(time: nat, work: nat) returns (delay: nat)
      modifies this
      ensures time + delay >= old(queueTime) && (time + delay == old(queueTime) || delay == 0)
              && queueTime == time + delay + work
      ensures delay == BasicDelay(old(queueTime), time) && queueTime == BasicNext(old(queueTime), time, work)
    {
      delay := if queueTime > time then queueTime - time else 0;
      queueTime := (if queueTime > time then queueTime else time) + work;
    }
  }

  class ContentionModel {
    var slots: seq<C.Slot>
    var last: nat
    var requests: nat
    var barriers: nat
    var outOfOrder: nat
    var simultaneous: nat
    var totalDelay: nat

    constructor (k: nat)
      ensures State() == C.New(k)
    {
      slots, last := seq(k, _ => C.Slot(0, 0)), 0;
      requests, barriers, outOfOrder, simultaneous, totalDelay := 0, 0, 0, 0, 0;
    }

    ghost function State(): C.Model
      reads this
    {
      C.Model(slots, last)
    }

    method FindUnit(t: nat) returns (unit: nat)
      requires |slots| > 0
      ensures unit == C.Unit(slots, t)
    {
      unit := 0;
      var i := 0;
      while i < |slots|
        invariant 0 <= i <= |slots| && unit < |slots|
        invariant C.UnitFrom(slots, t, i, unit) == C.Unit(slots, t)
      {
        if slots[i].finish <= t {
          return i;
        } else if slots[i].finish < slots[unit].finish {
          unit := i;
        }
        i := i + 1;
      }
    }

    method GetCompletionTime(t: nat, delay: nat, tag: nat) returns (end: nat)
      modifies this
      ensures (State(), end) == C.Complete(old(State()), t, delay, tag)
      ensures |slots| > 0 && t > 0 && t >= old(last) ==> totalDelay == old(totalDelay) + (end - delay - t)
      ensures |slots| > 0 ==> requests == old(requests) + 1
    {
      if |slots| == 0 {
        return t + delay;
      }
      if t == 0 {
        end := delay;
      } else if t < last {
        end := t + delay;
        outOfOrder := outOfOrder + 1;
      } else {
        if t == last {
          simultaneous := simultaneous + 1;
        }
        var unit := FindUnit(t);
        var begin := if t < slots[unit].finish then slots[unit].finish else t;
        end := begin + delay;
        slots := slots[unit := C.Slot(end, tag)];
        totalDelay := totalDelay + (begin - t);
        last := t;
      }
      requests := requests + 1;
    }

    method GetStartTime(t: nat) returns (begin: nat)
      ensures begin == C.StartTime(State(), t)
    {
      if |slots| == 0 || t < last {
        return t;
      }
      var unit := FindUnit(t);
      return if t < slots[unit].finish then slots[unit].finish else t;
    }

    method GetBarrierCompletionTime(t: nat, delay: nat, tag: nat) returns (end: nat)
      modifies this
      ensures (State(), end) == C.Barrier(old(State()), t, delay, tag)
      ensures t + delay <= end && forall i | 0 <= i < |old(slots)| :: old(slots)[i].finish + delay <= end
      ensures end == t + delay || exists i :: 0 <= i < |old(slots)| && old(slots)[i].finish + delay == end
      ensures |slots| == |old(slots)| && forall i | 0 <= i < |slots| :: slots[i] == C.Slot(end, tag)
    {
      C.BarrierWaitsForAll(State(), t, delay, tag);
      if |slots| == 0 {
        return t + delay;
      }
      var latest: nat := t;
      var i := 0;
      while i < |slots|
        invariant 0 <= i <= |slots|
        invariant C.LatestFrom(slots, i, latest) == C.LatestFrom(slots, 0, t)
      {
        if slots[i].finish > latest {
          latest := slots[i].finish;
        }
        i := i + 1;
      }
      i := 0;
      while i < |slots|
        invariant 0 <= i <= |slots| == |old(slots)|
        invariant forall j | 0 <= j < i :: slots[j] == C.Slot(latest + delay, tag)
        invariant last == old(last)
      {
        slots := slots[i := C.Slot(latest + delay, tag)];
        i := i + 1;
      }
      barriers := barriers + 1;
      assert slots == C.Barrier(old(State()), t, delay, tag).0.slots;
      return latest + delay;
    }
  }

  class QueueModelContention {
    const contention: ContentionModel

    constructor (k: nat)
      ensures contention.State() == C.New(k) && fresh(contention)
    {
      contention := new ContentionModel(k);
    }

    method ComputeQueueDelay(time: nat, work: nat) returns (delay: int)
      modifies contention
      ensures delay == ContentionDelay(old(contention.State()), time, work)
      ensures contention.State() == C.Complete(old(contention.State()), time, work, 0).0
    {
      var end := contention.GetCompletionTime(time, work, 0);
      return end - time - work;
    }
  }
}
