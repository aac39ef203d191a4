/** The contention model: k slots, each busy until a recorded finish time. */
module Contention {

  datatype Slot = Slot(finish: nat, tag: nat)

  datatype Model = Model(slots: seq<Slot>, last: nat)

  function New(k: nat): Model { Model(seq(k, _ => Slot(0, 0)), 0) }

  /** The loop's choice of slot: the first one that is free, else the first among the earliest to finish. */
  function UnitFrom(slots: seq<Slot>, t: nat, i: nat, unit: nat): (u: nat)
    requires i <= |slots| && unit < |slots|
    ensures u < |slots|
    decreases |slots| - i
  {
    if i == |slots| then unit
    else if slots[i].finish <= t then i
    else if slots[i].finish < slots[unit].finish then UnitFrom(slots, t, i + 1, i)
    else UnitFrom(slots, t, i + 1, unit)
  }

  function Unit(slots: seq<Slot>, t: nat): (u: nat)
    requires |slots| > 0
    ensures u < |slots|
  {
    UnitFrom(slots, t, 0, 0)
  }

  function Max(a: nat, b: nat): nat { if a < b then b else a }

  /** Start of service for a request the model queues. */
  function Begin(m: Model, t: nat): nat
    requires |m.slots| > 0
  {
    Max(t, m.slots[Unit(m.slots, t)].finish)
  }

  /** Completion of a request, and the model after it. */
  function Complete(m: Model, t: nat, delay: nat, tag: nat): (Model, nat) {
    if |m.slots| == 0 then (m, t + delay)
    else if t == 0 then (m, delay)
    else if t < m.last then (m, t + delay) // out of order: assumed uncontended
    else
      var end := Begin(m, t) + delay;
      (Model(m.slots[Unit(m.slots, t) := Slot(end, tag)], t), end)
  }

  /** Peek at the start of service for a new request. */
  function StartTime(m: Model, t: nat): nat {
    if |m.slots| == 0 || t < m.last then t else Begin(m, t)
  }

  function LatestFrom(slots: seq<Slot>, i: nat, t: nat): (l: nat)
    requires i <= |slots|
    ensures t <= l && forall j | i <= j < |slots| :: slots[j].finish <= l
    ensures l == t || exists j :: i <= j < |slots| && slots[j].finish == l
    decreases |slots| - i
  {
    if i == |slots| then t else LatestFrom(slots, i + 1, Max(t, slots[i].finish))
  }

  /** A barrier waits for all slots and then occupies all of them. */
  function Barrier(m: Model, t: nat, delay: nat, tag: nat): (Model, nat) {
    if |m.slots| == 0 then (m, t + delay)
    else
      var end := LatestFrom(m.slots, 0, t) + delay;
      (m.(slots := seq(|m.slots|, _ => Slot(end, tag))), end)
  }

  function NumUsedBelow(slots: seq<Slot>, t: nat, n: nat): (u: nat)
    requires n <= |slots|
    ensures u <= n
  {
    if n == 0 then 0 else NumUsedBelow(slots, t, n - 1) + if slots[n - 1].finish > t then 1 else 0
  }

  function NumUsed(m: Model, t: nat): nat { NumUsedBelow(m.slots, t, |m.slots|) }

  predicate HasFreeSlot(m: Model, t: nat, tag: int) {
    exists i :: 0 <= i < |m.slots| && (m.slots[i].finish <= t || m.slots[i].tag == tag)
  }

  // ---- The choice of slot

  ghost predicate BestSoFar(slots: seq<Slot>, t: nat, i: nat, unit: nat)
    requires i <= |slots| && unit < |slots|
  {
    && (forall j | 0 <= j < i :: slots[j].finish > t && slots[unit].finish <= slots[j].finish)
    && (forall j | 0 <= j < i && j < unit :: slots[unit].finish < slots[j].finish)
  }

  /** A chosen slot is free if any is, and otherwise none finishes earlier; ties go to the lower index. */
  lemma {:induction false} UnitIsEarliest(slots: seq<Slot>, t: nat, i: nat, unit: nat)
    requires i <= |slots| && unit < |slots| && BestSoFar(slots, t, i, unit) && (unit == 0 || unit < i)
    ensures var u := UnitFrom(slots, t, i, unit);
            && (slots[u].finish <= t || forall j | 0 <= j < |slots| ::
                  slots[j].finish > t && slots[u].finish <= slots[j].finish)
            && (forall j | 0 <= j < u ::
                  slots[j].finish > t && (slots[u].finish <= t || slots[u].finish < slots[j].finish))
    decreases |slots| - i
  {
    if i < |slots| && slots[i].finish > t {
      UnitIsEarliest(slots, t, i + 1, if slots[i].finish < slots[unit].finish then i else unit);
    }
  }

  /** A request starts at the later of its arrival and the earliest finish of any slot. */
  lemma BeginIsEarliest(m: Model, t: nat)
    requires |m.slots| > 0
    ensures var b := Begin(m, t);
            && t <= b && m.slots[Unit(m.slots, t)].finish <= b
            && (forall j | 0 <= j < |m.slots| :: b <= Max(t, m.slots[j].finish))
            && (exists j :: 0 <= j < |m.slots| && b == Max(t, m.slots[j].finish))
  {
    UnitIsEarliest(m.slots, t, 0, 0);
    assert Begin(m, t) == Max(t, m.slots[Unit(m.slots, t)].finish);
  }

  /**
   * A request that is not assumed uncontended takes one slot, the first that is free or else the first among the
   * earliest to finish, from the later of its arrival and that finish on; the other slots stay as they are. A request
   * with the same tag then never finds the model full.
   */
  lemma CompleteTakesSlot(m: Model, t: nat, delay: nat, tag: nat) returns (u: nat)
    requires |m.slots| > 0 && 0 < t && m.last <= t
    ensures u < |m.slots| && var (m', end) := Complete(m, t, delay, tag);
            && m' == Model(m.slots[u := Slot(end, tag)], t) && end == Max(t, m.slots[u].finish) + delay
            && (forall j | 0 <= j < |m.slots| :: Max(t, m.slots[u].finish) <= Max(t, m.slots[j].finish))
            && (forall j | 0 <= j < u :: Max(t, m.slots[u].finish) < m.slots[j].finish)
            && forall x: nat :: HasFreeSlot(m', x, tag)
  {
    u := Unit(m.slots, t);
    UnitIsEarliest(m.slots, t, 0, 0);
    assert Complete(m, t, delay, tag).0.slots[u].tag == tag;
  }

  /**
   * A barrier begins at the latest of its own time and all finish times, and no later; every slot is then busy with it,
   * until it ends and under its tag, and the time of the last request stays.
   */
  lemma BarrierWaitsForAll(m: Model, t: nat, delay: nat, tag: nat)
    ensures var (m', end) := Barrier(m, t, delay, tag);
            var begin := end - delay;
            && t <= begin && (forall j | 0 <= j < |m.slots| :: m.slots[j].finish <= begin)
            && (begin == t || exists j :: 0 <= j < |m.slots| && m.slots[j].finish == begin)
            && |m'.slots| == |m.slots| && (forall j | 0 <= j < |m.slots| :: m'.slots[j] == Slot(end, tag))
            && m'.last == m.last && (|m.slots| > 0 ==> forall x: nat | x < end :: NumUsed(m', x) == |m.slots|)
  {
    var (m', end) := Barrier(m, t, delay, tag);
    forall x: nat | x < end && |m.slots| > 0
      ensures NumUsed(m', x) == |m.slots|
    {
      UsedAllBusy(m'.slots, x, |m'.slots|);
    }
  }

  /**
   * The peek is right exactly unless it asks for time zero while every slot is busy and no request has been queued yet.
   */
  lemma StartTimePredictsExactlyWhen(m: Model, t: nat, delay: nat, tag: nat)
    ensures Complete(m, t, delay, tag).1 == StartTime(m, t) + delay <==>
            !(t == 0 && m.last == 0 && |m.slots| > 0 && forall i | 0 <= i < |m.slots| :: m.slots[i].finish > 0)
  {
    if |m.slots| > 0 {
      BeginIsEarliest(m, t);
    }
  }

  lemma {:induction false} UsedAllBusy(slots: seq<Slot>, t: nat, n: nat)
    requires n <= |slots|
    ensures NumUsedBelow(slots, t, n) == n <==> forall i | 0 <= i < n :: slots[i].finish > t
  {
    if n > 0 {
      UsedAllBusy(slots, t, n - 1);
    }
  }

  /** The three queries agree: no slot is free, all slots are used, and a new request would have to wait. */
  lemma QueriesAgree(m: Model, t: nat)
    requires |m.slots| > 0 && m.last <= t
    ensures !HasFreeSlot(m, t, -1) <==> NumUsed(m, t) == |m.slots|
    ensures !HasFreeSlot(m, t, -1) <==> StartTime(m, t) > t
  {
    UsedAllBusy(m.slots, t, |m.slots|);
    BeginIsEarliest(m, t);
    assert Max(t, m.slots[Unit(m.slots, t)].finish) == Begin(m, t);
  }

  // ---- Service over a run

  /** One slot busy with one request. */
  datatype Service = Service(unit: nat, begin: nat, end: nat)

  datatype Op = Use(time: nat, delay: nat, tag: nat) | Fence(time: nat, delay: nat, tag: nat)

  /** What an operation is served with: its own slot, or for a barrier every slot. */
  function Served(m: Model, op: Op): seq<Service> {
    match op
    case Use(t, delay, _) =>
      if |m.slots| == 0 || t == 0 || t < m.last then []
        else [Service(Unit(m.slots, t), Begin(m, t), Begin(m, t) + delay)]
    case Fence(t, delay, _) =>
      var latest := LatestFrom(m.slots, 0, t);
      seq(|m.slots|, (i: nat) => Service(i, latest, latest + delay))
  }

  function After(m: Model, op: Op): (r: Model)
    ensures |r.slots| == |m.slots|
  {
    match op
    case Use(t, delay, tag) => Complete(m, t, delay, tag).0
    case Fence(t, delay, tag) => Barrier(m, t, delay, tag).0
  }

  /** Requests arrive in order and at a positive time. */
  ghost predicate InOrder(m: Model, op: Op) { op.Use? ==> 0 < op.time && m.last <= op.time }

  /** The services so far: none outlasts its slot's finish time, and those on one slot follow one another. */
  ghost predicate Orderly(m: Model, log: seq<Service>) {
    && (forall i | 0 <= i < |log| ::
          log[i].unit < |m.slots| && log[i].begin <= log[i].end <= m.slots[log[i].unit].finish)
    && (forall i, j | 0 <= i < j < |log| && log[i].unit == log[j].unit :: log[i].end <= log[j].begin)
  }

  lemma OpKeepsOrder(m: Model, op: Op, log: seq<Service>)
    requires Orderly(m, log) && InOrder(m, op)
    ensures Orderly(After(m, op), log + Served(m, op))
  {
    if op.Use? && |m.slots| > 0 {
      BeginIsEarliest(m, op.time);
    }
  }

  predicate InService(s: Service, x: nat) { s.begin <= x < s.end }

  /** Number of services under way at an instant. */
  function Load(log: seq<Service>, x: nat): nat {
    if log == [] then 0 else Load(log[..|log| - 1], x) + if InService(log[|log| - 1], x) then 1 else 0
  }

  function BusyUnits(log: seq<Service>, x: nat): set<nat> {
    if log == [] then {}
    else
      BusyUnits(log[..|log| - 1], x)
      + if InService(log[|log| - 1], x) then {log[|log| - 1].unit} else {}
  }

  lemma {:induction false} BusyUnitServes(log: seq<Service>, x: nat, u: nat) returns (i: nat)
    requires u in BusyUnits(log, x)
    ensures i < |log| && log[i].unit == u && InService(log[i], x)
  {
    var n := |log| - 1;
    if u in BusyUnits(log[..n], x) {
      i := BusyUnitServes(log[..n], x, u);
    } else {
      i := n;
    }
  }

  lemma {:induction false} LoadCountsUnits(m: Model, log: seq<Service>, x: nat)
    requires Orderly(m, log)
    ensures Load(log, x) == |BusyUnits(log, x)|
  {
    if log != [] {
      var n := |log| - 1;
      LoadCountsUnits(m, log[..n], x);
      var s := log[n];
      if InService(s, x) && s.unit in BusyUnits(log[..n], x) {
        var i := BusyUnitServes(log[..n], x, s.unit);
        assert false;
      }
    }
  }

  lemma BusyUnitsInRange(m: Model, log: seq<Service>, x: nat)
    requires Orderly(m, log)
    ensures forall u | u in BusyUnits(log, x) :: u < |m.slots|
  {
    forall u | u in BusyUnits(log, x)
      ensures u < |m.slots|
    {
      var i := BusyUnitServes(log, x, u);
    }
  }

  lemma {:induction false} SmallSet(s: set<nat>, k: nat)
    requires forall u | u in s :: u < k
    ensures |s| <= k
  {
    if k > 0 {
      SmallSet(s - {k - 1}, k - 1);
      assert s <= (s - {k - 1}) + {k - 1};
    } else {
      assert s == {};
    }
  }

  function Run(m: Model, ops: seq<Op>): (r: (Model, seq<Service>))
    decreases |ops|
  {
    if ops == [] then (m, [])
    else
      var (m', log) := Run(After(m, ops[0]), ops[1..]);
      (m', Served(m, ops[0]) + log)
  }

  ghost predicate RunInOrder(m: Model, ops: seq<Op>)
    decreases |ops|
  {
    ops == [] || (InOrder(m, ops[0]) && RunInOrder(After(m, ops[0]), ops[1..]))
  }

  lemma {:induction false} RunKeepsOrder(m: Model, ops: seq<Op>, log: seq<Service>)
    requires Orderly(m, log) && RunInOrder(m, ops)
    ensures Orderly(Run(m, ops).0, log + Run(m, ops).1) && |Run(m, ops).0.slots| == |m.slots|
    decreases |ops|
  {
    if ops == [] {
      assert log + [] == log;
    } else {
      OpKeepsOrder(m, ops[0], log);
      RunKeepsOrder(After(m, ops[0]), ops[1..], log + Served(m, ops[0]));
      var tail := Run(After(m, ops[0]), ops[1..]).1;
      assert (log + Served(m, ops[0])) + tail == log + (Served(m, ops[0]) + tail);
    }
  }

  /**
   * The model never over-commits: from any state of its k slots, at any instant of any in-order run of requests and
   * barriers, at most k of the services the run is given are under way.
   */
  lemma NeverOvercommits(m: Model, ops: seq<Op>, x: nat)
    requires RunInOrder(m, ops)
    ensures Load(Run(m, ops).1, x) <= |m.slots|
  {
    var (final, log) := Run(m, ops);
    RunKeepsOrder(m, ops, []);
    assert [] + log == log;
    LoadCountsUnits(final, log, x);
    BusyUnitsInRange(final, log, x);
    SmallSet(BusyUnits(log, x), |m.slots|);
  }

  lemma LoadSnoc(log: seq<Service>, s: Service, x: nat)
    ensures Load(log + [s], x) == Load(log, x) + if InService(s, x) then 1 else 0
  {
    assert (log + [s])[..|log|] == log;
  }

  lemma {:induction false} LoadOfAll(log: seq<Service>, more: seq<Service>, x: nat)
    requires forall i | 0 <= i < |more| :: InService(more[i], x)
    ensures Load(log + more, x) == Load(log, x) + |more|
  {
    if more == [] {
      assert log + more == log;
    } else {
      var n := |more| - 1;
      LoadOfAll(log, more[..n], x);
      assert log + more == (log + more[..n]) + [more[n]];
      LoadSnoc(log + more[..n], more[n], x);
    }
  }

  /** An early request changes nothing and is served at once, beside whatever is under way. */
  lemma EarlyAddsLoad(m: Model, log: seq<Service>, early: nat, delay: nat, x: nat)
    requires |m.slots| > 0 && 0 < early < m.last && early <= x < early + delay
    ensures var (m', end) := Complete(m, early, delay, 0);
            m' == m && Load(log + [Service(0, early, end)], x) == Load(log, x) + 1
  {
    LoadSnoc(log, Service(0, early, early + delay), x);
  }

  lemma RunTwo(m: Model, a: Op, b: Op)
    requires InOrder(m, a) && InOrder(After(m, a), b)
    ensures RunInOrder(m, [a, b]) && Run(m, [a, b]) == (After(After(m, a), b), Served(m, a) + Served(After(m, a), b))
  {
    var m1 := After(m, a);
    assert [a, b][1..] == [b] && [b][1..] == [];
    assert Served(m1, b) + [] == Served(m1, b);
    assert Run(m1, [b]) == (After(m1, b), Served(m1, b));
    assert RunInOrder(m1, [b]);
  }

  /** A request and then a barrier fill all slots at once. */
  lemma FillsAllSlots(m: Model, t: nat, delay: nat) returns (x: nat)
    requires |m.slots| > 0 && 0 < t && m.last <= t && delay > 0
    ensures var ops := [Use(t, 1, 0), Fence(t, delay, 0)];
            t <= x && RunInOrder(m, ops) && Run(m, ops).0.last == t && Load(Run(m, ops).1, x) == |m.slots|
  {
    var use, fence := Use(t, 1, 0), Fence(t, delay, 0);
    var m1 := After(m, use);
    x := LatestFrom(m1.slots, 0, t);
    RunTwo(m, use, fence);
    var first, all := Served(m, use), Served(m1, fence);
    assert m1.slots[Unit(m.slots, t)].finish == first[0].end <= x;
    LoadSnoc([], first[0], x);
    assert [] + [first[0]] == first;
    LoadOfAll(first, all, x);
  }

  /** Out of order it over-commits, with any number of slots and from any state: an early request is one too many. */
  lemma OutOfOrderOvercommits(m: Model, t: nat, early: nat) returns (ops: seq<Op>, x: nat)
    requires |m.slots| > 0 && m.last <= t && 0 < early < t
    ensures RunInOrder(m, ops) && early <= x
    ensures var (final, log) := Run(m, ops);
            var (m', end) := Complete(final, early, x + 1 - early, 0);
            m' == final && Load(log + [Service(0, early, end)], x) == |m.slots| + 1
  {
    ops := [Use(t, 1, 0), Fence(t, 1, 0)];
    x := FillsAllSlots(m, t, 1);
    RunKeepsOrder(m, ops, []);
    EarlyAddsLoad(Run(m, ops).0, Run(m, ops).1, early, x + 1 - early, x);
  }
}
