/** The free-interval queue: service slots are cut out of a list of recorded free time. */
module HistoryQueue {
  import opened Prelude

  const HORIZON: nat := 0x8000_0000_0000_0000

  /** Free time from `start` up to but not including `end`. */
  datatype Interval = Interval(start: nat, end: nat)

  /** Subtraction of unsigned 64-bit times. */
  function Minus(a: int, b: int): nat { (a - b) % TWO_64 }

  function Piece(start: nat, end: nat, min: nat): seq<Interval> {
    if Minus(end, start) >= min then [Interval(start, end)] else []
  }

  /** The work, begun at time `at`, ends within the interval. */
  predicate FitsIn(v: Interval, at: nat, work: nat) { v.start <= at && at + work <= v.end }

  /** Where the granted slot starts. */
  function SlotStart(v: Interval, time: nat): nat { if time < v.start then v.start else time }

  /** The pieces of an entry left and right of a slot granted in it. */
  function Around(v: Interval, time: nat, work: nat, min: nat): seq<Interval> {
    if time < v.start then Piece(v.start + work, v.end, min)
      else Piece(v.start, time, min) + Piece(time + work, v.end, min)
  }

  /** The list with entry k replaced by pieces of itself. */
  function Replaced(free: seq<Interval>, k: nat, pieces: seq<Interval>): seq<Interval>
    requires k < |free|
  {
    free[..k] + pieces + free[k + 1..]
  }

  /** A grant: the remaining free time and the delay until service starts. */
  datatype Grant = Grant(free: seq<Interval>, delay: nat)

  /** The first entry that holds the work at its arrival, or else starts after it, is used. */
  function ScanFrom(free: seq<Interval>, i: nat, time: nat, work: nat, min: nat): Option<Grant>
    requires i <= |free|
    decreases |free| - i
  {
    if i == |free| then None
    else if FitsIn(free[i], time, work) || time < free[i].start then
      Some(Grant(Replaced(free, i, Around(free[i], time, work, min)), SlotStart(free[i], time) - time))
    else ScanFrom(free, i + 1, time, work, min)
  }

  /** The oldest entry is dropped when the list has outgrown its limit. */
  function Trim(free: seq<Interval>, limit: nat): seq<Interval> {
    if |free| > limit then free[1..] else free
  }

  function Request(free: seq<Interval>, limit: nat, time: nat, work: nat, min: nat): Option<Grant> {
    match ScanFrom(free, 0, time, work, min)
    case None => None
    case Some(g) => Some(g.(free := Trim(g.free, limit)))
  }

  const START: seq<Interval> := [Interval(0, HORIZON)]

  // ---- Free time

  /** Sorted, disjoint, within the horizon, and every entry at least the minimum long. */
  ghost predicate Tidy(free: seq<Interval>, min: nat) {
    && (forall i | 0 <= i < |free| :: free[i].start + min <= free[i].end <= HORIZON)
    && (forall i, j | 0 <= i < j < |free| :: free[i].end <= free[j].start)
  }

  predicate Inside(v: Interval, x: int) { v.start <= x < v.end }

  ghost predicate IsFree(free: seq<Interval>, x: int) {
    exists i :: 0 <= i < |free| && Inside(free[i], x)
  }

  /** Work can be served from time `at` on without leaving a recorded free interval. */
  ghost predicate Fits(free: seq<Interval>, at: nat, work: nat) {
    exists i :: 0 <= i < |free| && FitsIn(free[i], at, work)
  }

  /** The entry the scan stops at, or the length of the list. */
  function StopAt(free: seq<Interval>, i: nat, time: nat, work: nat): (k: nat)
    requires i <= |free|
    ensures i <= k <= |free|
    ensures forall j | i <= j < k :: free[j].start <= time && free[j].end < time + work
    ensures k < |free| ==> FitsIn(free[k], time, work) || time < free[k].start
    decreases |free| - i
  {
    if i == |free| || FitsIn(free[i], time, work) || time < free[i].start then i else StopAt(free, i + 1, time, work)
  }

  lemma {:induction false} ScanStops(free: seq<Interval>, i: nat, time: nat, work: nat, min: nat)
    requires i <= |free|
    ensures var k := StopAt(free, i, time, work);
            ScanFrom(free, i, time, work, min) == if k == |free| then None else
              Some(Grant(Replaced(free, k, Around(free[k], time, work, min)), SlotStart(free[k], time) - time))
    decreases |free| - i
  {
    if i < |free| && !FitsIn(free[i], time, work) && !(time < free[i].start) {
      ScanStops(free, i + 1, time, work, min);
    }
  }

  lemma PieceIs(start: nat, end: nat, min: nat)
    requires start <= end < TWO_64
    ensures Piece(start, end, min) == if end - start >= min then [Interval(start, end)] else []
  {
  }

  /** Which old entry an entry of the new list comes from. */
  function Origin(i: nat, k: nat, n: nat): int {
    if i < k then i else if i < k + n then k else i - n + 1
  }

  ghost predicate PiecesOf(v: Interval, pieces: seq<Interval>) {
    forall p | 0 <= p < |pieces| :: v.start <= pieces[p].start && pieces[p].end <= v.end
  }

  lemma ReplacedTidy(free: seq<Interval>, k: nat, pieces: seq<Interval>, min: nat)
    requires Tidy(free, min) && k < |free| && Tidy(pieces, min) && PiecesOf(free[k], pieces)
    ensures Tidy(Replaced(free, k, pieces), min)
  {
    var after, n := Replaced(free, k, pieces), |pieces|;
    forall i | 0 <= i < |after|
      ensures var o := Origin(i, k, n);
              0 <= o < |free| && (if k <= i < k + n then after[i] == pieces[i - k] else after[i] == free[o])
              && free[o].start <= after[i].start && after[i].end <= free[o].end
    {
    }
    forall i, j | 0 <= i < j < |after|
      ensures after[i].end <= after[j].start
    {
      var o, q := Origin(i, k, n), Origin(j, k, n);
      if o < q {
        assert free[o].end <= free[q].start;
      } else {
        assert pieces[i - k].end <= pieces[j - k].start;
      }
    }
  }

  /** Every entry of the new list is a piece of entry k or an old entry elsewhere. */
  lemma ReplacedEntry(free: seq<Interval>, k: nat, pieces: seq<Interval>, i: nat)
    requires k < |free| && i < |Replaced(free, k, pieces)|
    ensures var o := Origin(i, k, |pieces|);
            0 <= o < |free| && Replaced(free, k, pieces)[i] == if o == k then pieces[i - k] else free[o]
  {
  }

  lemma ReplacedFree(free: seq<Interval>, k: nat, pieces: seq<Interval>, min: nat, at: nat, work: nat, x: int)
    requires Tidy(free, min) && k < |free| && PiecesOf(free[k], pieces) && FitsIn(free[k], at, work)
    requires forall p | 0 <= p < |pieces| :: pieces[p].end <= at || at + work <= pieces[p].start
    requires IsFree(Replaced(free, k, pieces), x)
    ensures IsFree(free, x) && !(at <= x < at + work)
  {
    var after := Replaced(free, k, pieces);
    var i :| 0 <= i < |after| && Inside(after[i], x);
    ReplacedEntry(free, k, pieces, i);
    var o := Origin(i, k, |pieces|);
    if o == k {
      assert Inside(pieces[i - k], x);
      assert Inside(free[k], x);
    } else {
      assert Inside(free[o], x);
      if o < k {
        assert free[o].end <= free[k].start;
      } else {
        assert free[k].end <= free[o].start;
      }
    }
  }

  /** What a grant leaves: cut from entry k, nothing of the slot stays free, nothing new becomes free. */
  ghost predicate Carved(free: seq<Interval>, after: seq<Interval>, min: nat, at: nat, work: nat) {
    && Tidy(after, min)
    && (forall x | IsFree(after, x) :: IsFree(free, x) && !(at <= x < at + work))
    && (forall x | at <= x < at + work :: IsFree(free, x))
  }

  lemma AroundKeepsClear(v: Interval, time: nat, work: nat, min: nat)
    requires v.start + min <= v.end <= HORIZON && FitsIn(v, SlotStart(v, time), work)
    ensures var pieces, at := Around(v, time, work, min), SlotStart(v, time);
            && Tidy(pieces, min) && PiecesOf(v, pieces)
            && forall p | 0 <= p < |pieces| :: pieces[p].end <= at || at + work <= pieces[p].start
  {
    if time < v.start {
      PieceIs(v.start + work, v.end, min);
    } else {
      PieceIs(v.start, time, min);
      PieceIs(time + work, v.end, min);
    }
  }

  /** A slot that fits its entry is carved out of recorded free time. */
  lemma ScanCarves(free: seq<Interval>, time: nat, work: nat, min: nat)
    requires Tidy(free, min)
    requires var k := StopAt(free, 0, time, work); k < |free| && FitsIn(free[k], SlotStart(free[k], time), work)
    ensures var k := StopAt(free, 0, time, work);
            var at := SlotStart(free[k], time);
            var after := Replaced(free, k, Around(free[k], time, work, min));
            && ScanFrom(free, 0, time, work, min) == Some(Grant(after, at - time))
            && Carved(free, after, min, at, work)
  {
    var k := StopAt(free, 0, time, work);
    var v := free[k];
    var at, pieces := SlotStart(v, time), Around(v, time, work, min);
    ScanStops(free, 0, time, work, min);
    AroundKeepsClear(v, time, work, min);
    ReplacedTidy(free, k, pieces, min);
    var after := Replaced(free, k, pieces);
    forall x | IsFree(after, x)
      ensures IsFree(free, x) && !(at <= x < at + work)
    {
      ReplacedFree(free, k, pieces, min, at, work, x);
    }
    forall x | at <= x < at + work
      ensures IsFree(free, x)
    {
      assert Inside(free[k], x);
    }
  }

  /** Free time beside a slot in entry v, in a remnant too short to be recorded. */
  predicate InRemnant(v: Interval, at: nat, work: nat, min: nat, x: int) {
    (v.start <= x < at && at - v.start < min) || (at + work <= x < v.end && v.end - (at + work) < min)
  }

  lemma AroundFree(v: Interval, time: nat, work: nat, min: nat, x: int)
    requires v.end <= HORIZON && FitsIn(v, SlotStart(v, time), work)
    ensures var at := SlotStart(v, time);
            IsFree(Around(v, time, work, min), x) <==>
            Inside(v, x) && !(at <= x < at + work) && !InRemnant(v, at, work, min, x)
  {
    var pieces := Around(v, time, work, min);
    if time < v.start {
      PieceIs(v.start + work, v.end, min);
      if |pieces| == 1 { assert Inside(pieces[0], x) == (v.start + work <= x < v.end); }
    } else {
      PieceIs(v.start, time, min);
      PieceIs(time + work, v.end, min);
      var left, right := Piece(v.start, time, min), Piece(time + work, v.end, min);
      if |left| == 1 { assert pieces[0] == left[0]; }
      if |right| == 1 { assert pieces[|left|] == right[0]; }
    }
  }

  lemma ReplacedIsFree(free: seq<Interval>, k: nat, pieces: seq<Interval>, x: int)
    requires k < |free|
    ensures IsFree(Replaced(free, k, pieces), x) <==>
            IsFree(pieces, x) || exists i :: 0 <= i < |free| && i != k && Inside(free[i], x)
  {
    var after, n := Replaced(free, k, pieces), |pieces|;
    if IsFree(after, x) {
      var i :| 0 <= i < |after| && Inside(after[i], x);
      ReplacedEntry(free, k, pieces, i);
      var o := Origin(i, k, n);
      assert if o == k then Inside(pieces[i - k], x) else Inside(free[o], x);
    } else {
      forall p | 0 <= p < n
        ensures !Inside(pieces[p], x)
      {
        assert after[k + p] == pieces[p];
      }
      forall i | 0 <= i < |free| && i != k
        ensures !Inside(free[i], x)
      {
        assert after[if i < k then i else i + n - 1] == free[i];
      }
    }
  }

  /** Of the free time exactly the slot goes, and with it the remnants beside it that are shorter than the minimum. */
  lemma ScanTakesExactly(free: seq<Interval>, time: nat, work: nat, min: nat, k: nat, x: int)
    requires Tidy(free, min) && k == StopAt(free, 0, time, work) < |free|
    requires FitsIn(free[k], SlotStart(free[k], time), work)
    ensures var g, at := ScanFrom(free, 0, time, work, min), SlotStart(free[k], time);
            && g.Some? && g.value.delay == at - time
            && (IsFree(g.value.free, x) <==>
                  IsFree(free, x) && !(at <= x < at + work) && !InRemnant(free[k], at, work, min, x))
  {
    ScanStops(free, 0, time, work, min);
    AroundFree(free[k], time, work, min, x);
    ReplacedIsFree(free, k, Around(free[k], time, work, min), x);
    forall i | 0 <= i < |free| && i != k && Inside(free[i], x)
      ensures !Inside(free[k], x)
    {
      assert if i < k then free[i].end <= free[k].start else free[k].end <= free[i].start;
    }
  }

  /** A list over its limit loses its oldest entry and the free time in it, and a shorter one loses nothing. */
  lemma OldestForgotten(free: seq<Interval>, limit: nat, time: nat, work: nat, min: nat, x: int)
    requires var g := ScanFrom(free, 0, time, work, min); g.Some? && Tidy(g.value.free, min)
    ensures var g, r := ScanFrom(free, 0, time, work, min).value, Request(free, limit, time, work, min);
            && r.Some? && r.value.delay == g.delay
            && (|g.free| <= limit ==> r.value.free == g.free)
            && (|g.free| > limit ==>
                  && |r.value.free| == |g.free| - 1
                  && (IsFree(g.free, x) <==> IsFree(r.value.free, x) || Inside(g.free[0], x))
                  && forall i | 0 <= i < |r.value.free| :: g.free[0].end <= r.value.free[i].start)
  {
    var g := ScanFrom(free, 0, time, work, min).value;
    if |g.free| > limit {
      var kept := g.free[1..];
      forall i | 0 <= i < |g.free| && Inside(g.free[i], x)
        ensures i == 0 || IsFree(kept, x)
      {
        if i > 0 { assert Inside(kept[i - 1], x); }
      }
      forall i | 0 <= i < |kept|
        ensures kept[i] == g.free[i + 1]
      {
      }
    }
  }

  /** First fit is best fit in time: no smaller delay fits the recorded free time. */
  lemma DelayIsLeast(free: seq<Interval>, time: nat, work: nat, min: nat, k: nat, d: nat)
    requires Tidy(free, min) && k == StopAt(free, 0, time, work) < |free| && d < SlotStart(free[k], time) - time
    ensures !Fits(free, time + d, work)
  {
    forall j | 0 <= j < |free|
      ensures !FitsIn(free[j], time + d, work)
    {
      if j > k {
        assert free[k].end <= free[j].start;
      }
    }
  }

  lemma WorkFits(free: seq<Interval>, time: nat, work: nat, min: nat, k: nat)
    requires Tidy(free, min) && k == StopAt(free, 0, time, work) < |free| && work <= min
    ensures FitsIn(free[k], SlotStart(free[k], time), work)
  {
  }

  /** Every grant from a tidy list is served inside recorded free time. */
  ghost predicate AlwaysFits(work: nat, min: nat) {
    forall free, time :: ServedInside(free, time, work, min)
  }

  ghost predicate ServedInside(free: seq<Interval>, time: nat, work: nat, min: nat) {
    Tidy(free, min) ==>
      match ScanFrom(free, 0, time, work, min)
      case None => true
      case Some(g) => Fits(free, time + g.delay, work)
  }

  /**
   * When the queue can be trusted: its grants stay inside recorded free time for every list and arrival exactly if
   * the work is no longer than the minimum. Longer work can be granted an entry it does not fit, and the unsigned
   * remainder then enters the list as an interval that ends before it starts.
   */
  lemma GrantsFitExactlyWhen(work: nat, min: nat)
    requires 0 < work < HORIZON && min + 1 <= HORIZON
    ensures AlwaysFits(work, min) <==> work <= min
    ensures min < work ==> !Tidy(ScanFrom([Interval(1, 1 + min)], 0, 0, work, min).value.free, min)
  {
    if work <= min {
      forall free, time
        ensures ServedInside(free, time, work, min)
      {
        var k := StopAt(free, 0, time, work);
        ScanStops(free, 0, time, work, min);
        if Tidy(free, min) && k < |free| {
          WorkFits(free, time, work, min, k);
          assert FitsIn(free[k], SlotStart(free[k], time), work);
        }
      }
    } else {
      var free := [Interval(1, 1 + min)];
      var g := ScanFrom(free, 0, 0, work, min);
      assert g.value.delay == 1 && g.value.free == Piece(1 + work, 1 + min, min);
      assert Minus(1 + min, 1 + work) == TWO_64 - (work - min);
      assert g.value.free[0].start > g.value.free[0].end;
      assert !Fits(free, 1, work);
      assert !ServedInside(free, 0, work, min);
    }
  }

  /** The list never outgrows its limit, so the assertion on its size holds at every request. */
  lemma LimitKept(free: seq<Interval>, limit: nat, time: nat, work: nat, min: nat)
    requires |free| <= limit
    ensures var r := Request(free, limit, time, work, min); r.Some? ==> |r.value.free| <= limit
  {
    ScanStops(free, 0, time, work, min);
    var k := StopAt(free, 0, time, work);
    if k < |free| {
      assert |Around(free[k], time, work, min)| <= 2;
    }
  }

  // ---- Runs of requests

  datatype Req = Req(time: nat, work: nat)

  predicate Apart(a: Interval, b: Interval) { a.end <= b.start || b.end <= a.start }

  ghost predicate AllApart(slots: seq<Interval>) {
    forall i, j {:trigger Apart(slots[i], slots[j])} | 0 <= i < j < |slots| :: Apart(slots[i], slots[j])
  }

  /**
   * The list is tidy and reaches the horizon, its last entry starts no later than `busy`, and no granted slot is free
   * or shared.
   */
  ghost predicate Consistent(free: seq<Interval>, min: nat, busy: nat, slots: seq<Interval>) {
    && Tidy(free, min) && |free| > 0
    && free[|free| - 1].end == HORIZON && free[|free| - 1].start <= busy
    && (forall i, x {:trigger Inside(slots[i], x)} | 0 <= i < |slots| && Inside(slots[i], x) :: !IsFree(free, x))
    && AllApart(slots)
  }

  lemma TrimKeeps(free: seq<Interval>, limit: nat, min: nat, busy: nat, slots: seq<Interval>)
    requires Consistent(free, min, busy, slots) && limit >= 1
    ensures Consistent(Trim(free, limit), min, busy, slots)
  {
    var t := Trim(free, limit);
    forall x | IsFree(t, x)
      ensures IsFree(free, x)
    {
      var i :| 0 <= i < |t| && Inside(t[i], x);
      assert Inside(free[if |free| > limit then i + 1 else i], x);
    }
  }

  lemma SlotApart(free: seq<Interval>, slots: seq<Interval>, at: nat, work: nat, i: nat)
    requires work > 0 && i < |slots| && slots[i].start < slots[i].end
    requires forall x | at <= x < at + work :: IsFree(free, x)
    requires forall x | Inside(slots[i], x) :: !IsFree(free, x)
    ensures Apart(slots[i], Interval(at, at + work))
  {
    var v := slots[i];
    if v.start < at + work && at < v.end {
      var x := if v.start < at then at else v.start;
      assert Inside(v, x);
      assert false;
    }
  }

  ghost predicate RealSlots(slots: seq<Interval>) {
    forall i | 0 <= i < |slots| :: slots[i].start < slots[i].end
  }

  lemma CarvedKeeps(free: seq<Interval>, after: seq<Interval>, min: nat, busy: nat, slots: seq<Interval>, at: nat,
                    work: nat)
    requires Consistent(free, min, busy, slots) && RealSlots(slots) && work > 0 && Carved(free, after, min, at, work)
    requires |after| > 0 && after[|after| - 1].end == HORIZON && after[|after| - 1].start <= busy + work
    ensures Consistent(after, min, busy + work, slots + [Interval(at, at + work)])
            && RealSlots(slots + [Interval(at, at + work)])
  {
    var slots' := slots + [Interval(at, at + work)];
    forall i, j | 0 <= i < j < |slots'|
      ensures Apart(slots'[i], slots'[j])
    {
      if j == |slots| {
        assert forall x | Inside(slots[i], x) :: !IsFree(free, x);
        SlotApart(free, slots, at, work, i);
      } else {
        assert Apart(slots[i], slots[j]);
      }
    }
    forall i, x | 0 <= i < |slots'| && Inside(slots'[i], x)
      ensures !IsFree(after, x)
    {
    }
  }

  /** The last entry after a grant, when the horizon is far enough. */
  lemma LastEntry(free: seq<Interval>, time: nat, work: nat, min: nat, busy: nat, k: nat)
    requires |free| > 0 && free[|free| - 1].end == HORIZON && free[|free| - 1].start <= busy && time <= busy
    requires busy + work + min <= HORIZON && k == StopAt(free, 0, time, work)
    ensures k < |free|
    ensures var after := Replaced(free, k, Around(free[k], time, work, min));
            |after| > 0 && after[|after| - 1].end == HORIZON && after[|after| - 1].start <= busy + work
  {
    assert k < |free|;
    if k == |free| - 1 {
      PieceIs(SlotStart(free[k], time) + work, HORIZON, min);
      var pieces := Around(free[k], time, work, min);
      assert free[k + 1..] == [] && Replaced(free, k, pieces) == free[..k] + pieces;
    }
  }

  /** What a request is granted on a tidy list that reaches the horizon. */
  lemma RequestIs(free: seq<Interval>, limit: nat, time: nat, work: nat, min: nat, busy: nat)
    returns (at: nat, after: seq<Interval>)
    requires Tidy(free, min) && |free| > 0 && free[|free| - 1].end == HORIZON && free[|free| - 1].start <= busy
    requires 0 < work <= min && time <= busy && busy + work + min <= HORIZON
    ensures at >= time && Request(free, limit, time, work, min) == Some(Grant(Trim(after, limit), at - time))
    ensures Carved(free, after, min, at, work)
    ensures |after| > 0 && after[|after| - 1].end == HORIZON && after[|after| - 1].start <= busy + work
    ensures Fits(free, at, work) && forall d | time <= d < at :: !Fits(free, d, work)
  {
    var k := StopAt(free, 0, time, work);
    LastEntry(free, time, work, min, busy, k);
    WorkFits(free, time, work, min, k);
    ScanCarves(free, time, work, min);
    at := SlotStart(free[k], time);
    after := Replaced(free, k, Around(free[k], time, work, min));
    forall d | time <= d < at
      ensures !Fits(free, d, work)
    {
      DelayIsLeast(free, time, work, min, k, d - time);
    }
  }

  /** One request: served inside free time, with the least delay that fits, and the queue stays consistent. */
  lemma RequestServed(free: seq<Interval>, limit: nat, time: nat, work: nat, min: nat, busy: nat, slots: seq<Interval>)
    requires Consistent(free, min, busy, slots) && RealSlots(slots) && limit >= 1 && 0 < work <= min && time <= busy
    requires busy + work + min <= HORIZON
    ensures var r := Request(free, limit, time, work, min);
            && r.Some?
            && (var at := time + r.value.delay;
                && Consistent(r.value.free, min, busy + work, slots + [Interval(at, at + work)])
                && RealSlots(slots + [Interval(at, at + work)])
                && Fits(free, at, work) && forall d | time <= d < at :: !Fits(free, d, work))
  {
    var at, after := RequestIs(free, limit, time, work, min, busy);
    CarvedKeeps(free, after, min, busy, slots, at, work);
    TrimKeeps(after, limit, min, busy + work, slots + [Interval(at, at + work)]);
  }

  function TotalWork(reqs: seq<Req>): nat {
    if reqs == [] then 0 else reqs[0].work + TotalWork(reqs[1..])
  }

  /** The slots granted to a run of requests; None if one finds no free interval. */
  function Serve(free: seq<Interval>, limit: nat, min: nat, reqs: seq<Req>): Option<seq<Interval>>
    decreases |reqs|
  {
    if reqs == [] then Some([])
    else
      match Request(free, limit, reqs[0].time, reqs[0].work, min)
      case None => None
      case Some(g) =>
        var at := reqs[0].time + g.delay;
        match Serve(g.free, limit, min, reqs[1..])
        case None => None
        case Some(rest) => Some([Interval(at, at + reqs[0].work)] + rest)
  }

  /** Every request has its slot, at or after its arrival and as long as its work. */
  ghost predicate Matched(reqs: seq<Req>, slots: seq<Interval>) {
    && |slots| == |reqs|
    && forall i | 0 <= i < |reqs| :: reqs[i].time <= slots[i].start && slots[i].end == slots[i].start + reqs[i].work
  }

  lemma MatchedCons(req: Req, reqs: seq<Req>, slot: Interval, slots: seq<Interval>)
    requires Matched(reqs, slots) && req.time <= slot.start && slot.end == slot.start + req.work
    ensures Matched([req] + reqs, [slot] + slots)
  {
  }

  lemma {:induction false} RunServed(free: seq<Interval>, limit: nat, min: nat, busy: nat, slots: seq<Interval>,
                                     reqs: seq<Req>)
    requires Consistent(free, min, busy, slots) && RealSlots(slots) && limit >= 1
    requires forall i | 0 <= i < |reqs| :: 0 < reqs[i].work <= min && reqs[i].time <= busy
    requires busy + TotalWork(reqs) + min <= HORIZON
    ensures var r := Serve(free, limit, min, reqs); r.Some? && Matched(reqs, r.value) && AllApart(slots + r.value)
    decreases |reqs|
  {
    if reqs == [] {
      assert slots + [] == slots;
    } else {
      var req, more := reqs[0], reqs[1..];
      var g, slot := ServedNext(free, limit, min, busy, slots, req);
      RunServed(g.free, limit, min, busy + req.work, slots + [slot], more);
      ServeCons(free, limit, min, slots, reqs, g, slot);
    }
  }

  lemma ServedNext(free: seq<Interval>, limit: nat, min: nat, busy: nat, slots: seq<Interval>, req: Req)
    returns (g: Grant, slot: Interval)
    requires Consistent(free, min, busy, slots) && RealSlots(slots) && limit >= 1
    requires 0 < req.work <= min && req.time <= busy && busy + req.work + min <= HORIZON
    ensures Request(free, limit, req.time, req.work, min) == Some(g)
    ensures slot == Interval(req.time + g.delay, req.time + g.delay + req.work)
    ensures Consistent(g.free, min, busy + req.work, slots + [slot]) && RealSlots(slots + [slot])
  {
    RequestServed(free, limit, req.time, req.work, min, busy, slots);
    g := Request(free, limit, req.time, req.work, min).value;
    slot := Interval(req.time + g.delay, req.time + g.delay + req.work);
  }

  lemma ServeIs(free: seq<Interval>, limit: nat, min: nat, reqs: seq<Req>, g: Grant, rest: seq<Interval>)
    requires reqs != [] && Request(free, limit, reqs[0].time, reqs[0].work, min) == Some(g)
    requires Serve(g.free, limit, min, reqs[1..]) == Some(rest)
    ensures Serve(free, limit, min, reqs) ==
            Some([Interval(reqs[0].time + g.delay, reqs[0].time + g.delay + reqs[0].work)] + rest)
  {
  }

  lemma ServeCons(free: seq<Interval>, limit: nat, min: nat, slots: seq<Interval>, reqs: seq<Req>, g: Grant,
                  slot: Interval)
    requires reqs != [] && Request(free, limit, reqs[0].time, reqs[0].work, min) == Some(g)
    requires slot == Interval(reqs[0].time + g.delay, reqs[0].time + g.delay + reqs[0].work)
    requires var r := Serve(g.free, limit, min, reqs[1..]);
             r.Some? && Matched(reqs[1..], r.value)
             && AllApart(slots + [slot] + r.value)
    ensures var r := Serve(free, limit, min, reqs); r.Some? && Matched(reqs, r.value) && AllApart(slots + r.value)
  {
    var req, more, rest := reqs[0], reqs[1..], Serve(g.free, limit, min, reqs[1..]).value;
    ServeIs(free, limit, min, reqs, g, rest);
    assert slots + [slot] + rest == slots + ([slot] + rest);
    MatchedCons(req, more, slot, rest);
    assert [req] + more == reqs;
  }

  /**
   * The queue is safe: for every run of requests, in any order of arrival, each with work up to the minimum and all
   * within the horizon, every request is served, never before it arrives, and no two service slots overlap.
   */
  lemma QueueIsSafe(limit: nat, min: nat, latest: nat, reqs: seq<Req>)
    requires limit >= 1 && forall i | 0 <= i < |reqs| :: 0 < reqs[i].work <= min && reqs[i].time <= latest
    requires latest + TotalWork(reqs) + min <= HORIZON
    ensures var r := Serve(START, limit, min, reqs);
            r.Some? && Matched(reqs, r.value) && AllApart(r.value)
  {
    RunServed(START, limit, min, latest, [], reqs);
    var r := Serve(START, limit, min, reqs).value;
    assert [] + r == r;
  }

  // ---- Exactly how long the work may be

  ghost predicate WorkUpTo(work: nat, min: nat, latest: nat, reqs: seq<Req>) {
    && (forall i | 0 <= i < |reqs| :: 0 < reqs[i].work <= work && reqs[i].time <= latest)
    && latest + TotalWork(reqs) + min <= HORIZON
  }

  ghost predicate ServedApart(limit: nat, min: nat, reqs: seq<Req>) {
    var r := Serve(START, limit, min, reqs);
    r.Some? && AllApart(r.value)
  }

  /** With this limit of the list, every run of requests with work up to this is served in slots that do not overlap. */
  ghost predicate AlwaysApart(limit: nat, work: nat, min: nat) {
    forall latest: nat, reqs: seq<Req> :: WorkUpTo(work, min, latest, reqs) ==> ServedApart(limit, min, reqs)
  }

  /** A list of one entry: only the time after everything granted so far is recorded as free. */
  lemma LastEntryOnly(start: nat, time: nat, work: nat, min: nat)
    requires start + work + min <= HORIZON && time + work + min <= HORIZON && work > 0
    ensures var at := if time < start then start else time;
            Request([Interval(start, HORIZON)], 1, time, work, min) ==
              Some(Grant([Interval(at + work, HORIZON)], at - time))
  {
    var v, at := Interval(start, HORIZON), if time < start then start else time;
    PieceIs(at + work, HORIZON, min);
    var pieces := Around(v, time, work, min);
    assert Replaced([v], 0, pieces) == pieces;
    assert Trim(pieces, 1) == [Interval(at + work, HORIZON)];
  }

  /** Slots apart from one another, none of them before a start. */
  ghost predicate ApartFrom(slots: seq<Interval>, start: nat) {
    AllApart(slots) && forall i | 0 <= i < |slots| :: start <= slots[i].start
  }

  lemma OneEntryNext(start: nat, min: nat, reqs: seq<Req>, slot: Interval, rest: seq<Interval>)
    requires reqs != [] && slot.end == slot.start + reqs[0].work && start <= slot.start && reqs[0].time <= slot.start
    requires Request([Interval(start, HORIZON)], 1, reqs[0].time, reqs[0].work, min) ==
             Some(Grant([Interval(slot.end, HORIZON)], slot.start - reqs[0].time))
    requires Serve([Interval(slot.end, HORIZON)], 1, min, reqs[1..]) == Some(rest) && ApartFrom(rest, slot.end)
    ensures var r := Serve([Interval(start, HORIZON)], 1, min, reqs); r.Some? && ApartFrom(r.value, start)
  {
    ServeIs([Interval(start, HORIZON)], 1, min, reqs,
            Grant([Interval(slot.end, HORIZON)], slot.start - reqs[0].time), rest);
    ApartCons(slot, rest);
  }

  lemma {:induction false} OneEntryServes(start: nat, min: nat, latest: nat, reqs: seq<Req>)
    requires start <= latest && (forall i | 0 <= i < |reqs| :: 0 < reqs[i].work && reqs[i].time <= latest)
    requires latest + TotalWork(reqs) + min <= HORIZON
    ensures var r := Serve([Interval(start, HORIZON)], 1, min, reqs); r.Some? && ApartFrom(r.value, start)
    decreases |reqs|
  {
    if reqs != [] {
      var req, more := reqs[0], reqs[1..];
      LastEntryOnly(start, req.time, req.work, min);
      var at := if req.time < start then start else req.time;
      var slot := Interval(at, at + req.work);
      assert forall i | 0 <= i < |more| :: more[i] == reqs[i + 1];
      OneEntryServes(slot.end, min, latest + req.work, more);
      OneEntryNext(start, min, reqs, slot, Serve([Interval(slot.end, HORIZON)], 1, min, more).value);
    }
  }

  lemma ApartCons(slot: Interval, rest: seq<Interval>)
    requires AllApart(rest) && forall i | 0 <= i < |rest| :: slot.end <= rest[i].start
    ensures AllApart([slot] + rest)
  {
    var slots := [slot] + rest;
    forall i, j | 0 <= i < j < |slots|
      ensures Apart(slots[i], slots[j])
    {
      if i > 0 {
        assert Apart(rest[i - 1], rest[j - 1]);
      }
    }
  }

  /** One unit of work at once: the rest of time stays free, after an empty gap that a minimum of 0 lets stand. */
  lemma FirstGranted(limit: nat, min: nat)
    requires limit >= 2 && 2 * min + 3 <= HORIZON
    ensures Request(START, limit, 0, 1, min) == Some(Grant(Piece(0, 0, min) + [Interval(1, HORIZON)], 0))
  {
    PieceIs(1, HORIZON, min);
    var free := Piece(0, 0, min) + [Interval(1, HORIZON)];
    assert Around(START[0], 0, 1, min) == free;
    assert Replaced(START, 0, free) == free;
  }

  /** At most one empty interval at the start. */
  ghost predicate EmptyGap(gap: seq<Interval>) {
    |gap| <= 1 && forall i | 0 <= i < |gap| :: gap[i] == Interval(0, 0)
  }

  lemma TrimGap(limit: nat, gap: seq<Interval>, a: Interval, b: Interval) returns (kept: seq<Interval>)
    requires limit >= 2 && EmptyGap(gap)
    ensures EmptyGap(kept) && Trim(gap + [a, b], limit) == kept + [a, b]
  {
    if |gap| + 2 > limit {
      kept := [];
      assert (gap + [a, b])[1..] == [a, b];
    } else {
      kept := gap;
    }
  }

  /** Another one that leaves a gap of the minimum before it; the gap is recorded. */
  lemma GapScanned(gap: seq<Interval>, min: nat)
    requires 2 * min + 3 <= HORIZON && EmptyGap(gap)
    ensures ScanFrom(gap + [Interval(1, HORIZON)], 0, 1 + min, 1, min) ==
            Some(Grant(gap + [Interval(1, 1 + min), Interval(2 + min, HORIZON)], 0))
  {
    PieceIs(1, 1 + min, min);
    PieceIs(2 + min, HORIZON, min);
    var last, k := Interval(1, HORIZON), |gap|;
    assert StopAt(gap + [last], 0, 1 + min, 1) == k;
    ScanStops(gap + [last], 0, 1 + min, 1, min);
    var pieces := [Interval(1, 1 + min), Interval(2 + min, HORIZON)];
    assert Around(last, 1 + min, 1, min) == pieces;
    assert Replaced(gap + [last], k, pieces) == gap + pieces;
  }

  lemma GapRecorded(limit: nat, gap: seq<Interval>, min: nat) returns (kept: seq<Interval>)
    requires limit >= 2 && 2 * min + 3 <= HORIZON && EmptyGap(gap)
    ensures EmptyGap(kept)
    ensures Request(gap + [Interval(1, HORIZON)], limit, 1 + min, 1, min) ==
            Some(Grant(kept + [Interval(1, 1 + min), Interval(2 + min, HORIZON)], 0))
  {
    GapScanned(gap, min);
    kept := TrimGap(limit, gap, Interval(1, 1 + min), Interval(2 + min, HORIZON));
  }

  /** Longer work that arrives at the start is granted the recorded gap, which it does not fit. */
  lemma GapOverrun(limit: nat, gap: seq<Interval>, min: nat, work: nat)
    requires min < work && EmptyGap(gap)
    ensures var r := Request(gap + [Interval(1, 1 + min), Interval(2 + min, HORIZON)], limit, 0, work, min);
            r.Some? && r.value.delay == 1
  {
    var free := gap + [Interval(1, 1 + min), Interval(2 + min, HORIZON)];
    assert StopAt(free, 0, 0, work) == |gap|;
    ScanStops(free, 0, 0, work, min);
  }

  /** With room for two entries, work longer than the minimum can be served on top of a slot granted before. */
  lemma LongWorkOverlaps(limit: nat, work: nat, min: nat)
    requires limit >= 2 && min < work && 2 * min + 3 <= HORIZON
    ensures Serve(START, limit, min, [Req(0, 1), Req(1 + min, 1), Req(0, work)]) ==
            Some([Interval(0, 1), Interval(1 + min, 2 + min), Interval(1, 1 + work)])
  {
    FirstGranted(limit, min);
    var kept := GapRecorded(limit, Piece(0, 0, min), min);
    GapOverrun(limit, kept, min, work);
    var reqs := [Req(0, 1), Req(1 + min, 1), Req(0, work)];
    assert reqs[1..] == [Req(1 + min, 1), Req(0, work)] && reqs[1..][1..] == [Req(0, work)];
    var g1 := Request(START, limit, 0, 1, min).value;
    var g2 := Request(g1.free, limit, 1 + min, 1, min).value;
    var g3 := Request(g2.free, limit, 0, work, min).value;
    var slot1, slot2, slot3 := Interval(0, 1), Interval(1 + min, 2 + min), Interval(1, 1 + work);
    ServeIs(g2.free, limit, min, reqs[1..][1..], g3, []);
    assert [slot3] + [] == [slot3];
    ServeIs(g1.free, limit, min, reqs[1..], g2, [slot3]);
    assert [slot2] + [slot3] == [slot2, slot3];
    ServeIs(START, limit, min, reqs, g1, [slot2, slot3]);
    assert [slot1] + [slot2, slot3] == [slot1, slot2, slot3];
  }

  lemma LongWorkNotApart(limit: nat, work: nat, min: nat)
    requires limit >= 2 && min < work && 2 * min + work + 3 <= HORIZON
    ensures !AlwaysApart(limit, work, min)
  {
    var reqs := [Req(0, 1), Req(1 + min, 1), Req(0, work)];
    LongWorkOverlaps(limit, work, min);
    assert reqs[1..] == [Req(1 + min, 1), Req(0, work)] && reqs[1..][1..] == [Req(0, work)];
    assert TotalWork(reqs[1..][1..]) == work;
    assert TotalWork(reqs) == 2 + work;
    assert WorkUpTo(work, min, 1 + min, reqs);
    var slots := Serve(START, limit, min, reqs).value;
    assert !Apart(slots[1], slots[2]);
    assert !ServedApart(limit, min, reqs);
  }

  /**
   * When the queue can be trusted: no run of requests with work up to this overlaps, if and only if the list has room
   * for one entry only or the work is no longer than the minimum.
   */
  lemma SlotsApartExactlyWhen(limit: nat, work: nat, min: nat)
    requires limit >= 1 && work > 0 && 2 * min + work + 3 <= HORIZON
    ensures AlwaysApart(limit, work, min) <==> limit == 1 || work <= min
  {
    if limit == 1 || work <= min {
      forall latest: nat, reqs: seq<Req> | WorkUpTo(work, min, latest, reqs)
        ensures ServedApart(limit, min, reqs)
      {
        if work <= min {
          QueueIsSafe(limit, min, latest, reqs);
        } else {
          OneEntryServes(0, min, latest, reqs);
        }
      }
    } else {
      LongWorkNotApart(limit, work, min);
    }
  }
}
