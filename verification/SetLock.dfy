/**
 * The cache set lock: one mutex per sharing core. A shared holder owns its own mutex, an exclusive holder all of them.
 * The loops over the mutexes are program counters here, so that other threads can step between any two of their
 * iterations.
 */
module SetLock {

  /** num_sharers mutexes, for the cores from coreOffset on. */
  datatype Config = Config(coreOffset: nat, sharers: nat)

  /** Where a thread is in the calls of the lock; i is the mutex that its loop comes to next. */
  datatype Pc =
    | Idle
    | AcquiringShared(own: nat)
    | Shared(own: nat)
    | Upgrading(own: nat)            // in upgrade, before its own mutex is released
    | AcquiringExclusive(i: nat)
    | Exclusive
    | ReleasingExclusive(i: nat)
    | Downgrading(own: nat, i: nat)

  datatype Mutex = Unlocked | LockedBy(thread: nat)

  datatype State = State(locks: seq<Mutex>, pcs: seq<Pc>)

  /** The calls a thread may start, by the core it names, and Proceed for the next operation on a mutex. */
  datatype Move =
    | AcquireShared(core: nat) | ReleaseShared | Upgrade
    | AcquireExclusive | ReleaseExclusive | Downgrade(core: nat)
    | Proceed

  predicate InRange(c: Config, core: nat) {
    c.coreOffset <= core < c.coreOffset + c.sharers
  }

  function AcquireFrom(c: Config, i: nat): Pc {
    if i >= c.sharers then Exclusive else AcquiringExclusive(i)
  }

  function ReleaseFrom(c: Config, i: nat): Pc {
    if i >= c.sharers then Idle else ReleasingExclusive(i)
  }

  function DowngradeFrom(c: Config, own: nat, i: nat): Pc {
    if i >= c.sharers then Shared(own) else Downgrading(own, i)
  }

  /** The mutex a thread is waiting for, if it is at an acquire. */
  function Wanted(pc: Pc): (w: int) {
    match pc
    case AcquiringShared(own) => own
    case AcquiringExclusive(i) => i
    case _ => -1
  }

  /** Can thread t make this move now? An acquire has to find its mutex unlocked, even one the thread has itself. */
  predicate Enabled(c: Config, s: State, t: nat, m: Move) {
    && t < |s.pcs|
    && match m
       case AcquireShared(core) => s.pcs[t].Idle? && InRange(c, core)
       case ReleaseShared => s.pcs[t].Shared? && s.pcs[t].own < |s.locks|
       case Upgrade => s.pcs[t].Shared?
       case AcquireExclusive => s.pcs[t].Idle?
       case ReleaseExclusive => s.pcs[t].Exclusive?
       case Downgrade(core) => s.pcs[t].Exclusive? && InRange(c, core)
       case Proceed => CanProceed(s, s.pcs[t])
  }

  predicate CanProceed(s: State, pc: Pc) {
    match pc
    case Upgrading(own) => own < |s.locks|
    case ReleasingExclusive(i) => i < |s.locks|
    case Downgrading(_, i) => i < |s.locks|
    case AcquiringShared(own) => own < |s.locks| && s.locks[own] == Unlocked
    case AcquiringExclusive(i) => i < |s.locks| && s.locks[i] == Unlocked
    case _ => false
  }

  /** The mutex that this move unlocks, if any. */
  function Unlocks(pc: Pc, m: Move): int {
    match m
    case ReleaseShared => if pc.Shared? then pc.own else -1
    case Proceed =>
      (match pc
       case Upgrading(own) => own
       case ReleasingExclusive(i) => i
       case Downgrading(own, i) => if i != own then i else -1
       case _ => -1)
    case _ => -1
  }

  function NextPc(c: Config, pc: Pc, m: Move): Pc {
    match m
    case AcquireShared(core) => AcquiringShared(if core >= c.coreOffset then core - c.coreOffset else 0)
    case ReleaseShared => Idle
    case Upgrade => if pc.Shared? then Upgrading(pc.own) else pc
    case AcquireExclusive => AcquireFrom(c, 0)
    case ReleaseExclusive => ReleaseFrom(c, 0)
    case Downgrade(core) => DowngradeFrom(c, if core >= c.coreOffset then core - c.coreOffset else 0, 0)
    case Proceed =>
      match pc
      case AcquiringShared(own) => Shared(own)
      case Upgrading(_) => AcquireFrom(c, 0)
      case AcquiringExclusive(i) => AcquireFrom(c, i + 1)
      case ReleasingExclusive(i) => ReleaseFrom(c, i + 1)
      case Downgrading(own, i) => DowngradeFrom(c, own, i + 1)
      case _ => pc
  }

  function Step(c: Config, s: State, t: nat, m: Move): State
    requires Enabled(c, s, t, m)
  {
    var pc := s.pcs[t];
    var locks :=
      if m.Proceed? && 0 <= Wanted(pc) < |s.locks| then s.locks[Wanted(pc) := LockedBy(t)]
      else if 0 <= Unlocks(pc, m) < |s.locks| then s.locks[Unlocks(pc, m) := Unlocked]
      else s.locks;
    State(locks, s.pcs[t := NextPc(c, pc, m)])
  }

  /** A schedule picks a thread and a move at a time; what is not enabled does not happen. */
  function Run(c: Config, s: State, schedule: seq<(nat, Move)>): State
    decreases |schedule|
  {
    if schedule == [] then s
    else
      var (t, m) := schedule[0];
      Run(c, if Enabled(c, s, t, m) then Step(c, s, t, m) else s, schedule[1..])
  }

  function Start(c: Config, threads: nat): State {
    State(seq(c.sharers, _ => Unlocked), seq(threads, _ => Idle))
  }

  // ---- What every interleaving keeps

  /** The mutexes a thread must have at this point. */
  predicate Owns(c: Config, pc: Pc, i: nat) {
    match pc
    case Idle => false
    case AcquiringShared(_) => false
    case Shared(own) => i == own
    case Upgrading(own) => i == own
    case AcquiringExclusive(next) => i < next
    case Exclusive => true
    case ReleasingExclusive(next) => i >= next
    case Downgrading(own, next) => i >= next || i == own
  }

  predicate PcInRange(c: Config, pc: Pc) {
    match pc
    case Idle => true
    case AcquiringShared(own) => own < c.sharers
    case Shared(own) => own < c.sharers
    case Upgrading(own) => own < c.sharers
    case AcquiringExclusive(next) => next < c.sharers
    case Exclusive => true
    case ReleasingExclusive(next) => next < c.sharers
    case Downgrading(own, next) => own < c.sharers && next < c.sharers
  }

  ghost predicate Inv(c: Config, s: State) {
    && |s.locks| == c.sharers
    && (forall t | 0 <= t < |s.pcs| :: PcInRange(c, s.pcs[t]))
    && (forall i | 0 <= i < |s.locks| :: s.locks[i].LockedBy? ==> s.locks[i].thread < |s.pcs|)
    && (forall i, t | 0 <= i < |s.locks| && 0 <= t < |s.pcs| :: s.locks[i] == LockedBy(t) <==> Owns(c, s.pcs[t], i))
  }

  /** One move changes what the moving thread owns by exactly the mutex it locks or unlocks. */
  lemma OwnsAfter(c: Config, s: State, t: nat, m: Move, i: nat)
    requires Inv(c, s) && Enabled(c, s, t, m) && i < |s.locks|
    ensures Owns(c, NextPc(c, s.pcs[t], m), i) ==
            if m.Proceed? && i == Wanted(s.pcs[t]) then true
            else if i == Unlocks(s.pcs[t], m) then false
            else Owns(c, s.pcs[t], i)
    ensures PcInRange(c, NextPc(c, s.pcs[t], m))
    ensures i == Unlocks(s.pcs[t], m) ==> s.locks[i] == LockedBy(t)
    ensures m.Proceed? && i == Wanted(s.pcs[t]) ==> s.locks[i] == Unlocked
  {
    assert s.locks[i] == LockedBy(t) <==> Owns(c, s.pcs[t], i);
  }

  lemma StepKeepsInv(c: Config, s: State, t: nat, m: Move)
    requires Inv(c, s) && Enabled(c, s, t, m)
    ensures Inv(c, Step(c, s, t, m))
  {
    var s' := Step(c, s, t, m);
    forall i, u | 0 <= i < |s'.locks| && 0 <= u < |s'.pcs|
      ensures s'.locks[i] == LockedBy(u) <==> Owns(c, s'.pcs[u], i)
    {
      OwnsAfter(c, s, t, m, i);
      assert s.locks[i] == LockedBy(u) <==> Owns(c, s.pcs[u], i);
    }
    if c.sharers > 0 {
      OwnsAfter(c, s, t, m, 0);
    }
  }

  lemma {:induction false} RunKeepsInv(c: Config, s: State, schedule: seq<(nat, Move)>)
    requires Inv(c, s)
    ensures Inv(c, Run(c, s, schedule))
    decreases |schedule|
  {
    if schedule != [] {
      var (t, m) := schedule[0];
      if Enabled(c, s, t, m) {
        StepKeepsInv(c, s, t, m);
        RunKeepsInv(c, Step(c, s, t, m), schedule[1..]);
      } else {
        RunKeepsInv(c, s, schedule[1..]);
      }
    }
  }

  lemma StartInv(c: Config, threads: nat)
    ensures Inv(c, Start(c, threads))
  {
  }

  // ---- Safety

  /** The thread owns no mutex. */
  predicate Outside(pc: Pc) {
    pc.Idle? || pc.AcquiringShared? || pc == AcquiringExclusive(0)
  }

  /**
   * In every reachable state an exclusive holder owns all mutexes and everybody else owns none; a shared holder owns
   * exactly its own mutex, which no other thread has.
   */
  lemma HoldersAreExclusive(c: Config, threads: nat, schedule: seq<(nat, Move)>, t: nat, u: nat)
    requires c.sharers > 0 && t < threads && u < threads && t != u
    ensures var s := Run(c, Start(c, threads), schedule);
            && |s.pcs| == threads && |s.locks| == c.sharers
            && (s.pcs[t].Exclusive? ==> Outside(s.pcs[u]) && forall i | 0 <= i < |s.locks| :: s.locks[i] == LockedBy(t))
            && (s.pcs[t].Shared? ==> forall i | 0 <= i < |s.locks| :: s.locks[i] == LockedBy(t) <==> i == s.pcs[t].own)
            && (s.pcs[t].Shared? && s.pcs[u].Shared? ==> s.pcs[t].own != s.pcs[u].own)
  {
    StartInv(c, threads);
    RunKeepsInv(c, Start(c, threads), schedule);
    RunKeepsThreads(c, Start(c, threads), schedule);
    var s := Run(c, Start(c, threads), schedule);
    if s.pcs[t].Exclusive? {
      ExclusiveExcludes(c, s, t, u);
    }
    if s.pcs[t].Shared? {
      var own := s.pcs[t].own;
      assert s.locks[own] == LockedBy(t) <==> Owns(c, s.pcs[t], own);
      assert s.locks[own] == LockedBy(u) <==> Owns(c, s.pcs[u], own);
    }
  }

  lemma {:induction false} RunKeepsThreads(c: Config, s: State, schedule: seq<(nat, Move)>)
    ensures |Run(c, s, schedule).pcs| == |s.pcs|
    decreases |schedule|
  {
    if schedule != [] {
      var (t, m) := schedule[0];
      RunKeepsThreads(c, if Enabled(c, s, t, m) then Step(c, s, t, m) else s, schedule[1..]);
    }
  }

  lemma InsideOwns(c: Config, pc: Pc) returns (i: nat)
    requires PcInRange(c, pc) && !Outside(pc) && c.sharers > 0
    ensures i < c.sharers && Owns(c, pc, i)
  {
    i := if pc.Exclusive? then 0
         else if pc.AcquiringExclusive? then pc.i - 1
         else if pc.ReleasingExclusive? then pc.i
         else pc.own;
  }

  lemma ExclusiveExcludes(c: Config, s: State, t: nat, u: nat)
    requires Inv(c, s) && c.sharers > 0 && t < |s.pcs| && u < |s.pcs| && t != u && s.pcs[t].Exclusive?
    ensures Outside(s.pcs[u])
    ensures forall i | 0 <= i < |s.locks| :: s.locks[i] == LockedBy(t)
  {
    forall i | 0 <= i < |s.locks|
      ensures s.locks[i] == LockedBy(t) && !Owns(c, s.pcs[u], i)
    {
      assert s.locks[i] == LockedBy(t) <==> Owns(c, s.pcs[t], i);
      assert s.locks[i] == LockedBy(u) <==> Owns(c, s.pcs[u], i);
    }
    if !Outside(s.pcs[u]) {
      var i := InsideOwns(c, s.pcs[u]);
      assert false;
    }
  }

  /** No two threads are exclusive at once. */
  ghost predicate Alone(s: State) {
    forall t, u | 0 <= t < u < |s.pcs| :: !(s.pcs[t].Exclusive? && s.pcs[u].Exclusive?)
  }

  /** With no sharers there is no mutex to hold, and exclusive access excludes nobody. */
  lemma ExclusionExactlyWhen(c: Config)
    ensures (forall threads, schedule :: Alone(Run(c, Start(c, threads), schedule))) <==> c.sharers > 0
  {
    if c.sharers > 0 {
      forall threads: nat, schedule
        ensures Alone(Run(c, Start(c, threads), schedule))
      {
        var s := Run(c, Start(c, threads), schedule);
        StartInv(c, threads);
        RunKeepsInv(c, Start(c, threads), schedule);
        forall t, u | 0 <= t < u < |s.pcs|
          ensures !(s.pcs[t].Exclusive? && s.pcs[u].Exclusive?)
        {
          if s.pcs[t].Exclusive? {
            ExclusiveExcludes(c, s, t, u);
          }
        }
      }
    } else {
      var s0 := Start(c, 2);
      var s1 := Step(c, s0, 0, AcquireExclusive);
      var s2 := Step(c, s1, 1, AcquireExclusive);
      var schedule := [(0, AcquireExclusive), (1, AcquireExclusive)];
      assert schedule[1..] == [(1, AcquireExclusive)];
      assert Run(c, s1, schedule[1..]) == Run(c, s2, []);
      assert Run(c, s0, schedule) == s2;
      assert s2.pcs[0].Exclusive? && s2.pcs[1].Exclusive?;
    }
  }

  /** From the start of a downgrade to its end nobody else gets in exclusively, and it ends with the own mutex alone. */
  lemma DowngradeNeverLetsGo(c: Config, s: State, t: nat, u: nat)
    requires Inv(c, s) && t < |s.pcs| && u < |s.pcs| && t != u && s.pcs[t].Downgrading?
    ensures s.locks[s.pcs[t].own] == LockedBy(t) && !s.pcs[u].Exclusive?
    ensures Enabled(c, s, t, Proceed)
    ensures var s' := Step(c, s, t, Proceed);
            s'.pcs[t].Downgrading? || (s'.pcs[t] == Shared(s.pcs[t].own)
                                       && forall i | 0 <= i < |s'.locks| ::
                                            s'.locks[i] == LockedBy(t) <==> i == s.pcs[t].own)
  {
    var own := s.pcs[t].own;
    assert s.locks[own] == LockedBy(t) <==> Owns(c, s.pcs[t], own);
    assert s.locks[own] == LockedBy(u) <==> Owns(c, s.pcs[u], own);
    StepKeepsInv(c, s, t, Proceed);
  }

  /** A mutex is unlocked only by its owner, and nobody waits for a mutex it has itself. */
  lemma MutexesUsedProperly(c: Config, s: State, t: nat, m: Move)
    requires Inv(c, s) && t < |s.pcs|
    ensures Enabled(c, s, t, m) && 0 <= Unlocks(s.pcs[t], m) ==>
              Unlocks(s.pcs[t], m) < |s.locks| && s.locks[Unlocks(s.pcs[t], m)] == LockedBy(t)
    ensures 0 <= Wanted(s.pcs[t]) ==> Wanted(s.pcs[t]) < |s.locks| && s.locks[Wanted(s.pcs[t])] != LockedBy(t)
  {
    var w := Wanted(s.pcs[t]);
    if 0 <= w {
      assert s.locks[w] == LockedBy(t) <==> Owns(c, s.pcs[t], w);
    }
    if Enabled(c, s, t, m) && 0 <= Unlocks(s.pcs[t], m) {
      OwnsAfter(c, s, t, m, Unlocks(s.pcs[t], m));
    }
  }

  // ---- Progress

  /** Moves that finish calls and leave sections, without starting new calls. */
  predicate Finishing(m: Move) {
    m.Proceed? || m.ReleaseShared? || m.ReleaseExclusive?
  }

  /** The finishing moves a thread still has before it. */
  function Left(c: Config, pc: Pc): int {
    match pc
    case Idle => 0
    case AcquiringShared(_) => 2
    case Shared(_) => 1
    case Upgrading(_) => 2 * c.sharers + 2
    case AcquiringExclusive(i) => 2 * c.sharers - i + 1
    case Exclusive => c.sharers + 1
    case ReleasingExclusive(i) => c.sharers - i
    case Downgrading(_, i) => c.sharers - i + 1
  }

  function Work(c: Config, pcs: seq<Pc>): int {
    if pcs == [] then 0 else Work(c, pcs[..|pcs| - 1]) + Left(c, pcs[|pcs| - 1])
  }

  lemma {:induction false} WorkAfter(c: Config, pcs: seq<Pc>, t: nat, pc: Pc)
    requires t < |pcs|
    ensures Work(c, pcs[t := pc]) == Work(c, pcs) - Left(c, pcs[t]) + Left(c, pc)
    decreases |pcs|
  {
    var n := |pcs| - 1;
    if t == n {
      assert pcs[t := pc][..n] == pcs[..n];
    } else {
      WorkAfter(c, pcs[..n], t, pc);
      assert pcs[t := pc][..n] == pcs[..n][t := pc];
    }
  }

  lemma {:induction false} WorkIsNatural(c: Config, pcs: seq<Pc>)
    requires forall t | 0 <= t < |pcs| :: PcInRange(c, pcs[t])
    ensures Work(c, pcs) >= 0
    ensures Work(c, pcs) == 0 <==> forall t | 0 <= t < |pcs| :: pcs[t].Idle?
    decreases |pcs|
  {
    if pcs != [] {
      var n := |pcs| - 1;
      WorkIsNatural(c, pcs[..n]);
      assert pcs == pcs[..n] + [pcs[n]];
      assert (forall t | 0 <= t < |pcs| :: pcs[t].Idle?) <==>
             pcs[n].Idle? && forall t | 0 <= t < n :: pcs[..n][t].Idle?;
    }
  }

  /**
   * Some thread can always go on. A waiting thread waits for the owner of a mutex, and an owner that waits itself
   * waits for a mutex of higher index.
   */
  lemma {:induction false} SomeoneCanFinish(c: Config, s: State, t: nat) returns (u: nat, m: Move)
    requires Inv(c, s) && t < |s.pcs| && !s.pcs[t].Idle?
    ensures Finishing(m) && Enabled(c, s, u, m)
    decreases if 0 <= Wanted(s.pcs[t])
              then 1 + (if s.pcs[t].AcquiringShared? then c.sharers else c.sharers - Wanted(s.pcs[t])) else 0
  {
    var w := Wanted(s.pcs[t]);
    if 0 <= w && s.locks[w].LockedBy? {
      var owner := s.locks[w].thread;
      assert Owns(c, s.pcs[owner], w);
      u, m := SomeoneCanFinish(c, s, owner);
    } else {
      u := t;
      m := if s.pcs[t].Shared? then ReleaseShared else if s.pcs[t].Exclusive? then ReleaseExclusive else Proceed;
    }
  }

  lemma FinishingCounts(c: Config, s: State, t: nat, m: Move)
    requires Inv(c, s) && Enabled(c, s, t, m) && Finishing(m)
    ensures Work(c, Step(c, s, t, m).pcs) == Work(c, s.pcs) - 1
  {
    WorkAfter(c, s.pcs, t, NextPc(c, s.pcs[t], m));
  }

  /** Every move of the schedule is a finishing one and happens. */
  ghost predicate Drains(c: Config, s: State, schedule: seq<(nat, Move)>)
    decreases |schedule|
  {
    schedule != [] ==>
      var (t, m) := schedule[0];
      Finishing(m) && Enabled(c, s, t, m) && Drains(c, Step(c, s, t, m), schedule[1..])
  }

  /**
   * Without new calls the lock drains, whatever the interleaving: each move takes one unit of work away, none is left
   * exactly when every thread is out, and as long as some is left there is a thread that can move.
   */
  lemma {:induction false} EveryScheduleDrains(c: Config, s: State, schedule: seq<(nat, Move)>)
    requires Inv(c, s) && Drains(c, s, schedule)
    ensures var s' := Run(c, s, schedule);
            && Work(c, s'.pcs) == Work(c, s.pcs) - |schedule| >= 0
            && (|schedule| == Work(c, s.pcs) <==> forall t | 0 <= t < |s'.pcs| :: s'.pcs[t].Idle?)
            && (|schedule| < Work(c, s.pcs) ==> exists u, m :: Finishing(m) && Enabled(c, s', u, m))
    decreases |schedule|
  {
    if schedule == [] {
      WorkIsNatural(c, s.pcs);
      if 0 < Work(c, s.pcs) {
        var t :| 0 <= t < |s.pcs| && !s.pcs[t].Idle?;
        var u, m := SomeoneCanFinish(c, s, t);
      }
    } else {
      var (t, m) := schedule[0];
      StepKeepsInv(c, s, t, m);
      FinishingCounts(c, s, t, m);
      EveryScheduleDrains(c, Step(c, s, t, m), schedule[1..]);
    }
  }

  // ---- Upgrades

  function Turns(t: nat, n: nat): seq<(nat, Move)> {
    if n == 0 then [] else [(t, Proceed)] + Turns(t, n - 1)
  }

  /** A thread that finds the mutexes from i on unlocked gets exclusive access if nobody else moves. */
  lemma {:induction false} AcquiresTheRest(c: Config, s: State, u: nat, i: nat)
    requires |s.locks| == c.sharers && i <= c.sharers && u < |s.pcs| && s.pcs[u] == AcquireFrom(c, i)
    requires forall j | i <= j < c.sharers :: s.locks[j] == Unlocked
    ensures Run(c, s, Turns(u, c.sharers - i)).pcs == s.pcs[u := Exclusive]
    decreases c.sharers - i
  {
    if i < c.sharers {
      var n := c.sharers - i;
      var s' := Step(c, s, u, Proceed);
      AcquiresTheRest(c, s', u, i + 1);
      assert Turns(u, n)[1..] == Turns(u, n - 1);
      assert Run(c, s, Turns(u, n)) == Run(c, s', Turns(u, n - 1));
    }
  }

  lemma RunTwo(c: Config, s: State, a: (nat, Move), b: (nat, Move), rest: seq<(nat, Move)>)
    requires Enabled(c, s, a.0, a.1) && Enabled(c, Step(c, s, a.0, a.1), b.0, b.1)
    ensures Run(c, s, [a, b] + rest) == Run(c, Step(c, Step(c, s, a.0, a.1), b.0, b.1), rest)
  {
    assert ([a, b] + rest)[1..] == [b] + rest;
    assert ([b] + rest)[1..] == rest;
  }

  /** The first two moves of an upgrade leave every mutex unlocked, if no other one was locked. */
  lemma UpgradeGivesUp(c: Config, s: State, t: nat)
    requires Inv(c, s) && t < |s.pcs| && s.pcs[t].Shared?
    requires forall i | 0 <= i < |s.locks| && i != s.pcs[t].own :: s.locks[i] == Unlocked
    ensures Enabled(c, s, t, Upgrade) && Enabled(c, Step(c, s, t, Upgrade), t, Proceed)
    ensures var s2 := Step(c, Step(c, s, t, Upgrade), t, Proceed);
            && s2.pcs == s.pcs[t := AcquiringExclusive(0)] && |s2.locks| == c.sharers
            && forall i | 0 <= i < |s2.locks| :: s2.locks[i] == Unlocked
  {
    assert Step(c, s, t, Upgrade).pcs[t := AcquiringExclusive(0)] == s.pcs[t := AcquiringExclusive(0)];
  }

  /** An idle thread gets exclusive access if it finds every mutex unlocked and nobody else moves. */
  lemma IdleAcquires(c: Config, s: State, u: nat)
    requires |s.locks| == c.sharers && u < |s.pcs| && s.pcs[u].Idle?
    requires forall i | 0 <= i < |s.locks| :: s.locks[i] == Unlocked
    ensures Run(c, s, [(u, AcquireExclusive)] + Turns(u, c.sharers)).pcs == s.pcs[u := Exclusive]
  {
    var s' := Step(c, s, u, AcquireExclusive);
    AcquiresTheRest(c, s', u, 0);
    assert ([(u, AcquireExclusive)] + Turns(u, c.sharers))[1..] == Turns(u, c.sharers);
    assert s'.pcs[u := Exclusive] == s.pcs[u := Exclusive];
  }

  /**
   * An upgrade is not atomic, with any number of sharers. It gives its own mutex up before it takes them all, so
   * that whenever no other mutex is locked any idle thread can get exclusive access before it.
   */
  lemma UpgradeIsNotAtomic(c: Config, s: State, t: nat, u: nat)
    requires Inv(c, s) && t < |s.pcs| && u < |s.pcs| && s.pcs[t].Shared? && s.pcs[u].Idle?
    requires forall i | 0 <= i < |s.locks| && i != s.pcs[t].own :: s.locks[i] == Unlocked
    ensures var schedule := [(t, Upgrade), (t, Proceed)] + ([(u, AcquireExclusive)] + Turns(u, c.sharers));
            Run(c, s, schedule).pcs == s.pcs[t := AcquiringExclusive(0)][u := Exclusive]
  {
    UpgradeGivesUp(c, s, t);
    RunTwo(c, s, (t, Upgrade), (t, Proceed), [(u, AcquireExclusive)] + Turns(u, c.sharers));
    IdleAcquires(c, Step(c, Step(c, s, t, Upgrade), t, Proceed), u);
  }
}
