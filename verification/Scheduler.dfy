/** The pinned scheduler: each operation as a function on the scheduler's tables. */
module Scheduler {
  import opened Prelude

  const NONE: int := -1
  const FS_PER_PS: nat := 1000

  /** The thread manager's view of a thread: not created, starting up, or past start-up. */
  datatype Phase = Absent | Initializing | Started

  datatype ThreadInfo = ThreadInfo(hasAffinity: bool, explicit: bool, affinity: set<nat>, core: int, lastIn: nat,
                                   lastOut: nat)

  /** A placement by threadCreate or a call of moveThread. */
  datatype Entry = Entry(thread: nat, core: int)

  datatype State = State(
    ncores: nat,
    quantum: nat,
    lastPeriodic: nat,
    info: seq<ThreadInfo>,
    runnable: seq<bool>,
    phase: seq<Phase>,
    coreThread: seq<int>,
    quantumLeft: seq<nat>,
    log: seq<Entry>)

  const NEW_THREAD := ThreadInfo(false, false, {}, NONE, 0, 0)

  function Start(ncores: nat, nthreads: nat, quantum: nat): State {
    State(ncores, quantum, 0, seq(nthreads, _ => NEW_THREAD), seq(nthreads, _ => false), seq(nthreads, _ => Absent),
          seq(ncores, _ => NONE), seq(ncores, _ => 0), [])
  }

  /** Tables of matching size, holding only ids that exist. */
  predicate Shape(s: State) {
    && |s.info| == |s.runnable| == |s.phase|
    && |s.coreThread| == |s.quantumLeft| == s.ncores
    && (forall c | 0 <= c < s.ncores :: NONE <= s.coreThread[c] < |s.info|)
    && (forall t | 0 <= t < |s.info| :: NONE <= s.info[t].core < s.ncores)
  }

  function PS(time: nat): nat { time / FS_PER_PS }

  predicate Candidate(s: State, t: nat, c: nat)
    requires Shape(s) && t < |s.info|
  {
    c in s.info[t].affinity && s.runnable[t] && (s.info[t].core == NONE || s.info[t].core == c)
  }

  /** Running threads score by how long they have run, negatively; waiting ones by how long they have waited. */
  function Score(s: State, t: nat, time: nat): int
    requires t < |s.info|
  {
    if s.info[t].core != NONE then PS(s.info[t].lastIn) - PS(time) else PS(time) - PS(s.info[t].lastOut)
  }

  /** The choice among the first n threads. */
  function PickAmong(s: State, c: nat, time: nat, n: nat): (p: int)
    requires Shape(s) && n <= |s.info|
    ensures NONE <= p < n
  {
    if n == 0 then NONE
    else
      var best := PickAmong(s, c, time, n - 1);
      if Candidate(s, n - 1, c) && (best == NONE || Score(s, n - 1, time) > Score(s, best, time)) then n - 1 else best
  }

  function Pick(s: State, c: nat, time: nat): int
    requires Shape(s)
  {
    PickAmong(s, c, time, |s.info|)
  }

  function FreeCoreFrom(s: State, t: nat, c: nat): (r: int)
    requires Shape(s) && t < |s.info| && c <= s.ncores
    ensures r == NONE || c <= r < s.ncores
    decreases s.ncores - c
  {
    if c == s.ncores then NONE
    else if c in s.info[t].affinity && s.coreThread[c] == NONE then c
    else FreeCoreFrom(s, t, c + 1)
  }

  function FreeCore(s: State, t: nat): int
    requires Shape(s) && t < |s.info|
  {
    FreeCoreFrom(s, t, 0)
  }

  /** The current thread of a core leaves it, with a penalty that keeps it from being reconsidered in the same pass. */
  function Unschedule(s: State, time: nat, c: nat): (r: State)
    requires Shape(s) && c < s.ncores
    ensures Shape(r) && r.ncores == s.ncores
  {
    var t := s.coreThread[c];
    if t == NONE then s
    else s.(info := s.info[t := s.info[t].(core := NONE, lastOut := time + c * FS_PER_PS)],
            log := s.log + [Entry(t, NONE)])
  }

  /** A thread, or none, takes a core. */
  function Install(s: State, time: nat, c: nat, t: int): (r: State)
    requires Shape(s) && c < s.ncores && NONE <= t < |s.info|
    ensures Shape(r) && r.ncores == s.ncores
  {
    var taken := s.coreThread[c := t];
    if t == NONE then s.(coreThread := taken)
    else
      var elsewhere := s.info[t].core;
      s.(coreThread := if elsewhere != NONE then taken[elsewhere := NONE] else taken,
         info := s.info[t := s.info[t].(core := c, lastIn := time)],
         log := s.log + [Entry(t, c)])
  }

  function Reschedule(s: State, time: nat, c: nat): (r: State)
    requires Shape(s) && c < s.ncores
    ensures Shape(r) && r.ncores == s.ncores
  {
    var current := s.coreThread[c];
    if current != NONE && s.phase[current] == Initializing then s
    else
      var chosen := Pick(s, c, time);
      var moved := if current == chosen then s else Install(Unschedule(s, time, c), time, c, chosen);
      moved.(quantumLeft := moved.quantumLeft[c := s.quantum])
  }

  function RescheduleFree(s: State, t: nat, time: nat): (r: State)
    requires Shape(s) && t < |s.info|
    ensures Shape(r)
  {
    var free := FreeCore(s, t);
    if free == NONE then s else Reschedule(s, time, free)
  }

  // ---- Events

  function SetInitialAffinity(i: ThreadInfo, cores: set<nat>): ThreadInfo {
    if i.hasAffinity then i else i.(affinity := cores, hasAffinity := cores != {})
  }

  function ThreadCreate(s: State, t: nat, cores: set<nat>): (r: State)
    requires Shape(s) && t < |s.info|
    ensures Shape(r)
  {
    var s1 := s.(info := s.info[t := SetInitialAffinity(s.info[t], cores)], phase := s.phase[t := Initializing]);
    var free := FreeCore(s1, t);
    if free == NONE then s1.(info := s1.info[t := s1.info[t].(core := NONE)])
    else s1.(info := s1.info[t := s1.info[t].(core := free)], coreThread := s1.coreThread[free := t],
             quantumLeft := s1.quantumLeft[free := s1.quantum], log := s1.log + [Entry(t, free)])
  }

  function ThreadYield(s: State, t: nat, time: nat): (r: State)
    requires Shape(s) && t < |s.info|
    ensures Shape(r)
  {
    var c := s.info[t].core;
    if c == NONE then s
    else
      var s1 := Reschedule(s.(quantumLeft := s.quantumLeft[c := 0]), time, c);
      if c in s1.info[t].affinity then s1 else RescheduleFree(s1, t, time)
  }

  function CoresBelow(n: nat): (cores: set<nat>)
    ensures forall c: nat :: c in cores <==> c < n
  {
    if n == 0 then {} else CoresBelow(n - 1) + {n - 1}
  }

  function ChangeAffinity(s: State, t: nat, mask: Option<set<nat>>): (r: State)
    requires Shape(s) && t < |s.info|
    ensures Shape(r)
  {
    var i := s.info[t];
    var all := CoresBelow(s.ncores);
    var i' := match mask
      case None => i.(explicit := true, affinity := i.affinity + all, hasAffinity := i.hasAffinity || s.ncores > 0)
      case Some(cores) => i.(explicit := true, affinity := cores, hasAffinity := i.hasAffinity || cores != {});
    s.(info := s.info[t := i'])
  }

  function ThreadSetAffinity(s: State, caller: int, t: nat, mask: Option<set<nat>>, time: nat): (r: State)
    requires Shape(s) && t < |s.info|
    ensures Shape(r)
  {
    var s1 := ChangeAffinity(s, t, mask);
    var c := s1.info[t].core;
    if s1.phase[t] == Absent then s1
    else if t == caller then ThreadYield(s1, t, time)
    else if c != NONE && c !in s1.info[t].affinity then s1.(quantumLeft := s1.quantumLeft[c := 0])
    else if s1.runnable[t] && c == NONE then RescheduleFree(s1, t, time)
    else s1
  }

  function ThreadStart(s: State, t: nat, time: nat): (r: State)
    requires Shape(s) && t < |s.info|
    ensures Shape(r)
  {
    RescheduleFree(s.(runnable := s.runnable[t := true], phase := s.phase[t := Started]), t, time)
  }

  /** A stall that is only the consequence of being unscheduled does not make the thread unrunnable. */
  function ThreadStall(s: State, t: nat, unscheduled: bool, time: nat): (r: State)
    requires Shape(s) && t < |s.info|
    ensures Shape(r)
  {
    if unscheduled then s else ThreadStop(s, t, time)
  }

  /** Shared by stall and exit: the thread stops being runnable and its core looks for another one. */
  function ThreadStop(s: State, t: nat, time: nat): (r: State)
    requires Shape(s) && t < |s.info|
    ensures Shape(r)
  {
    var s1 := s.(runnable := s.runnable[t := false]);
    if s1.info[t].core != NONE then Reschedule(s1, time, s1.info[t].core) else s1
  }

  function ThreadResume(s: State, t: nat, time: nat): (r: State)
    requires Shape(s) && t < |s.info|
    ensures Shape(r)
  {
    RescheduleFree(s.(runnable := s.runnable[t := true]), t, time)
  }

  function PeriodicCore(s: State, time: nat, delta: nat, c: nat): (r: State)
    requires Shape(s) && c < s.ncores
    ensures Shape(r) && r.ncores == s.ncores
  {
    if delta > s.quantumLeft[c] || s.coreThread[c] == NONE then Reschedule(s, time, c)
    else s.(quantumLeft := s.quantumLeft[c := s.quantumLeft[c] - delta])
  }

  function PeriodicFrom(s: State, time: nat, delta: nat, c: nat): (r: State)
    requires Shape(s) && c <= s.ncores
    ensures Shape(r) && r.ncores == s.ncores
    decreases s.ncores - c
  {
    if c == s.ncores then s else PeriodicFrom(PeriodicCore(s, time, delta, c), time, delta, c + 1)
  }

  function Periodic(s: State, time: nat): (r: State)
    requires Shape(s) && s.lastPeriodic <= time
    ensures Shape(r) && r.ncores == s.ncores
  {
    PeriodicFrom(s, time, time - s.lastPeriodic, 0).(lastPeriodic := time)
  }

  datatype Event =
    | Create(thread: nat, cores: set<nat>)
    | Yield(thread: nat, time: nat)
    | SetAffinity(caller: int, thread: nat, mask: Option<set<nat>>, time: nat)
    | StartUp(thread: nat, time: nat)
    | Stall(thread: nat, unscheduled: bool, time: nat)
    | Resume(thread: nat, time: nat)
    | Exit(thread: nat, time: nat)
    | Tick(time: nat)

  /**
   * What the callers of the scheduler guarantee: known threads, created once, masks of real cores, time that does not
   * go back.
   */
  predicate Allowed(s: State, e: Event) {
    match e
    case Create(t, cores) =>
      t < |s.info| && t < |s.phase| && s.phase[t] == Absent && forall c | c in cores :: c < s.ncores
    case Yield(t, _) => t < |s.info| && t < |s.phase| && s.phase[t] != Absent
    case SetAffinity(_, t, mask, _) => t < |s.info| && (mask.Some? ==> forall c | c in mask.value :: c < s.ncores)
    case StartUp(t, _) => t < |s.info| && t < |s.phase| && s.phase[t] == Initializing
    case Stall(t, _, _) => t < |s.info| && t < |s.phase| && s.phase[t] != Absent
    case Resume(t, _) => t < |s.info| && t < |s.phase| && s.phase[t] != Absent
    case Exit(t, _) => t < |s.info| && t < |s.phase| && s.phase[t] != Absent
    case Tick(time) => s.lastPeriodic <= time
  }

  function Apply(s: State, e: Event): (r: State)
    requires Shape(s) && Allowed(s, e)
    ensures Shape(r)
  {
    match e
    case Create(t, cores) => ThreadCreate(s, t, cores)
    case Yield(t, time) => ThreadYield(s, t, time)
    case SetAffinity(caller, t, mask, time) => ThreadSetAffinity(s, caller, t, mask, time)
    case StartUp(t, time) => ThreadStart(s, t, time)
    case Stall(t, unscheduled, time) => ThreadStall(s, t, unscheduled, time)
    case Resume(t, time) => ThreadResume(s, t, time)
    case Exit(t, time) => ThreadStop(s, t, time)
    case Tick(time) => Periodic(s, time)
  }
}
