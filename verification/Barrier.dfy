/** The barrier server: its operations as functions on its clock, held and release tables. */
module Barrier {

  const NONE: int := -1

  /**
   * `blocked` are the cores whose thread waits on its condition variable, `signals` the cores signalled so far and
   * `waits` the number of waits begun. `arrival` is the time of a core's last call and `zeroed` tells whether its
   * recorded clock was cleared since then.
   */
  datatype State = State(
    interval: nat,
    next: nat,
    global: nat,
    fast: bool,
    clock: seq<nat>,
    held: seq<bool>,
    thread: seq<int>,
    group: seq<int>,
    toRelease: seq<nat>,
    blocked: set<nat>,
    signals: seq<nat>,
    waits: nat,
    arrival: seq<nat>,
    zeroed: seq<bool>)

  /**
   * What a periodic hook may do to the barrier while it advances: migrate a thread, or set the mode and the barrier
   * time.
   */
  datatype HookAction = Migrate(thread: int) | SetMode(fast: bool, time: nat)

  /**
   * The surroundings of a call: cores with a running thread, the hook of each pass, the shuffle, and the release width.
   */
  datatype Env = Env(active: set<nat>, hook: nat -> seq<HookAction>, shuffle: seq<nat> -> seq<nat>, hostCores: nat)

  function Start(ncores: nat, interval: nat, fast: bool): State {
    State(interval, interval, 0, fast, seq(ncores, _ => 0), seq(ncores, _ => false), seq(ncores, _ => NONE),
          seq(ncores, _ => NONE),
          [], {}, [], 0, seq(ncores, _ => 0), seq(ncores, _ => false))
  }

  predicate Shape(s: State) {
    && s.interval > 0
    && |s.clock| == |s.held| == |s.thread| == |s.group| == |s.arrival| == |s.zeroed|
    && (forall i | 0 <= i < |s.toRelease| :: s.toRelease[i] < |s.clock|)
    && (forall c | 0 <= c < |s.group| :: NONE <= s.group[c] < |s.group|)
  }

  predicate AnyHeld(s: State) { exists c :: 0 <= c < |s.held| && s.held[c] }

  /** A core counts as running with its own thread or, in detailed mode, with that of a sibling it is master of. */
  predicate CoreRunning(s: State, active: set<nat>, c: nat) {
    c in active || (!s.fast && exists d :: 0 <= d < |s.group| && s.group[d] == c && d in active)
  }

  /** Core c does not keep the barrier from being reached. */
  predicate Passes(s: State, active: set<nat>, c: nat)
    requires Shape(s) && c < |s.clock|
  {
    if s.fast then s.held[c] || !CoreRunning(s, active, c)
    else s.group[c] != NONE || !CoreRunning(s, active, c) || s.clock[c] >= s.next
  }

  /** Core c has itself reached the barrier. */
  predicate AtBarrier(s: State, active: set<nat>, c: nat)
    requires Shape(s) && c < |s.clock|
  {
    if s.fast then s.held[c] else s.group[c] == NONE && CoreRunning(s, active, c) && s.clock[c] >= s.next
  }

  predicate Reached(s: State, active: set<nat>)
    requires Shape(s)
  {
    (forall c | 0 <= c < |s.clock| :: Passes(s, active, c))
      && (exists c :: 0 <= c < |s.clock| && AtBarrier(s, active, c))
  }

  /** The core at the back of the queue is signalled. */
  function Pop(s: State): (r: State)
    requires Shape(s) && s.toRelease != []
    ensures Shape(r)
  {
    var k := |s.toRelease| - 1;
    var c := s.toRelease[k];
    s.(toRelease := s.toRelease[..k], blocked := s.blocked - {c}, signals := s.signals + [c])
  }

  /** Up to n queued cores are signalled, from the back; all of them for a negative n. */
  function DoRelease(s: State, n: int): (r: State)
    requires Shape(s)
    ensures Shape(r)
    decreases |s.toRelease|
  {
    if s.toRelease == [] || n == 0 then s else DoRelease(Pop(s), n - 1)
  }

  /** Clocks of held cores of a thread are cleared, so that the next release lets it go. */
  function ZeroClocks(s: State, t: int): (r: State)
    requires Shape(s)
    ensures Shape(r)
  {
    s.(clock := seq(|s.clock|, (c: nat) requires c < |s.clock| =>
                      if s.held[c] && s.thread[c] == t then 0 else s.clock[c]),
       zeroed := seq(|s.clock|, (c: nat) requires c < |s.clock| => s.zeroed[c] || (s.held[c] && s.thread[c] == t)))
  }

  function ReleaseThread(s: State, t: int): (r: State)
    requires Shape(s)
    ensures Shape(r)
  {
    DoRelease(ZeroClocks(s, t), 1)
  }

  function Max(a: nat, b: nat): nat { if a > b then a else b }

  /** setFastForward: the mode is set, and the barrier time only raised; time 0 stands for none given. */
  function SetFastForward(s: State, fast: bool, time: nat): (r: State)
    requires Shape(s)
    ensures Shape(r)
  {
    s.(fast := fast, next := Max(s.next, time))
  }

  function HookStep(s: State, a: HookAction): (r: State)
    requires Shape(s)
    ensures Shape(r)
  {
    match a case Migrate(t) => ReleaseThread(s, t) case SetMode(fast, time) => SetFastForward(s, fast, time)
  }

  function RunHook(s: State, actions: seq<HookAction>): (r: State)
    requires Shape(s)
    ensures Shape(r)
    decreases |actions|
  {
    if actions == [] then s
    else
      RunHook(HookStep(s, actions[0]), actions[1..])
  }

  /** Core c is let go by this pass. */
  predicate Due(s: State, c: nat)
    requires Shape(s) && c < |s.clock|
  {
    s.held[c] && s.clock[c] < s.next
  }

  /** Core c, if due, is no longer held and, unless it is the caller's, queued. */
  function PassOne(s: State, caller: int, c: nat): (r: State)
    requires Shape(s) && c < |s.clock|
    ensures Shape(r)
  {
    if !Due(s, c) then s
    else if s.thread[c] == caller then s.(held := s.held[c := false])
    else s.(held := s.held[c := false], toRelease := s.toRelease + [c])
  }

  /** One pass over the cores from c on: those due are no longer held, and all but the caller's are queued. */
  function PassFrom(s: State, caller: int, c: nat): (r: State)
    requires Shape(s) && c <= |s.clock|
    ensures Shape(r)
    decreases |s.clock| - c
  {
    if c == |s.clock| then s else PassFrom(PassOne(s, caller, c), caller, c + 1)
  }

  predicate AnyDue(s: State)
    requires Shape(s)
  {
    exists c :: 0 <= c < |s.clock| && Due(s, c)
  }

  /** The barrier advanced by one interval, after the hook of this pass. */
  function Advance(s: State, actions: seq<HookAction>): (r: State)
    requires Shape(s)
    ensures Shape(r)
  {
    var s1 := RunHook(s.(global := s.next), actions);
    s1.(next := s1.next + s1.interval)
  }

  /** The least recorded clock among the first n cores that are held. */
  function LeastHeld(s: State, n: nat): (m: nat)
    requires Shape(s) && n <= |s.clock|
  {
    if n == 0 then 0
    else
      var m := LeastHeld(s, n - 1);
      if !s.held[n - 1] then m
      else if (exists c :: 0 <= c < n - 1 && s.held[c]) && m <= s.clock[n - 1] then m
      else s.clock[n - 1]
  }

  /** How far the barrier still has to go before it lets some held core go. */
  function Distance(s: State): nat
    requires Shape(s)
  {
    var m := LeastHeld(s, |s.clock|);
    if m < s.next then 0 else m - s.next + 1
  }

  lemma {:induction false} LeastHeldIsLeast(s: State, n: nat)
    requires Shape(s) && n <= |s.clock|
    ensures (exists c :: 0 <= c < n && s.held[c]) ==>
              && (exists c :: 0 <= c < n && s.held[c] && s.clock[c] == LeastHeld(s, n))
              && (forall c | 0 <= c < n && s.held[c] :: LeastHeld(s, n) <= s.clock[c])
  {
    if n > 0 {
      LeastHeldIsLeast(s, n - 1);
      if s.held[n - 1] {
        var m := LeastHeld(s, n);
        assert m == s.clock[n - 1] || m == LeastHeld(s, n - 1);
      }
    }
  }

  /** What a hook leaves alone: who is held for whom; clocks it only clears, the barrier time it only raises. */
  ghost predicate HookEffect(s: State, r: State) {
    && Shape(s) && Shape(r) && |r.clock| == |s.clock|
    && r.held == s.held && r.thread == s.thread && r.group == s.group && r.interval == s.interval
    && r.global == s.global && r.arrival == s.arrival && s.next <= r.next
    && (forall c | 0 <= c < |s.clock| ::
          || (r.clock[c] == s.clock[c] && r.zeroed[c] == s.zeroed[c])
          || (s.held[c] && r.clock[c] == 0 && r.zeroed[c]))
  }

  lemma {:induction false} DoReleaseEffect(s: State, n: int)
    requires Shape(s)
    ensures var r := DoRelease(s, n);
            && r == s.(toRelease := r.toRelease, blocked := r.blocked, signals := r.signals)
            && r.toRelease <= s.toRelease && (n < 0 ==> r.toRelease == [])
    decreases |s.toRelease|
  {
    if s.toRelease != [] && n != 0 {
      var k := |s.toRelease| - 1;
      var c := s.toRelease[k];
      DoReleaseEffect(Pop(s), n - 1);
    }
  }

  lemma ReleaseThreadEffect(s: State, t: int)
    requires Shape(s)
    ensures HookEffect(s, ReleaseThread(s, t))
  {
    DoReleaseEffect(ZeroClocks(s, t), 1);
  }

  lemma {:induction false} RunHookEffect(s: State, actions: seq<HookAction>)
    requires Shape(s)
    ensures HookEffect(s, RunHook(s, actions))
    decreases |actions|
  {
    if actions != [] {
      if actions[0].Migrate? {
        ReleaseThreadEffect(s, actions[0].thread);
      }
      RunHookEffect(HookStep(s, actions[0]), actions[1..]);
    }
  }

  lemma AdvanceEffect(s: State, actions: seq<HookAction>)
    requires Shape(s)
    ensures var r := Advance(s, actions);
            && r.global == s.next && s.next + s.interval <= r.next
            && HookEffect(s.(global := s.next), r.(next := r.next - r.interval))
  {
    RunHookEffect(s.(global := s.next), actions);
  }

  /** Each pass that lets nobody go brings the barrier closer to the first held core. */
  lemma AdvanceCloser(s: State, actions: seq<HookAction>)
    requires Shape(s) && AnyHeld(s) && !AnyDue(Advance(s, actions))
    ensures AnyHeld(Advance(s, actions)) && Distance(Advance(s, actions)) < Distance(s)
  {
    var r := Advance(s, actions);
    AdvanceEffect(s, actions);
    LeastHeldIsLeast(s, |s.clock|);
    LeastHeldIsLeast(r, |r.clock|);
    var h :| 0 <= h < |s.held| && s.held[h] && s.clock[h] == LeastHeld(s, |s.clock|);
    assert r.held[h] && !Due(r, h);
    var g :| 0 <= g < |r.held| && r.held[g] && r.clock[g] == LeastHeld(r, |r.clock|);
    assert !Due(r, g);
  }

  /**
   * The release loop up to the pass that lets somebody go. It ends whatever the hooks do, as long as some core is held.
   */
  function AdvanceUntilDue(s: State, hook: nat -> seq<HookAction>, i: nat): (r: State)
    requires Shape(s) && AnyHeld(s)
    ensures Shape(r) && AnyDue(r)
    decreases Distance(s)
  {
    var a := Advance(s, hook(i));
    if AnyDue(a) then a
    else
      AdvanceCloser(s, hook(i));
      AdvanceUntilDue(a, hook, i + 1)
  }

  /** Some order of the queued cores. */
  function Shuffled(env: Env, cores: seq<nat>): (r: seq<nat>)
    ensures multiset(r) == multiset(cores)
  {
    if multiset(env.shuffle(cores)) == multiset(cores) then env.shuffle(cores) else cores
  }

  function MaxClock(clock: seq<nat>, c: nat, floor: nat): (m: nat)
    requires c <= |clock|
    ensures floor <= m && forall d | c <= d < |clock| :: clock[d] <= m
    ensures m == floor || exists d :: c <= d < |clock| && clock[d] == m
    decreases |clock| - c
  {
    if c == |clock| then floor else MaxClock(clock, c + 1, Max(floor, clock[c]))
  }

  /** In fast-forward mode the barrier first jumps to the latest recorded clock. */
  function SkipAhead(s: State): (r: State)
    requires Shape(s)
    ensures Shape(r)
  {
    if s.fast then s.(next := MaxClock(s.clock, 0, s.next)) else s
  }

  lemma ShuffledInRange(env: Env, cores: seq<nat>, n: nat)
    requires forall i | 0 <= i < |cores| :: cores[i] < n
    ensures forall i | 0 <= i < |Shuffled(env, cores)| :: Shuffled(env, cores)[i] < n
  {
    var r := Shuffled(env, cores);
    forall i | 0 <= i < |r|
      ensures r[i] < n
    {
      assert r[i] in multiset(r);
      assert r[i] in multiset(cores);
    }
  }

  /** Is the caller of the release among the cores it lets go? */
  predicate CallerDue(s: State, caller: int)
    requires Shape(s)
  {
    exists c :: 0 <= c < |s.clock| && Due(s, c) && s.thread[c] == caller
  }

  /** The barrier is released; the flag tells whether the caller must wait. */
  function BarrierRelease(s: State, caller: int, env: Env): (r: (State, bool))
    requires Shape(s) && AnyHeld(s)
    ensures Shape(r.0)
  {
    var a := AdvanceUntilDue(SkipAhead(s), env.hook, 0);
    var p := PassFrom(a, caller, 0);
    ShuffledInRange(env, p.toRelease, |p.clock|);
    var q := p.(toRelease := Shuffled(env, p.toRelease));
    (DoRelease(q, if q.fast then -1 else env.hostCores), !CallerDue(a, caller))
  }

  /** The table entry of a core: its own, or in detailed mode that of its group's master. */
  function MasterOf(s: State, c: nat): (m: nat)
    requires Shape(s) && c < |s.clock|
    ensures m < |s.clock|
  {
    if s.fast || s.group[c] == NONE then c else s.group[c]
  }

  function Enter(s: State, m: nat, time: nat, t: int): (r: State)
    requires Shape(s) && m < |s.clock|
    ensures Shape(r) && AnyHeld(r)
  {
    var r := DoRelease(s, 1);
    DoReleaseEffect(s, 1);
    var r' := r.(clock := r.clock[m := time], held := r.held[m := true], thread := r.thread[m := t],
                 arrival := r.arrival[m := time], zeroed := r.zeroed[m := false]);
    assert r'.held[m];
    r'
  }

  function Wait(s: State, m: nat): (r: State)
    ensures Shape(s) ==> Shape(r)
  {
    s.(blocked := s.blocked + {m}, waits := s.waits + 1)
  }

  /** The caller waits if it did not let itself go. */
  function Settled(r: (State, bool), m: nat): State { if r.1 then Wait(r.0, m) else r.0 }

  /** The thread on core m has entered: it releases the barrier if it is the last, and waits unless it let itself go. */
  function Rendezvous(s: State, m: nat, t: int, env: Env): (r: State)
    requires Shape(s) && AnyHeld(s)
    ensures Shape(r)
  {
    if Reached(s, env.active) then Settled(BarrierRelease(s, t, env), m) else Wait(s, m)
  }

  function Synchronize(s: State, c: nat, time: nat, t: int, env: Env): (r: State)
    requires Shape(s) && c < |s.clock|
    ensures Shape(r)
  {
    var m := MasterOf(s, c);
    if time < s.next && !s.fast then s.(arrival := s.arrival[m := time], zeroed := s.zeroed[m := false])
    else Rendezvous(Enter(s, m, time, t), m, t, env)
  }

  /** After a thread stopped: the barrier may now be reached. */
  function Signal(s: State, env: Env): (r: State)
    requires Shape(s)
    ensures Shape(r)
  {
    if Reached(s, env.active) && AnyHeld(s) then BarrierRelease(s, NONE, env).0 else s
  }

  datatype Event =
    | Call(core: nat, time: nat, thread: int)
    | Stop(thread: int)
    | MigrateThread(thread: int)
    | SetGroup(core: nat, master: int)
    | SwitchMode(fast: bool, time: nat)

  /** The event names cores that exist. */
  predicate InRange(s: State, e: Event) {
    match e
    case Call(c, _, _) => c < |s.clock|
    case SetGroup(c, m) => c < |s.clock| && NONE <= m < |s.clock|
    case _ => true
  }

  function Apply(s: State, e: Event, env: Env): (r: State)
    requires Shape(s) && InRange(s, e)
    ensures Shape(r)
  {
    match e
    case Call(c, time, t) => Synchronize(s, c, time, t, env)
    case Stop(t) => Signal(ReleaseThread(s, t), env)
    case MigrateThread(t) => ReleaseThread(s, t)
    case SetGroup(c, m) => s.(group := s.group[c := m])
    case SwitchMode(fast, time) => SetFastForward(s, fast, time)
  }

  /** The call is not let through at once. */
  predicate Enters(s: State, time: nat) { s.fast || s.next <= time }

  /** The barrier is reached while a released core still waits to be woken. */
  predicate ReachedTooSoon(s: State, active: set<nat>)
    requires Shape(s)
  {
    Reached(s, active) && s.toRelease != []
  }

  /** The event runs into an assertion of the server: a core twice in the barrier, or a barrier reached too soon. */
  predicate Asserts(s: State, e: Event, env: Env)
    requires Shape(s) && InRange(s, e)
  {
    match e
    case Call(c, time, t) =>
      var m := MasterOf(s, c);
      s.held[m] || (Enters(s, time) && ReachedTooSoon(Enter(s, m, time, t), env.active))
    case Stop(t) => ReachedTooSoon(ReleaseThread(s, t), env.active)
    case SetGroup(c, m) => m != NONE && s.held[c]
    case _ => false
  }
}
