/** Clients that skip calls against clients that always ask: the two runs of one server, side by side. */
module BarrierFilter {
  import opened Barrier
  import opened BarrierProofs
  import opened BarrierClient

  /**
   * A call that a client has made and not returned from: its thread, the core it is entered for, and whether the clock
   * of that core was cleared while it waited.
   */
  datatype Open = Open(core: nat, time: nat, thread: int, master: nat, cleared: bool)

  /**
   * The server and the clients of all cores. `asked` is the time of the call that a client returned from last and
   * `cleared` tells whether the clock was cleared in it; a client decides by the former whether to ask again.
   */
  datatype Clients = Clients(server: State, asked: seq<nat>, cleared: seq<bool>, open: seq<Open>)

  /**
   * A core wants to synchronize, in spite of its clock if so told; a client returns from the call at this place among
   * those open; or something else happens to the server.
   */
  datatype Input =
    | Attempt(core: nat, time: nat, thread: int, ignoreTime: bool)
    | Return(place: nat)
    | Other(event: Event)

  predicate SameSizes(k: Clients) {
    && |k.asked| == |k.cleared| == |k.server.clock|
    && forall i | 0 <= i < |k.open| :: k.open[i].core < |k.server.clock| && k.open[i].master < |k.server.clock|
  }

  /** The input concerns the server. */
  predicate Concerns(s: State, x: Input) {
    match x
    case Attempt(c, time, t, _) => InRange(s, Call(c, time, t))
    case Return(_) => true
    case Other(e) => InRange(s, e) && !e.Call?
  }

  predicate Fits(k: Clients, x: Input) {
    Shape(k.server) && SameSizes(k) && Concerns(k.server, x) && (x.Return? ==> x.place < |k.open|)
  }

  /** What the server does if it is asked. */
  function Asked(s: State, x: Input, env: Env): (r: State)
    requires Shape(s) && Concerns(s, x)
    ensures Shape(r)
  {
    match x
    case Attempt(c, time, t, _) => Apply(s, Call(c, time, t), env)
    case Return(_) => s
    case Other(e) => Apply(s, e, env)
  }

  predicate Skips(k: Clients, x: Input)
    requires Fits(k, x)
  {
    x.Attempt? && !x.ignoreTime && x.time < NextSync(k.asked[x.core], k.server.interval)
  }

  /** The thread of the call is held in the barrier. */
  predicate HeldFor(s: State, o: Open)
    requires Shape(s) && o.master < |s.clock|
  {
    s.held[o.master] && s.thread[o.master] == o.thread
  }

  /** An open call after a step of the server. */
  function Noted(s: State, s': State, o: Open): Open
    requires Shape(s) && Shape(s') && o.master < |s.clock| == |s'.clock|
  {
    o.(cleared := o.cleared || (HeldFor(s, o) && s'.zeroed[o.master]))
  }

  function NotedAll(s: State, s': State, open: seq<Open>): seq<Open>
    requires Shape(s) && Shape(s') && |s.clock| == |s'.clock|
    requires forall i | 0 <= i < |open| :: open[i].master < |s.clock|
  {
    seq(|open|, i requires 0 <= i < |open| => Noted(s, s', open[i]))
  }

  /** The call a client has just made. */
  function Opened(s: State, s': State, x: Input): Open
    requires Shape(s) && Shape(s') && |s.clock| == |s'.clock| && x.Attempt? && x.core < |s.clock|
  {
    var m := MasterOf(s, x.core);
    Open(x.core, x.time, x.thread, m, s'.zeroed[m])
  }

  /** What the filtering clients make of an input. */
  function FilteredStep(k: Clients, x: Input, env: Env): Clients
    requires Fits(k, x)
  {
    var s' := Asked(k.server, x, env);
    AskedSize(k.server, x, env);
    if Skips(k, x) then k
    else
      match x
      case Attempt(_, _, _, _) =>
        k.(server := s', open := NotedAll(k.server, s', k.open) + [Opened(k.server, s', x)])
      case Return(i) =>
        var o := k.open[i];
        k.(asked := k.asked[o.core := o.time], cleared := k.cleared[o.core := o.cleared],
           open := k.open[..i] + k.open[i + 1..])
      case Other(_) => k.(server := s', open := NotedAll(k.server, s', k.open))
  }

  /**
   * A client makes the call exactly if it is told to in spite of the clock, or its time has come up to the next
   * multiple of the interval after the call it returned from last; otherwise nothing happens.
   */
  lemma CallMadeExactlyWhen(k: Clients, c: nat, time: nat, t: int, ignoreTime: bool, env: Env)
    requires Fits(k, Attempt(c, time, t, ignoreTime))
    ensures var k' := FilteredStep(k, Attempt(c, time, t, ignoreTime), env);
            if ignoreTime || time >= (k.asked[c] / k.server.interval + 1) * k.server.interval then
              k'.server == Apply(k.server, Call(c, time, t), env) && |k'.open| == |k.open| + 1
              && k'.open[|k.open|].core == c && k'.open[|k.open|].time == time && k'.asked == k.asked
            else k' == k
  {
    var q, i := k.asked[c] / k.server.interval, k.server.interval;
    assert (q + 1) * i == q * i + i;
  }

  function StartClients(ncores: nat, interval: nat): Clients {
    Clients(Start(ncores, interval, false), seq(ncores, _ => 0), seq(ncores, _ => false), [])
  }

  /** The event by which the input reaches the server. */
  ghost predicate Reaches(s: State, x: Input, env: Env, s': State) {
    match x
    case Attempt(c, time, t, _) => Takes(s, Call(c, time, t), env, s')
    case Return(_) => s' == s
    case Other(e) => Takes(s, e, env, s')
  }

  /**
   * One step with filtering clients: the calls that are made are allowed and run into no assertion, and a client
   * returns only from a call whose thread is no longer held.
   */
  ghost predicate FilteredTakes(k: Clients, x: Input, env: Env, k': Clients) {
    && Fits(k, x) && k' == FilteredStep(k, x, env)
    && (!Skips(k, x) ==> Reaches(k.server, x, env, k'.server))
    && (x.Return? ==> !HeldFor(k.server, k.open[x.place]))
  }

  ghost predicate FilteredRun(ks: seq<Clients>, xs: seq<Input>, envs: seq<Env>) {
    && |ks| == |xs| + 1 && |envs| == |xs|
    && forall i {:trigger FilteredTakes(ks[i], xs[i], envs[i], ks[i + 1])} | 0 <= i < |xs| ::
         FilteredTakes(ks[i], xs[i], envs[i], ks[i + 1])
  }

  /** One step with clients that always ask. */
  ghost predicate AskingTakes(s: State, x: Input, env: Env, s': State) {
    Shape(s) && Concerns(s, x) && s' == Asked(s, x, env)
  }

  ghost predicate AskingRun(ss: seq<State>, xs: seq<Input>, envs: seq<Env>) {
    && |ss| == |xs| + 1 && |envs| == |xs|
    && forall i {:trigger AskingTakes(ss[i], xs[i], envs[i], ss[i + 1])} | 0 <= i < |xs| ::
         AskingTakes(ss[i], xs[i], envs[i], ss[i + 1])
  }

  lemma AskedSize(s: State, x: Input, env: Env)
    requires Shape(s) && Concerns(s, x)
    ensures |Asked(s, x, env).clock| == |s.clock|
  {
    match x
    case Attempt(c, time, t, _) => ApplySize(s, Call(c, time, t), env);
    case Return(_) =>
    case Other(e) => ApplySize(s, e, env);
  }

  /** Call i of the run is skipped although the server would not have let it through. */
  ghost predicate Misses(ks: seq<Clients>, xs: seq<Input>, i: nat) {
    i < |xs| && i < |ks| && Fits(ks[i], xs[i]) && Skips(ks[i], xs[i]) && Enters(ks[i].server, xs[i].time)
  }

  /** A call that is let through leaves the tables alone; one that is not makes somebody wait or moves the barrier. */
  lemma CallChangesExactlyWhen(s: State, c: nat, time: nat, t: int, env: Env)
    requires Shape(s) && c < |s.clock|
    ensures Same(s, Synchronize(s, c, time, t, env)) <==> !Enters(s, time)
  {
    if Enters(s, time) {
      var m := MasterOf(s, c);
      DoReleaseEffect(s, 1);
      var s1 := Enter(s, m, time, t);
      if Reached(s1, env.active) {
        ReleaseForward(s1, t, env);
      }
    }
  }

  lemma StepsAlike(k: Clients, s: State, x: Input, env: Env, k': Clients, s': State)
    requires FilteredTakes(k, x, env, k') && AskingTakes(s, x, env, s') && Same(k.server, s)
    ensures Same(k'.server, s') <==> !(Skips(k, x) && Enters(k.server, x.time))
  {
    match x
    case Attempt(c, time, t, _) =>
      ApplySame(k.server, s, Call(c, time, t), env);
      CallChangesExactlyWhen(s, c, time, t, env);
    case Return(_) =>
    case Other(e) => ApplySame(k.server, s, e, env);
  }

  lemma {:induction false} AlikeUpTo(ks: seq<Clients>, ss: seq<State>, xs: seq<Input>, envs: seq<Env>, n: nat)
    requires FilteredRun(ks, xs, envs) && AskingRun(ss, xs, envs) && Same(ks[0].server, ss[0]) && n <= |xs|
    requires forall i: nat | i < n :: !Misses(ks, xs, i)
    ensures Same(ks[n].server, ss[n])
  {
    if n > 0 {
      var i := n - 1;
      AlikeUpTo(ks, ss, xs, envs, i);
      assert FilteredTakes(ks[i], xs[i], envs[i], ks[i + 1]) && AskingTakes(ss[i], xs[i], envs[i], ss[i + 1]);
      assert !Misses(ks, xs, i);
      StepsAlike(ks[i], ss[i], xs[i], envs[i], ks[n], ss[n]);
    }
  }

  /**
   * The filter refines always asking, exactly as long as it misses no call: for every run of inputs, raises of the
   * barrier time, groups and modes included, the server's tables are the same at every point whether clients filter
   * or always ask, if and only if every skipped call would have been let through at once.
   */
  lemma FilterRefinesExactlyWhen(ks: seq<Clients>, ss: seq<State>, xs: seq<Input>, envs: seq<Env>)
    requires FilteredRun(ks, xs, envs) && AskingRun(ss, xs, envs) && ss[0] == ks[0].server
    ensures (forall i | 0 <= i < |ks| :: Same(ks[i].server, ss[i])) <==> (forall i: nat :: !Misses(ks, xs, i))
  {
    if i: nat :| Misses(ks, xs, i) {
      assert FilteredTakes(ks[i], xs[i], envs[i], ks[i + 1]) && AskingTakes(ss[i], xs[i], envs[i], ss[i + 1]);
      if Same(ks[i].server, ss[i]) {
        StepsAlike(ks[i], ss[i], xs[i], envs[i], ks[i + 1], ss[i + 1]);
      }
    } else {
      forall i | 0 <= i < |ks|
        ensures Same(ks[i].server, ss[i])
      {
        AlikeUpTo(ks, ss, xs, envs, i);
      }
    }
  }

  /**
   * Input i, if it is a skipped call, is of a client that asked last before the grid point up to the barrier time, in
   * detailed mode.
   */
  ghost predicate SkipsSafely(ks: seq<Clients>, xs: seq<Input>, i: nat)
    requires i < |xs| && i < |ks| && Fits(ks[i], xs[i])
  {
    var s := ks[i].server;
    Skips(ks[i], xs[i]) ==> !s.fast && ks[i].asked[xs[i].core] < GridBelow(s.next, s.interval)
  }

  lemma SafeSkipMissesNothing(ks: seq<Clients>, xs: seq<Input>, i: nat)
    requires i < |xs| && i < |ks| && Fits(ks[i], xs[i]) && SkipsSafely(ks, xs, i)
    ensures !Misses(ks, xs, i)
  {
    if Skips(ks[i], xs[i]) {
      FilterSafeExactlyWhen(ks[i].server, ks[i].asked[xs[i].core]);
    }
  }

  /**
   * In every run in which clients skip only then, a skipped call is harmless: filtering and always asking give the same
   * tables.
   */
  lemma SkippedCallsAreHarmless(ks: seq<Clients>, ss: seq<State>, xs: seq<Input>, envs: seq<Env>)
    requires FilteredRun(ks, xs, envs) && AskingRun(ss, xs, envs) && ss[0] == ks[0].server
    requires forall i: nat | i < |xs| && Fits(ks[i], xs[i]) :: SkipsSafely(ks, xs, i)
    ensures forall i | 0 <= i < |ks| :: Same(ks[i].server, ss[i])
  {
    forall i: nat
      ensures !Misses(ks, xs, i)
    {
      if i < |xs| && Fits(ks[i], xs[i]) {
        SafeSkipMissesNothing(ks, xs, i);
      }
    }
    FilterRefinesExactlyWhen(ks, ss, xs, envs);
  }

  // ---- What every client may rely on

  /**
   * An open call was made before the barrier time, unless it is held with its clock intact, or its clock was cleared.
   */
  ghost predicate OpenInOrder(s: State, o: Open)
    requires Shape(s) && o.master < |s.clock|
  {
    o.cleared || o.time < s.next || (HeldFor(s, o) && s.arrival[o.master] == o.time && !s.zeroed[o.master])
  }

  /** A client returned last from a call before the barrier time, or from one whose clock was cleared. */
  ghost predicate InOrder(k: Clients) {
    && Shape(k.server) && SameSizes(k) && Clocks(k.server)
    && (forall c | 0 <= c < |k.asked| :: k.cleared[c] || k.asked[c] < k.server.next)
    && (forall i | 0 <= i < |k.open| :: OpenInOrder(k.server, k.open[i]))
  }

  /** What is on record for a held core stays, and the barrier time does not go back. */
  ghost predicate StepsOn(s: State, s': State) {
    && Shape(s) && Shape(s') && |s'.clock| == |s.clock| && Clocks(s') && s.next <= s'.next
    && forall m | 0 <= m < |s.clock| && s.held[m] :: s'.arrival[m] == s.arrival[m] && s'.thread[m] == s.thread[m]
  }

  lemma TakesStepsOn(s: State, e: Event, env: Env, s': State)
    requires Takes(s, e, env, s') && Clocks(s)
    ensures StepsOn(s, s')
  {
    TakesKeepsClocks(s, e, env, s');
    ApplyForward(s, e, env);
    if e.Call? {
      CallRecorded(s, e.core, e.time, e.thread, env);
    } else {
      OthersKeepRecords(s, e, env);
    }
  }

  lemma OpenStaysInOrder(s: State, s': State, o: Open)
    requires StepsOn(s, s') && o.master < |s.clock| && OpenInOrder(s, o)
    ensures OpenInOrder(s', Noted(s, s', o))
  {
  }

  lemma OpenedInOrder(s: State, x: Input, env: Env, s': State)
    requires x.Attempt? && Takes(s, Call(x.core, x.time, x.thread), env, s') && Clocks(s)
    ensures |s'.clock| == |s.clock| && OpenInOrder(s', Opened(s, s', x))
  {
    TakesKeepsClocks(s, Call(x.core, x.time, x.thread), env, s');
    CallRecorded(s, x.core, x.time, x.thread, env);
  }

  lemma NotedInOrder(k: Clients, s': State)
    requires InOrder(k) && StepsOn(k.server, s')
    ensures var k' := k.(server := s', open := NotedAll(k.server, s', k.open)); InOrder(k')
  {
    forall i | 0 <= i < |k.open|
      ensures OpenInOrder(s', Noted(k.server, s', k.open[i]))
    {
      OpenStaysInOrder(k.server, s', k.open[i]);
    }
  }

  lemma OpenInOrderToo(k: Clients, o: Open)
    requires InOrder(k) && o.core < |k.server.clock| && o.master < |k.server.clock| && OpenInOrder(k.server, o)
    ensures InOrder(k.(open := k.open + [o]))
  {
  }

  lemma StepStaysInOrder(k: Clients, x: Input, env: Env, k': Clients)
    requires InOrder(k) && FilteredTakes(k, x, env, k')
    ensures InOrder(k')
  {
    if !Skips(k, x) {
      match x
      case Attempt(c, time, t, _) =>
        TakesStepsOn(k.server, Call(c, time, t), env, k'.server);
        NotedInOrder(k, k'.server);
        OpenedInOrder(k.server, x, env, k'.server);
        OpenInOrderToo(k.(server := k'.server, open := NotedAll(k.server, k'.server, k.open)),
                       Opened(k.server, k'.server, x));
      case Return(i) => assert OpenInOrder(k.server, k.open[i]);
      case Other(e) =>
        TakesStepsOn(k.server, e, env, k'.server);
        NotedInOrder(k, k'.server);
    }
  }

  /**
   * In every run from the start, with any hooks, groups and modes: the client of every core returned last from a call
   * made before the barrier time, or from one whose clock was cleared while it waited.
   */
  lemma {:induction false} RunStaysInOrder(ncores: nat, interval: nat, ks: seq<Clients>, xs: seq<Input>, envs: seq<Env>,
                                           n: nat)
    requires interval > 0 && FilteredRun(ks, xs, envs) && ks[0] == StartClients(ncores, interval) && n <= |xs|
    ensures InOrder(ks[n])
  {
    if n == 0 {
      StartKeeps(ncores, interval, false);
    } else {
      var i := n - 1;
      RunStaysInOrder(ncores, interval, ks, xs, envs, i);
      assert FilteredTakes(ks[i], xs[i], envs[i], ks[i + 1]);
      StepStaysInOrder(ks[i], xs[i], envs[i], ks[n]);
    }
  }
}
