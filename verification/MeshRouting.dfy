/** Dimension-order routing on a mesh or torus of concentrated nodes, and the loop that forwards a packet hop by hop. */
module MeshRouting {

  datatype Direction = Up | Down | Left | Right | Self | Peer | Destination

  datatype Net = Net(width: nat, height: nat, concentration: nat, wrap: bool)

  datatype Hop = Hop(direction: Direction, next: nat)

  predicate Valid(n: Net) { n.width > 0 && n.height > 0 && n.concentration > 0 }

  // Product, quotient and remainder by repeated addition and subtraction: all reasoning about positions stays linear.

  function Times(a: nat, m: nat): nat { if a == 0 then 0 else Times(a - 1, m) + m }

  function Quotient(x: nat, m: nat): nat
    requires m > 0
  {
    if x < m then 0 else 1 + Quotient(x - m, m)
  }

  function Remainder(x: nat, m: nat): nat
    requires m > 0
  {
    if x < m then x else Remainder(x - m, m)
  }

  function Cores(n: Net): nat { Times(Times(n.height, n.width), n.concentration) }

  function Abs(x: int): nat { if x < 0 then -x else x }

  function Node(n: Net, core: nat): nat
    requires Valid(n)
  {
    Quotient(core, n.concentration)
  }

  function X(n: Net, core: nat): nat
    requires Valid(n)
  {
    Remainder(Node(n, core), n.width)
  }

  function Y(n: Net, core: nat): nat
    requires Valid(n)
  {
    Quotient(Node(n, core), n.width)
  }

  /** The master core of a node, with coordinates wrapped into range. */
  function CoreId(n: Net, x: int, y: int): nat
    requires Valid(n) && -1 <= x && -1 <= y
  {
    Times(Times(Remainder(y + n.height, n.height), n.width) + Remainder(x + n.width, n.width), n.concentration)
  }

  /** Not the first core of its node, or not a core of the mesh at all: such a core has no router of its own. */
  predicate FakeNode(n: Net, core: nat)
    requires Valid(n)
  {
    Remainder(core, n.concentration) != 0 || core >= Cores(n)
  }

  /** Distance along one dimension. */
  function Span(n: Net, a: nat, b: nat, size: nat): int {
    if n.wrap then (if Abs(a - b) <= size - Abs(a - b) then Abs(a - b) else size - Abs(a - b)) else Abs(a - b)
  }

  function Distance(n: Net, from: nat, to: nat): int
    requires Valid(n)
  {
    Span(n, X(n, from), X(n, to), n.width) + Span(n, Y(n, from), Y(n, to), n.height)
  }

  /** Does the route along a dimension go the long way round, over the edge? */
  predicate OverEdge(n: Net, a: nat, b: nat, size: nat) { n.wrap && Abs(a - b) > (size + 1) / 2 }

  /** Towards lower coordinates? */
  predicate Backward(n: Net, a: nat, b: nat, size: nat) { (a > b) != OverEdge(n, a, b, size) }

  function NextDest(n: Net, at: nat, dest: nat): Hop
    requires Valid(n)
  {
    if dest >= Cores(n) then Hop(Destination, dest)
    else if Node(n, at) == Node(n, dest) then Hop(Destination, dest)
    else if FakeNode(n, at) then (RemainderFits(at, n.concentration); Hop(Peer, at - Remainder(at, n.concentration)))
    else
      var sx, sy, dx, dy := X(n, at), Y(n, at), X(n, dest), Y(n, dest);
      if Backward(n, sx, dx, n.width) then Hop(Left, CoreId(n, sx - 1, sy))
      else if sx != dx then Hop(Right, CoreId(n, sx + 1, sy))
      else if Backward(n, sy, dy, n.height) then Hop(Down, CoreId(n, sx, sy - 1))
      else if sy != dy then Hop(Up, CoreId(n, sx, sy + 1))
      else Hop(Self, at)
  }

  /** The unicast part of routePacket: a core without a router hands the packet straight to its destination. */
  function RouteHop(n: Net, at: nat, dest: nat): Hop
    requires Valid(n)
  {
    if FakeNode(n, at) then Hop(Destination, dest) else NextDest(n, at, dest)
  }

  predicate IsLink(d: Direction) { d.Up? || d.Down? || d.Left? || d.Right? }

  // ---- One dimension

  /** Steps left along one dimension. */
  function Steps(n: Net, a: nat, b: nat, size: nat): int {
    if OverEdge(n, a, b, size) then size - Abs(a - b) else Abs(a - b)
  }

  /** The neighbouring coordinate the route takes. */
  function StepTo(n: Net, a: nat, b: nat, size: nat): int
    requires size > 0
  {
    if Backward(n, a, b, size) then Remainder(a - 1 + size, size) else Remainder(a + 1 + size, size)
  }

  lemma WrapUp(a: int, size: nat)
    requires size > 0 && -1 <= a <= size
    ensures Remainder(a + size, size) == if a == -1 then size - 1 else if a == size then 0 else a
  {
    if a == size {
      assert Remainder(size, size) == Remainder(0, size);
    }
  }

  /** Every step brings the packet exactly one step closer, also across the edge. */
  lemma StepCloser(n: Net, a: nat, b: nat, size: nat)
    requires a < size && b < size && a != b
    ensures 0 <= StepTo(n, a, b, size) < size
    ensures Steps(n, StepTo(n, a, b, size), b, size) == Steps(n, a, b, size) - 1
  {
    WrapUp(a - 1, size);
    WrapUp(a + 1, size);
  }

  lemma NotBackwardThere(n: Net, a: nat, size: nat)
    ensures !Backward(n, a, a, size) && Steps(n, a, a, size) == 0
  {
  }

  /** The detour along one dimension: one step, exactly when an odd ring is crossed by half its length rounded up. */
  function Detour(n: Net, a: nat, b: nat, size: nat): nat {
    if n.wrap && size % 2 == 1 && Abs(a - b) == (size + 1) / 2 then 1 else 0
  }

  lemma StepsAreSpan(n: Net, a: nat, b: nat, size: nat)
    requires a < size && b < size
    ensures Steps(n, a, b, size) == Span(n, a, b, size) + Detour(n, a, b, size)
    ensures 0 <= Steps(n, a, b, size) && (Steps(n, a, b, size) == 0 <==> a == b)
  {
  }

  // ---- Coordinates

  /** The three are what the operators compute. */
  lemma {:induction false} TimesIsProduct(a: nat, m: nat)
    ensures Times(a, m) == a * m
  {
    if a > 0 {
      TimesIsProduct(a - 1, m);
      assert a * m == (a - 1) * m + m;
    }
  }

  lemma {:induction false} RemainderFits(x: nat, m: nat)
    requires m > 0
    ensures x == Times(Quotient(x, m), m) + Remainder(x, m) && Remainder(x, m) < m
    decreases x
  {
    if x >= m {
      RemainderFits(x - m, m);
    }
  }

  lemma {:induction false} TimesMonotone(a: nat, b: nat, m: nat)
    requires a <= b
    ensures Times(a, m) <= Times(b, m)
  {
    if a < b {
      TimesMonotone(a, b - 1, m);
    }
  }

  lemma {:induction false} QuotientBelow(x: nat, m: nat, k: nat)
    requires m > 0 && x < Times(k, m)
    ensures Quotient(x, m) < k
    decreases x
  {
    if x >= m {
      QuotientBelow(x - m, m, k - 1);
    }
  }

  lemma {:induction false} QuotientUnique(q: nat, r: nat, m: nat)
    requires r < m
    ensures Quotient(Times(q, m) + r, m) == q && Remainder(Times(q, m) + r, m) == r
  {
    if q > 0 {
      QuotientUnique(q - 1, r, m);
      assert Times(q, m) + r - m == Times(q - 1, m) + r;
    }
  }

  lemma DivisionIs(x: nat, m: nat, q: nat, r: nat)
    requires r < m && x == q * m + r
    ensures Quotient(x, m) == q && Remainder(x, m) == r
  {
    TimesIsProduct(q, m);
    QuotientUnique(q, r, m);
  }

  lemma QuotientIsDivision(x: nat, m: nat)
    requires m > 0
    ensures Quotient(x, m) == x / m && Remainder(x, m) == x % m
  {
    DivisionIs(x, m, x / m, x % m);
  }

  /** Position r of row q is inside a grid of k rows of length m. */
  lemma Below(q: nat, r: nat, k: nat, m: nat)
    requires q < k && r < m
    ensures Times(q, m) + r < Times(k, m)
  {
    TimesMonotone(q + 1, k, m);
  }

  lemma CoreIdIs(n: Net, x: nat, y: nat)
    requires Valid(n) && x < n.width && y < n.height
    ensures CoreId(n, x, y) == Times(Times(y, n.width) + x, n.concentration)
  {
    WrapUp(x, n.width);
    WrapUp(y, n.height);
  }

  /** The first core of a node of the mesh is its master. */
  lemma MasterOfNode(n: Net, node: nat)
    requires Valid(n) && node < Times(n.height, n.width)
    ensures Node(n, Times(node, n.concentration)) == node && !FakeNode(n, Times(node, n.concentration))
  {
    QuotientUnique(node, 0, n.concentration);
    Below(node, 0, Times(n.height, n.width), n.concentration);
  }

  lemma NodePosition(n: Net, core: nat, x: nat, y: nat)
    requires Valid(n) && x < n.width && Node(n, core) == Times(y, n.width) + x
    ensures X(n, core) == x && Y(n, core) == y
  {
    QuotientUnique(y, x, n.width);
  }

  lemma MasterPosition(n: Net, c: nat, node: nat, x: nat, y: nat)
    requires Valid(n) && x < n.width && node == Times(y, n.width) + x && c == Times(node, n.concentration)
    requires node < Times(n.height, n.width)
    ensures X(n, c) == x && Y(n, c) == y && Node(n, c) == node && !FakeNode(n, c)
  {
    MasterOfNode(n, node);
    NodePosition(n, c, x, y);
  }

  /** Core ids and positions are inverse to each other on masters. */
  lemma CoreIdPosition(n: Net, x: nat, y: nat)
    requires Valid(n) && x < n.width && y < n.height
    ensures var c := CoreId(n, x, y);
            X(n, c) == x && Y(n, c) == y && Node(n, c) == Times(y, n.width) + x && !FakeNode(n, c)
  {
    CoreIdIs(n, x, y);
    Below(y, x, n.height, n.width);
    MasterPosition(n, CoreId(n, x, y), Times(y, n.width) + x, x, y);
  }

  lemma PositionInside(n: Net, core: nat)
    requires Valid(n) && core < Cores(n)
    ensures X(n, core) < n.width && Y(n, core) < n.height
  {
    QuotientBelow(core, n.concentration, Times(n.height, n.width));
    QuotientBelow(Node(n, core), n.width, n.height);
    RemainderFits(Node(n, core), n.width);
  }

  /** A master is the core its position stands for. */
  lemma MasterIsCoreId(n: Net, core: nat)
    requires Valid(n) && !FakeNode(n, core)
    ensures X(n, core) < n.width && Y(n, core) < n.height && core == CoreId(n, X(n, core), Y(n, core))
  {
    PositionInside(n, core);
    WrapUp(X(n, core), n.width);
    WrapUp(Y(n, core), n.height);
    RemainderFits(core, n.concentration);
    RemainderFits(Node(n, core), n.width);
  }

  /** The decision of a core that is not the master of its node: the packet goes to the master first. */
  lemma PeerIsMaster(n: Net, at: nat, dest: nat)
    requires Valid(n) && at < Cores(n) && dest < Cores(n) && FakeNode(n, at) && Node(n, at) != Node(n, dest)
    ensures var h := NextDest(n, at, dest);
            h.direction.Peer? && h.next < at && Node(n, h.next) == Node(n, at) && !FakeNode(n, h.next)
  {
    RemainderFits(at, n.concentration);
    QuotientBelow(at, n.concentration, Times(n.height, n.width));
    MasterOfNode(n, Node(n, at));
  }

  // ---- The forwarding loop

  /** Link hops still to go. */
  function HopsLeft(n: Net, at: nat, dest: nat): int
    requires Valid(n)
  {
    Steps(n, X(n, at), X(n, dest), n.width) + Steps(n, Y(n, at), Y(n, dest), n.height)
  }

  lemma XHop(n: Net, at: nat, dest: nat)
    requires Valid(n) && !FakeNode(n, at) && dest < Cores(n) && X(n, at) != X(n, dest)
    ensures var x := StepTo(n, X(n, at), X(n, dest), n.width);
            0 <= x && RouteHop(n, at, dest) ==
                      Hop(if Backward(n, X(n, at), X(n, dest), n.width) then Left else Right, CoreId(n, x, Y(n, at)))
  {
    MasterIsCoreId(n, at);
    PositionInside(n, dest);
    var x := StepTo(n, X(n, at), X(n, dest), n.width);
    StepCloser(n, X(n, at), X(n, dest), n.width);
    StepCoreId(n, X(n, at), Y(n, at), x, Y(n, at));
  }

  lemma YHop(n: Net, at: nat, dest: nat)
    requires Valid(n) && !FakeNode(n, at) && dest < Cores(n) && X(n, at) == X(n, dest) && Y(n, at) != Y(n, dest)
    ensures var y := StepTo(n, Y(n, at), Y(n, dest), n.height);
            0 <= y && RouteHop(n, at, dest) ==
                      Hop(if Backward(n, Y(n, at), Y(n, dest), n.height) then Down else Up, CoreId(n, X(n, at), y))
  {
    MasterIsCoreId(n, at);
    PositionInside(n, dest);
    NotBackwardThere(n, X(n, at), n.width);
    SameNode(n, at, dest);
    var y := StepTo(n, Y(n, at), Y(n, dest), n.height);
    StepCloser(n, Y(n, at), Y(n, dest), n.height);
    StepCoreId(n, X(n, at), Y(n, at), X(n, at), y);
  }

  /** The neighbour of a on a ring of this size. */
  function Neighbour(a: int, size: nat, back: bool): int {
    if back then (if a == 0 then size - 1 else a - 1) else (if a == size - 1 then 0 else a + 1)
  }

  lemma StepIsNeighbour(n: Net, a: nat, b: nat, size: nat)
    requires a < size
    ensures StepTo(n, a, b, size) == Neighbour(a, size, Backward(n, a, b, size))
  {
    WrapUp(a - 1, size);
    WrapUp(a + 1, size);
  }

  /** A link leads to the neighbour on the side it is named after, and the x coordinate is settled before y. */
  lemma LinkGoesToNeighbour(n: Net, at: nat, dest: nat)
    requires Valid(n) && !FakeNode(n, at) && dest < Cores(n) && Node(n, at) != Node(n, dest)
    ensures var h, x, y := RouteHop(n, at, dest), X(n, at), Y(n, at);
            if x != X(n, dest) then
              && (h.direction.Left? || h.direction.Right?)
              && X(n, h.next) == Neighbour(x, n.width, h.direction.Left?) && Y(n, h.next) == y
            else
              && (h.direction.Down? || h.direction.Up?)
              && X(n, h.next) == x && Y(n, h.next) == Neighbour(y, n.height, h.direction.Down?)
  {
    MasterIsCoreId(n, at);
    PositionInside(n, dest);
    SameNode(n, at, dest);
    var sx, sy, dx, dy := X(n, at), Y(n, at), X(n, dest), Y(n, dest);
    if sx != dx {
      XHop(n, at, dest);
      StepCloser(n, sx, dx, n.width);
      StepIsNeighbour(n, sx, dx, n.width);
      CoreIdPosition(n, StepTo(n, sx, dx, n.width), sy);
    } else {
      YHop(n, at, dest);
      StepCloser(n, sy, dy, n.height);
      StepIsNeighbour(n, sy, dy, n.height);
      CoreIdPosition(n, sx, StepTo(n, sy, dy, n.height));
    }
  }

  lemma LinkHop(n: Net, at: nat, dest: nat)
    requires Valid(n) && !FakeNode(n, at) && dest < Cores(n) && Node(n, at) != Node(n, dest)
    ensures var h := RouteHop(n, at, dest);
            IsLink(h.direction) && !FakeNode(n, h.next) && HopsLeft(n, h.next, dest) == HopsLeft(n, at, dest) - 1
  {
    MasterIsCoreId(n, at);
    PositionInside(n, dest);
    SameNode(n, at, dest);
    var sx, sy, dx, dy := X(n, at), Y(n, at), X(n, dest), Y(n, dest);
    if sx != dx {
      XHop(n, at, dest);
      StepCloser(n, sx, dx, n.width);
      CoreIdPosition(n, StepTo(n, sx, dx, n.width), sy);
    } else {
      YHop(n, at, dest);
      StepCloser(n, sy, dy, n.height);
      CoreIdPosition(n, sx, StepTo(n, sy, dy, n.height));
    }
  }

  /** Wrapping an already wrapped coordinate changes nothing. */
  lemma StepCoreId(n: Net, sx: nat, sy: nat, x: nat, y: nat)
    requires Valid(n) && sx < n.width && sy < n.height && x < n.width && y < n.height
    ensures CoreId(n, x, y) == Times(Times(y, n.width) + x, n.concentration)
    ensures x == Remainder(sx - 1 + n.width, n.width) && y == sy ==> CoreId(n, sx - 1, sy) == CoreId(n, x, y)
    ensures x == Remainder(sx + 1 + n.width, n.width) && y == sy ==> CoreId(n, sx + 1, sy) == CoreId(n, x, y)
    ensures y == Remainder(sy - 1 + n.height, n.height) && x == sx ==> CoreId(n, sx, sy - 1) == CoreId(n, x, y)
    ensures y == Remainder(sy + 1 + n.height, n.height) && x == sx ==> CoreId(n, sx, sy + 1) == CoreId(n, x, y)
  {
    WrapUp(x, n.width);
    WrapUp(y, n.height);
    WrapUp(sx, n.width);
    WrapUp(sy, n.height);
  }

  lemma SameNode(n: Net, a: nat, b: nat)
    requires Valid(n)
    ensures Node(n, a) == Node(n, b) <==> X(n, a) == X(n, b) && Y(n, a) == Y(n, b)
  {
    RemainderFits(Node(n, a), n.width);
    RemainderFits(Node(n, b), n.width);
  }

  lemma HopsLeftNatural(n: Net, at: nat, dest: nat)
    requires Valid(n) && !FakeNode(n, at) && dest < Cores(n)
    ensures HopsLeft(n, at, dest) >= 0 && (HopsLeft(n, at, dest) == 0 <==> Node(n, at) == Node(n, dest))
  {
    MasterIsCoreId(n, at);
    PositionInside(n, dest);
    StepsAreSpan(n, X(n, at), X(n, dest), n.width);
    StepsAreSpan(n, Y(n, at), Y(n, dest), n.height);
    SameNode(n, at, dest);
  }

  /** One hop: what it crosses plus what is left afterwards is what was left before. */
  lemma HopCounts(n: Net, at: nat, dest: nat)
    requires Valid(n) && !FakeNode(n, at) && dest < Cores(n)
    ensures var h := RouteHop(n, at, dest);
            && HopsLeft(n, at, dest) == HopsLeft(n, h.next, dest) + (if IsLink(h.direction) then 1 else 0)
            && 0 <= HopsLeft(n, h.next, dest)
            && (h.next != dest ==> !FakeNode(n, h.next) && IsLink(h.direction))
  {
    HopsLeftNatural(n, at, dest);
    if Node(n, at) != Node(n, dest) {
      LinkHop(n, at, dest);
      HopsLeftNatural(n, RouteHop(n, at, dest).next, dest);
    }
  }

  function Links(path: seq<Hop>): nat {
    if path == [] then 0 else Links(path[..|path| - 1]) + if IsLink(path[|path| - 1].direction) then 1 else 0
  }

  lemma LinksSnoc(path: seq<Hop>, h: Hop)
    ensures Links(path + [h]) == Links(path) + if IsLink(h.direction) then 1 else 0
  {
    assert (path + [h])[..|path|] == path;
  }

  /** Core number i on the way. */
  function At(sender: nat, path: seq<Hop>, i: nat): nat
    requires i <= |path|
  {
    if i == 0 then sender else path[i - 1].next
  }

  /** Every hop is the decision of the router at the core reached so far. */
  ghost predicate Chained(router: nat -> Hop, sender: nat, path: seq<Hop>) {
    forall i {:trigger At(sender, path, i)} | 0 <= i < |path| :: path[i] == router(At(sender, path, i))
  }

  lemma ChainedSnoc(router: nat -> Hop, sender: nat, path: seq<Hop>, h: Hop)
    requires Chained(router, sender, path) && h == router(At(sender, path, |path|))
    ensures Chained(router, sender, path + [h])
  {
    var longer := path + [h];
    forall i | 0 <= i < |longer|
      ensures longer[i] == router(At(sender, longer, i))
    {
      assert At(sender, longer, i) == At(sender, path, i);
    }
  }

  function Router(n: Net, dest: nat): nat -> Hop
    requires Valid(n)
  {
    (at: nat) => RouteHop(n, at, dest)
  }

  function Masters(n: Net): nat -> bool
    requires Valid(n)
  {
    (at: nat) => !FakeNode(n, at)
  }

  /**
   * All cores on the way but the last have a router of their own, are not the destination, and are reached over links.
   */
  ghost predicate OverMasters(master: nat -> bool, dest: nat, path: seq<Hop>) {
    forall i | 0 <= i < |path| - 1 :: path[i].next != dest && master(path[i].next) && IsLink(path[i].direction)
  }

  /** A measure of the links still to go that every routing decision of a master counts down. */
  ghost predicate Counts(router: nat -> Hop, left: nat -> int, master: nat -> bool, dest: nat, at: nat) {
    var h := router(at);
    && left(at) == left(h.next) + (if IsLink(h.direction) then 1 else 0)
    && 0 <= left(h.next)
    && (h.next != dest ==> master(h.next) && IsLink(h.direction))
  }

  /**
   * The forwarding loop of netSend, for any network model whose decisions count down: the packet is passed on until
   * the next core is its destination, and crosses as many links as there were to go.
   */
  method Forward(router: nat -> Hop, left: nat -> int, master: nat -> bool, sender: nat, dest: nat)
    returns (path: seq<Hop>)
    requires master(sender)
    requires forall at {:trigger Counts(router, left, master, dest, at)} :: master(at) ==>
               Counts(router, left, master, dest, at)
    ensures |path| > 0 && path[|path| - 1].next == dest
    ensures Chained(router, sender, path) && OverMasters(master, dest, path)
    ensures Links(path) == left(sender) - left(dest)
  {
    var hop := router(sender);
    assert Counts(router, left, master, dest, sender);
    LinksSnoc([], hop);
    ChainedSnoc(router, sender, [], hop);
    path := [] + [hop];
    while hop.next != dest
      invariant |path| > 0 && path[|path| - 1] == hop && Chained(router, sender, path)
                && OverMasters(master, dest, path)
      invariant hop.next != dest ==> master(hop.next) && IsLink(hop.direction)
      invariant 0 <= left(hop.next)
      invariant Links(path) + left(hop.next) == left(sender)
      decreases if hop.next == dest then 0 else 1 + left(hop.next)
    {
      assert Counts(router, left, master, dest, hop.next);
      hop := router(hop.next);
      ChainedSnoc(router, sender, path, hop);
      LinksSnoc(path, hop);
      path := path + [hop];
    }
  }

  lemma NoneLeftThere(n: Net, dest: nat)
    requires Valid(n)
    ensures HopsLeft(n, dest, dest) == 0
  {
    NotBackwardThere(n, X(n, dest), n.width);
    NotBackwardThere(n, Y(n, dest), n.height);
  }

  /** The decisions of all masters on the way to a core of the mesh count down the links left. */
  lemma MastersCount(n: Net, dest: nat, left: nat -> int)
    requires Valid(n) && dest < Cores(n) && forall at :: left(at) == HopsLeft(n, at, dest)
    ensures forall at {:trigger Counts(Router(n, dest), left, Masters(n), dest, at)} ::
              Masters(n)(at) ==> Counts(Router(n, dest), left, Masters(n), dest, at)
  {
    forall at | Masters(n)(at)
      ensures Counts(Router(n, dest), left, Masters(n), dest, at)
    {
      HopCounts(n, at, dest);
    }
  }

  /** Is the packet carried by routers, from a core that has one to a core of the mesh? */
  predicate Routed(n: Net, sender: nat, dest: nat)
    requires Valid(n)
  {
    !FakeNode(n, sender) && dest < Cores(n)
  }

  /**
   * netSend over the mesh, from any core to any core. The loop ends, and the last hop goes to the destination. From a
   * node's master to a core of the mesh the packet crosses exactly the expected number of links, and every core in
   * between is a master with a router of its own. Otherwise it goes straight over, and crosses no link.
   */
  method NetSend(n: Net, sender: nat, dest: nat) returns (path: seq<Hop>)
    requires Valid(n)
    ensures |path| > 0 && path[|path| - 1].next == dest && Chained(Router(n, dest), sender, path)
    ensures Routed(n, sender, dest) ==> OverMasters(Masters(n), dest, path) && Links(path) == HopsLeft(n, sender, dest)
    ensures !Routed(n, sender, dest) ==> |path| == 1 && Links(path) == 0
  {
    var left, master := (at: nat) => 0, (at: nat) => at == sender;
    if Routed(n, sender, dest) {
      left, master := (at: nat) => HopsLeft(n, at, dest), Masters(n);
      MastersCount(n, dest, left);
      NoneLeftThere(n, dest);
    }
    path := Forward(Router(n, dest), left, master, sender, dest);
    assert path[0] == Router(n, dest)(At(sender, path, 0));
  }

  /**
   * The number of links is the distance, plus one for each odd ring that has to be crossed by half its length rounded
   * up. It is the distance on every mesh and on every torus with even sides.
   */
  lemma HopsAreDistance(n: Net, sender: nat, dest: nat)
    requires Valid(n) && sender < Cores(n) && dest < Cores(n)
    ensures HopsLeft(n, sender, dest) == Distance(n, sender, dest)
            + Detour(n, X(n, sender), X(n, dest), n.width) + Detour(n, Y(n, sender), Y(n, dest), n.height)
    ensures !n.wrap || (n.width % 2 == 0 && n.height % 2 == 0) ==>
              HopsLeft(n, sender, dest) == Distance(n, sender, dest)
  {
    PositionInside(n, sender);
    PositionInside(n, dest);
    StepsAreSpan(n, X(n, sender), X(n, dest), n.width);
    StepsAreSpan(n, Y(n, sender), Y(n, dest), n.height);
  }
}
