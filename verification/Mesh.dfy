/**
 Dimension-order routing in the electrical mesh of
 common/network/network_model_emesh_hop_by_hop.cc, driven by the forwarding loop
 of `Network::netSend` (common/network/network.cc).

 `width * height` tiles hold `concentration` cores each; the core with the
 lowest number of a tile is its master and owns the tile's router.
 */
module Mesh {
  import opened Basics

  type Core = nat

  datatype Config = Config(width: nat, height: nat, concentration: nat, wrapAround: bool)

  predicate Valid(m: Config) { m.width > 0 && m.height > 0 && m.concentration > 0 }

  /** The application cores; larger numbers name cores outside the mesh. */
  function Cores(m: Config): nat { m.concentration * (m.height * m.width) }

  datatype Direction = Up | Down | Left | Right | Self | Peer | Destination

  /** The directions that leave through a link of the router. */
  predicate IsLink(d: Direction) { d.Up? || d.Down? || d.Left? || d.Right? }

  function Abs(x: int): nat { if x < 0 then -x else x }

  function Min(a: int, b: int): int { if a < b then a else b }

  // ---------------------------------------------------------------------------
  // Arithmetic

  /** `(x + n) % n` for a coordinate that is at most one off the mesh. */
  function Wrap(x: int, n: nat): (w: nat)
    requires n > 0
  {
    (x + n) % n
  }

  lemma WrapOnce(x: int, n: nat)
    requires n > 0 && -1 <= x <= n
    ensures Wrap(x, n) == if x < 0 then n - 1 else if x == n then 0 else x
  {
    if x == n {
      DivMod(x + n, n, 2, 0);
    } else if x >= 0 {
      DivMod(x + n, n, 1, x);
    }
  }

  // ---------------------------------------------------------------------------
  // Positions

  datatype Node = Node(x: nat, y: nat)

  predicate OnMesh(m: Config, p: Node) { p.x < m.width && p.y < m.height }

  function Tile(m: Config, c: Core): nat requires Valid(m) { c / m.concentration }

  /** `computePosition` */
  function Position(m: Config, c: Core): Node
    requires Valid(m)
  {
    Node(Tile(m, c) % m.width, Tile(m, c) / m.width)
  }

  /** `computeCoreId`: the master of the tile at `x`, `y`, wrapping coordinates around. */
  function CoreAt(m: Config, x: int, y: int): (c: nat)
    requires Valid(m)
  {
    (Wrap(y, m.height) * m.width + Wrap(x, m.width)) * m.concentration
  }

  /** The tile masters own the routers; every other core bypasses the mesh. */
  predicate IsMaster(m: Config, c: Core)
    requires Valid(m)
  {
    c < Cores(m) && c % m.concentration == 0
  }

  /** Every application core sits on a tile of the mesh. */
  lemma CoreOnMesh(m: Config, c: Core)
    requires Valid(m) && c < Cores(m)
    ensures OnMesh(m, Position(m, c))
  {
    var t := Tile(m, c);
    assert c == m.concentration * t + c % m.concentration;
    if t >= m.height * m.width {
      MulMono(m.concentration, m.height * m.width, t);
    }
    assert t == m.width * (t / m.width) + t % m.width;
    if t / m.width >= m.height {
      MulMono(m.width, m.height, t / m.width);
    }
  }

  /** The master of the tile at `p`. */
  function Master(m: Config, p: Node): Core { (p.y * m.width + p.x) * m.concentration }

  lemma RowMajor(w: nat, h: nat, x: nat, y: nat)
    requires x < w && y < h
    ensures y * w + x < h * w
  {
    MulMono(w, y + 1, h);
  }

  lemma MulLess(t: nat, k: nat, c: nat)
    requires t < k && c > 0
    ensures t * c < c * k
  {
    MulMono(c, t + 1, k);
  }

  /** Tile number `t` of the mesh, by its master. */
  lemma MasterOfTile(m: Config, t: nat)
    requires Valid(m) && t < m.height * m.width
    ensures IsMaster(m, t * m.concentration) && Tile(m, t * m.concentration) == t
  {
    DivMod(t * m.concentration, m.concentration, t, 0);
    MulLess(t, m.height * m.width, m.concentration);
  }

  /** `computeCoreId` undoes `computePosition`, and names a tile master. */
  lemma CoreAtPosition(m: Config, p: Node)
    requires Valid(m) && OnMesh(m, p)
    ensures CoreAt(m, p.x, p.y) == Master(m, p) && IsMaster(m, Master(m, p)) && Position(m, Master(m, p)) == p
  {
    hide Wrap, IsMaster, Tile, Cores;
    WrapOnce(p.x, m.width);
    WrapOnce(p.y, m.height);
    RowMajor(m.width, m.height, p.x, p.y);
    MasterOfTile(m, p.y * m.width + p.x);
    DivMod(p.y * m.width + p.x, m.width, p.y, p.x);
  }

  lemma TileFromPosition(m: Config, a: Core, b: Core)
    requires Valid(m) && Position(m, a) == Position(m, b)
    ensures Tile(m, a) == Tile(m, b)
  {
    var s, t := Tile(m, a), Tile(m, b);
    assert s == m.width * (s / m.width) + s % m.width;
    assert t == m.width * (t / m.width) + t % m.width;
  }

  // ---------------------------------------------------------------------------
  // Routing within one dimension, a line or ring of `n` positions

  /** The comparison `getNextDest` makes in each dimension: towards smaller positions? */
  predicate Backward(s: nat, d: nat, n: nat, wrap: bool) {
    (s > d) != (wrap && Abs(s - d) > (n + 1) / 2)
  }

  /** One position further, around the ring. */
  function Onward(s: nat, d: nat, n: nat, wrap: bool): (s': nat)
    ensures s < n ==> s' < n
  {
    if Backward(s, d, n, wrap) then (if s > 0 then s - 1 else if n > 0 then n - 1 else 0)
    else (if s + 1 == n then 0 else s + 1)
  }

  /** How many steps the router takes from `s` to `d`. */
  function Steps(s: nat, d: nat, n: nat, wrap: bool): int {
    if wrap && Abs(s - d) > (n + 1) / 2 then n - Abs(s - d) else Abs(s - d)
  }

  /** The length of a shortest way, one term of `computeDistance`. */
  function Shortest(s: nat, d: nat, n: nat, wrap: bool): int {
    if wrap then Min(Abs(s - d), n - Abs(s - d)) else Abs(s - d)
  }

  /** Half way around a ring of odd size the router goes one step too far. */
  function Excess(s: nat, d: nat, n: nat, wrap: bool): nat {
    if wrap && n % 2 == 1 && Abs(s - d) == (n + 1) / 2 then 1 else 0
  }

  lemma StepCloser(s: nat, d: nat, n: nat, wrap: bool)
    requires s < n && d < n && s != d
    ensures 0 <= Steps(Onward(s, d, n, wrap), d, n, wrap) == Steps(s, d, n, wrap) - 1
  {
  }

  lemma StepsVersusShortest(s: nat, d: nat, n: nat, wrap: bool)
    requires s < n && d < n
    ensures 0 <= Steps(s, d, n, wrap) == Shortest(s, d, n, wrap) + Excess(s, d, n, wrap)
  {
  }

  // ---------------------------------------------------------------------------
  // Routing between nodes of the mesh, first along the row and then along the column

  function Move(m: Config, p: Node, d: Node): (Direction, Node) {
    if p.x != d.x then
      (if Backward(p.x, d.x, m.width, m.wrapAround) then Left else Right,
       Node(Onward(p.x, d.x, m.width, m.wrapAround), p.y))
    else
      (if Backward(p.y, d.y, m.height, m.wrapAround) then Down else Up,
       Node(p.x, Onward(p.y, d.y, m.height, m.wrapAround)))
  }

  function StepsLeft(m: Config, p: Node, d: Node): int {
    Steps(p.x, d.x, m.width, m.wrapAround) + Steps(p.y, d.y, m.height, m.wrapAround)
  }

  /** `computeDistance` */
  function Distance(m: Config, p: Node, d: Node): int {
    Shortest(p.x, d.x, m.width, m.wrapAround) + Shortest(p.y, d.y, m.height, m.wrapAround)
  }

  function TotalExcess(m: Config, p: Node, d: Node): nat {
    Excess(p.x, d.x, m.width, m.wrapAround) + Excess(p.y, d.y, m.height, m.wrapAround)
  }

  lemma MoveCloser(m: Config, p: Node, d: Node)
    requires OnMesh(m, p) && OnMesh(m, d) && p != d
    ensures var (dir, q) := Move(m, p, d);
            IsLink(dir) && OnMesh(m, q) && 0 <= StepsLeft(m, q, d) == StepsLeft(m, p, d) - 1
  {
    StepsVersusShortest(p.x, d.x, m.width, m.wrapAround);
    if p.x != d.x {
      StepCloser(p.x, d.x, m.width, m.wrapAround);
      StepsVersusShortest(p.y, d.y, m.height, m.wrapAround);
    } else {
      StepCloser(p.y, d.y, m.height, m.wrapAround);
    }
  }

  // ---------------------------------------------------------------------------
  // One routing decision

  /** `getNextDest` at core `me`. */
  function NextDest(m: Config, me: Core, dest: Core): (Direction, Core)
    requires Valid(m)
  {
    var s, d := Position(m, me), Position(m, dest);
    if dest >= Cores(m) then (Destination, dest)
    else if Tile(m, me) == Tile(m, dest) then (Destination, dest)
    else if !IsMaster(m, me) then (Peer, me - me % m.concentration)
    else if Backward(s.x, d.x, m.width, m.wrapAround) then (Left, CoreAt(m, s.x - 1, s.y))
    else if s.x != d.x then (Right, CoreAt(m, s.x + 1, s.y))
    else if Backward(s.y, d.y, m.height, m.wrapAround) then (Down, CoreAt(m, s.x, s.y - 1))
    else if s.y != d.y then (Up, CoreAt(m, s.x, s.y + 1))
    else (Self, me)
  }

  /** The unicast case of `routePacket`. */
  function Route(m: Config, me: Core, dest: Core): (Direction, Core)
    requires Valid(m)
  {
    if !IsMaster(m, me) then (Destination, dest) else NextDest(m, me, dest)
  }

  /** A router of the mesh forwarding to another tile. */
  predicate Transit(m: Config, me: Core, dest: Core)
    requires Valid(m)
  {
    IsMaster(m, me) && dest < Cores(m) && Tile(m, me) != Tile(m, dest)
  }

  /** The router of node `s` forwards to the master of the next node. */
  lemma RouteToMaster(m: Config, me: Core, dest: Core)
    requires Valid(m) && Transit(m, me, dest)
    requires var s, d := Position(m, me), Position(m, dest); OnMesh(m, s) && OnMesh(m, d) && s != d
    ensures var (dir, q) := Move(m, Position(m, me), Position(m, dest));
            OnMesh(m, q) && Route(m, me, dest) == (dir, Master(m, q))
  {
    hide Position, Tile, Cores, IsMaster, CoreAt, Master;
    Neighbours(m, Position(m, me));
  }

  /** `computeCoreId` one off a tile, around the mesh. */
  lemma Neighbours(m: Config, p: Node)
    requires Valid(m) && OnMesh(m, p)
    ensures CoreAt(m, p.x - 1, p.y) == Master(m, Node(if p.x == 0 then m.width - 1 else p.x - 1, p.y))
    ensures CoreAt(m, p.x + 1, p.y) == Master(m, Node(if p.x + 1 == m.width then 0 else p.x + 1, p.y))
    ensures CoreAt(m, p.x, p.y - 1) == Master(m, Node(p.x, if p.y == 0 then m.height - 1 else p.y - 1))
    ensures CoreAt(m, p.x, p.y + 1) == Master(m, Node(p.x, if p.y + 1 == m.height then 0 else p.y + 1))
  {
    hide Wrap;
    WrapAll(m, p);
  }

  /** The router's decision on core numbers is the move on nodes. */
  lemma RouteIsMove(m: Config, me: Core, dest: Core)
    requires Valid(m) && Transit(m, me, dest)
    ensures var (dir, next) := Route(m, me, dest);
            IsMaster(m, next) && (dir, Position(m, next)) == Move(m, Position(m, me), Position(m, dest))
    ensures Position(m, me) != Position(m, dest)
    ensures OnMesh(m, Position(m, me)) && OnMesh(m, Position(m, dest))
  {
    hide Position, Tile, Cores, Wrap, IsMaster, Route, Move;
    CoreOnMesh(m, me) by { IsMasterMeans(m, me); }
    CoreOnMesh(m, dest);
    var s, d := Position(m, me), Position(m, dest);
    assert s != d by {
      if s == d { TileFromPosition(m, me, dest); }
    }
    RouteToMaster(m, me, dest);
    CoreAtPosition(m, Move(m, s, d).1);
  }

  lemma IsMasterMeans(m: Config, me: Core)
    requires Valid(m) && IsMaster(m, me)
    ensures me < Cores(m)
  {
  }

  /** The wrapped coordinates of a node and of its four neighbours. */
  lemma WrapAll(m: Config, p: Node)
    requires Valid(m) && OnMesh(m, p)
    ensures Wrap(p.x, m.width) == p.x && Wrap(p.y, m.height) == p.y
    ensures Wrap(p.x - 1, m.width) == if p.x == 0 then m.width - 1 else p.x - 1
    ensures Wrap(p.x + 1, m.width) == if p.x + 1 == m.width then 0 else p.x + 1
    ensures Wrap(p.y - 1, m.height) == if p.y == 0 then m.height - 1 else p.y - 1
    ensures Wrap(p.y + 1, m.height) == if p.y + 1 == m.height then 0 else p.y + 1
  {
    WrapOnce(p.x, m.width); WrapOnce(p.x - 1, m.width); WrapOnce(p.x + 1, m.width);
    WrapOnce(p.y, m.height); WrapOnce(p.y - 1, m.height); WrapOnce(p.y + 1, m.height);
  }

  // ---------------------------------------------------------------------------
  // Whole routes

  function StepsFrom(m: Config, me: Core, dest: Core): int
    requires Valid(m)
  {
    StepsLeft(m, Position(m, me), Position(m, dest))
  }

  lemma RouteCloser(m: Config, me: Core, dest: Core)
    requires Valid(m) && Transit(m, me, dest)
    ensures var (dir, next) := Route(m, me, dest);
            IsLink(dir) && IsMaster(m, next) && 0 <= StepsFrom(m, next, dest) == StepsFrom(m, me, dest) - 1
  {
    hide Route, Position, IsMaster, StepsLeft, Move;
    RouteIsMove(m, me, dest);
    MoveCloser(m, Position(m, me), Position(m, dest));
  }

  datatype Link = Link(from: Core, dir: Direction)

  /** The links a unicast packet uses from `me` to `dest`. */
  function Links(m: Config, me: Core, dest: Core): seq<Link>
    requires Valid(m)
    decreases if Transit(m, me, dest) then 1 + StepsFrom(m, me, dest) else 0
  {
    if !Transit(m, me, dest) then []
    else
      RouteCloser(m, me, dest);
      var (dir, next) := Route(m, me, dest);
      [Link(me, dir)] + Links(m, next, dest)
  }

  /** Arriving at the tile means no steps are left. */
  lemma Arrived(m: Config, me: Core, dest: Core)
    requires Valid(m) && Tile(m, me) == Tile(m, dest)
    ensures StepsFrom(m, me, dest) == 0
  {
  }

  lemma {:induction false} LinkCount(m: Config, me: Core, dest: Core)
    requires Valid(m) && IsMaster(m, me) && dest < Cores(m)
    ensures |Links(m, me, dest)| == StepsFrom(m, me, dest)
    decreases if Transit(m, me, dest) then 1 + StepsFrom(m, me, dest) else 0
  {
    hide Route, Tile, IsMaster, StepsFrom, Cores;
    if Transit(m, me, dest) {
      RouteCloser(m, me, dest);
      LinkCount(m, Route(m, me, dest).1, dest);
    } else {
      Arrived(m, me, dest);
    }
  }

  /**
   The exact length of a route: `computeDistance`, plus one for each dimension of
   odd size that is crossed half way with wrap-around.
   */
  lemma RouteLength(m: Config, sender: Core, dest: Core)
    requires Valid(m) && IsMaster(m, sender) && dest < Cores(m)
    ensures var p, d := Position(m, sender), Position(m, dest);
            |Links(m, sender, dest)| == Distance(m, p, d) + TotalExcess(m, p, d)
    ensures !m.wrapAround || (m.width % 2 == 0 && m.height % 2 == 0) ==>
              |Links(m, sender, dest)| == Distance(m, Position(m, sender), Position(m, dest))
  {
    hide Position, Links, Cores;
    var p, d := Position(m, sender), Position(m, dest);
    LinkCount(m, sender, dest);
    CoreOnMesh(m, sender);
    CoreOnMesh(m, dest);
    StepsVersusShortest(p.x, d.x, m.width, m.wrapAround);
    StepsVersusShortest(p.y, d.y, m.height, m.wrapAround);
  }

  /** The tile at the other end of a link. */
  function Across(m: Config, p: Node, dir: Direction): Node {
    match dir
    case Right => Node(if p.x + 1 == m.width then 0 else p.x + 1, p.y)
    case Left => Node(if p.x > 0 then p.x - 1 else if m.width > 0 then m.width - 1 else 0, p.y)
    case Up => Node(p.x, if p.y + 1 == m.height then 0 else p.y + 1)
    case Down => Node(p.x, if p.y > 0 then p.y - 1 else if m.height > 0 then m.height - 1 else 0)
    case _ => p
  }

  /** Along a row. */
  predicate Horizontal(dir: Direction) { dir.Left? || dir.Right? }

  /** The links lead from tile `p` to tile `d`, each starting where the one before ends, rows first. */
  predicate Connects(m: Config, links: seq<Link>, p: Node, d: Node)
    requires Valid(m)
    decreases |links|
  {
    if links == [] then p == d
    else
      var l := links[0];
      && Position(m, l.from) == p && IsMaster(m, l.from) && IsLink(l.dir)
      && (Horizontal(l.dir) <==> p.x != d.x)
      && Connects(m, links[1..], Across(m, p, l.dir), d)
  }

  lemma MoveAcross(m: Config, p: Node, d: Node)
    requires OnMesh(m, p) && OnMesh(m, d) && p != d
    ensures var (dir, q) := Move(m, p, d); IsLink(dir) && q == Across(m, p, dir) && (Horizontal(dir) <==> p.x != d.x)
  {
  }

  lemma SamePlace(m: Config, me: Core, dest: Core)
    requires Valid(m) && Tile(m, me) == Tile(m, dest)
    ensures Position(m, me) == Position(m, dest)
  {
  }

  /** The route of a packet is a connected way from its sender's tile to its destination's, first along the row and then along the column. */
  lemma {:induction false} RouteConnects(m: Config, me: Core, dest: Core)
    requires Valid(m) && IsMaster(m, me) && dest < Cores(m)
    ensures Connects(m, Links(m, me, dest), Position(m, me), Position(m, dest))
    decreases if Transit(m, me, dest) then 1 + StepsFrom(m, me, dest) else 0
  {
    hide Route, Tile, IsMaster, StepsFrom, Cores, Position, Move, Across;
    if Transit(m, me, dest) {
      RouteCloser(m, me, dest);
      RouteIsMove(m, me, dest);
      var (dir, next) := Route(m, me, dest);
      MoveAcross(m, Position(m, me), Position(m, dest));
      RouteConnects(m, next, dest);
      assert Links(m, me, dest) == [Link(me, dir)] + Links(m, next, dest);
      assert Links(m, me, dest)[1..] == Links(m, next, dest);
    } else {
      SamePlace(m, me, dest);
    }
  }

  /** A link from `p` in direction `dir` exists. */
  predicate HasLink(m: Config, p: Node, dir: Direction) {
    && OnMesh(m, p) && IsLink(dir)
    && (m.wrapAround || match dir {
          case Right => p.x + 1 < m.width
          case Left => p.x > 0
          case Up => p.y + 1 < m.height
          case Down => p.y > 0
          case _ => false
        })
  }

  /** A walk over links in the given directions. */
  predicate Walks(m: Config, p: Node, dirs: seq<Direction>, d: Node)
    decreases |dirs|
  {
    if dirs == [] then p == d else HasLink(m, p, dirs[0]) && Walks(m, Across(m, p, dirs[0]), dirs[1..], d)
  }

  lemma OneStepAway(s: nat, d: nat, n: nat, wrap: bool, s': nat)
    requires s < n && d < n && s' < n
    requires s' == s + 1 || s == s' + 1 || (wrap && ((s == 0 && s' == n - 1) || (s' == 0 && s == n - 1)))
    ensures Shortest(s, d, n, wrap) <= Shortest(s', d, n, wrap) + 1
  {
  }

  lemma LinkDistance(m: Config, p: Node, dir: Direction, d: Node)
    requires HasLink(m, p, dir) && OnMesh(m, d)
    ensures OnMesh(m, Across(m, p, dir)) && Distance(m, p, d) <= Distance(m, Across(m, p, dir), d) + 1
  {
    hide Shortest;
    var q := Across(m, p, dir);
    if Horizontal(dir) {
      OneStepAway(p.x, d.x, m.width, m.wrapAround, q.x);
    } else {
      OneStepAway(p.y, d.y, m.height, m.wrapAround, q.y);
    }
  }

  /** `computeDistance` is the distance on the mesh: no walk is shorter. */
  lemma {:induction false} NoShorterWay(m: Config, p: Node, dirs: seq<Direction>, d: Node)
    requires OnMesh(m, p) && OnMesh(m, d) && Walks(m, p, dirs, d)
    ensures Distance(m, p, d) <= |dirs|
    decreases |dirs|
  {
    if dirs != [] {
      hide Distance, Across, HasLink;
      LinkDistance(m, p, dirs[0], d);
      NoShorterWay(m, Across(m, p, dirs[0]), dirs[1..], d);
    }
  }

  /** A step of the router towards `d` on the shorter side. */
  function Shorter(s: nat, d: nat, n: nat, wrap: bool): nat {
    if (s > d) != (wrap && Abs(s - d) > n - Abs(s - d)) then (if s > 0 then s - 1 else if n > 0 then n - 1 else 0) else (if s + 1 == n then 0 else s + 1)
  }

  lemma ShorterStep(s: nat, d: nat, n: nat, wrap: bool)
    requires s < n && d < n && s != d
    ensures var s' := Shorter(s, d, n, wrap);
            && s' < n && Shortest(s', d, n, wrap) == Shortest(s, d, n, wrap) - 1
            && (s' == s + 1 || s == s' + 1 || (wrap && ((s == 0 && s' == n - 1) || (s' == 0 && s == n - 1))))
  {
  }

  lemma {:induction false} SomeShortestWay(m: Config, p: Node, d: Node) returns (dirs: seq<Direction>)
    requires OnMesh(m, p) && OnMesh(m, d)
    ensures Walks(m, p, dirs, d) && |dirs| == Distance(m, p, d)
    decreases Shortest(p.x, d.x, m.width, m.wrapAround) + Shortest(p.y, d.y, m.height, m.wrapAround)
  {
    StepsVersusShortest(p.x, d.x, m.width, m.wrapAround);
    StepsVersusShortest(p.y, d.y, m.height, m.wrapAround);
    if p == d {
      dirs := [];
    } else {
      var dir := ShorterLink(m, p, d);
      var more := SomeShortestWay(m, Across(m, p, dir), d);
      dirs := [dir] + more;
      assert dirs[1..] == more;
    }
  }

  lemma ShorterLink(m: Config, p: Node, d: Node) returns (dir: Direction)
    requires OnMesh(m, p) && OnMesh(m, d) && p != d
    ensures HasLink(m, p, dir) && OnMesh(m, Across(m, p, dir)) && Distance(m, Across(m, p, dir), d) == Distance(m, p, d) - 1
  {
    hide Shortest;
    if p.x != d.x {
      ShorterStep(p.x, d.x, m.width, m.wrapAround);
      var x := Shorter(p.x, d.x, m.width, m.wrapAround);
      dir := if x == p.x + 1 || (x != p.x - 1 && x == 0) then Right else Left;
    } else {
      ShorterStep(p.y, d.y, m.height, m.wrapAround);
      var y := Shorter(p.y, d.y, m.height, m.wrapAround);
      dir := if y == p.y + 1 || (y != p.y - 1 && y == 0) then Up else Down;
    }
  }

  // ---------------------------------------------------------------------------
  // The forwarding loop

  /** The time spent on the first `n` links: the hop latency and the queueing delay of each. */
  function Travel(hopLatency: nat, delay: nat -> nat, n: nat): nat {
    if n == 0 then 0 else Travel(hopLatency, delay, n - 1) + hopLatency + delay(n - 1)
  }

  /**
   The unicast part of `netSend`: ask the router of the sender, then the router
   of each next hop, until the next hop is the destination.  `delay(i)` is what
   the queue model of the i-th link answers, `injection` what the sender's
   injection port answers; only the router of a tile has one.
   */
  method NetSend(m: Config, sender: Core, dest: Core, start: nat, injection: nat, hopLatency: nat, delay: nat -> nat)
    returns (links: seq<Link>, time: nat)
    requires Valid(m)
    ensures links == Links(m, sender, dest)
    ensures time == start + (if IsMaster(m, sender) then injection else 0) + Travel(hopLatency, delay, |links|)
  {
    hide NextDest, Tile, Cores, Position, StepsLeft;
    links, time := [], start + if IsMaster(m, sender) then injection else 0;
    var hop := Route(m, sender, dest);
    RouteCases(m, sender, dest);
    if IsLink(hop.0) {
      links, time := [Link(sender, hop.0)], time + hopLatency + delay(0);
    }
    while hop.1 != dest
      invariant hop.1 != dest ==> IsMaster(m, hop.1) && dest < Cores(m)
      invariant links + Links(m, hop.1, dest) == Links(m, sender, dest)
      invariant time == start + (if IsMaster(m, sender) then injection else 0) + Travel(hopLatency, delay, |links|)
      decreases hop.1 != dest, if Transit(m, hop.1, dest) then 1 + StepsFrom(m, hop.1, dest) else 0
    {
      var here := hop.1;
      hop := Route(m, here, dest);
      RouteCases(m, here, dest);
      if IsLink(hop.0) {
        time := time + hopLatency + delay(|links|);
        links := links + [Link(here, hop.0)];
      }
    }
    assert !Transit(m, dest, dest);
  }

  /** A router either forwards over a link, closer to the destination, or delivers. */
  lemma RouteCases(m: Config, me: Core, dest: Core)
    requires Valid(m)
    ensures var (dir, next) := Route(m, me, dest);
            if Transit(m, me, dest)
            then IsLink(dir) && IsMaster(m, next) && dest < Cores(m)
                 && 0 <= StepsFrom(m, next, dest) == StepsFrom(m, me, dest) - 1
            else !IsLink(dir) && next == dest
  {
    if Transit(m, me, dest) { RouteCloser(m, me, dest); }
  }

  lemma {:induction false} TravelSplits(hopLatency: nat, delay: nat -> nat, n: nat)
    ensures Travel(hopLatency, delay, n) == n * hopLatency + Travel(0, delay, n)
  {
    if n > 0 {
      TravelSplits(hopLatency, delay, n - 1);
      assert n * hopLatency == (n - 1) * hopLatency + hopLatency;
    }
  }

  /**
   Every link's queueing delay counts exactly once: changing the delay of one link
   changes the travelling time by that much, if the link is on the route, and
   without queueing each link takes the hop latency.
   */
  lemma {:induction false} DelayCountsOnce(hopLatency: nat, delay: nat -> nat, delay': nat -> nat, i: nat, n: nat)
    requires forall k: nat :: k != i ==> delay'(k) == delay(k)
    ensures Travel(hopLatency, delay', n) - Travel(hopLatency, delay, n) == if i < n then delay'(i) - delay(i) else 0
    ensures (forall k: nat :: k < n ==> delay(k) == 0) ==> Travel(hopLatency, delay, n) == n * hopLatency
  {
    if n > 0 {
      DelayCountsOnce(hopLatency, delay, delay', i, n - 1);
      Distributes(n - 1, 1, hopLatency);
    }
  }

  /**
   The contention that `processReceivedPacket` records, the latency minus the
   distance at full speed, is the queueing plus one hop for every excess step.
   */
  lemma ContentionRecorded(m: Config, sender: Core, dest: Core, injection: nat, hopLatency: nat, delay: nat -> nat)
    requires Valid(m) && IsMaster(m, sender) && dest < Cores(m)
    ensures var p, d := Position(m, sender), Position(m, dest);
            var n := |Links(m, sender, dest)|;
            injection + Travel(hopLatency, delay, n) - Distance(m, p, d) * hopLatency
              == injection + Travel(0, delay, n) + TotalExcess(m, p, d) * hopLatency
  {
    hide Links, Position, Distance, TotalExcess, Cores, IsMaster;
    var p, d := Position(m, sender), Position(m, dest);
    RouteLength(m, sender, dest);
    TravelSplits(hopLatency, delay, |Links(m, sender, dest)|);
    Distributes(Distance(m, p, d), TotalExcess(m, p, d), hopLatency);
  }

  lemma Distributes(a: int, b: int, c: int)
    ensures (a + b) * c == a * c + b * c
  {
  }

  // ---------------------------------------------------------------------------
  // Cyclic dependencies between links

  /** No dimension has wrap-around links that packets go on from. */
  predicate NoLongRing(m: Config) { !m.wrapAround || (m.width <= 5 && m.height <= 5) }

  /** Rows before columns, and along the direction of travel. */
  function Rank(m: Config, p: Node, dir: Direction): int {
    match dir
    case Right => p.x
    case Left => m.width - 1 - p.x
    case Up => m.width + p.y
    case Down => m.width + m.height - 1 - p.y
    case _ => 0
  }

  function LinkRank(m: Config, l: Link): int
    requires Valid(m)
  {
    Rank(m, Position(m, l.from), l.dir)
  }

  /** On a short ring, a link that wraps around is the only step in its dimension. */
  lemma MoveRanks(m: Config, p: Node, d: Node)
    requires OnMesh(m, p) && OnMesh(m, d) && NoLongRing(m) && p != d
    requires Move(m, p, d).1 != d
    ensures var (dir, q) := Move(m, p, d); Rank(m, p, dir) < Rank(m, q, Move(m, q, d).0)
  {
  }

  /** Along every route the link ranks strictly increase. */
  lemma {:induction false} RanksIncrease(m: Config, me: Core, dest: Core, i: nat)
    requires Valid(m) && NoLongRing(m) && i + 1 < |Links(m, me, dest)|
    ensures LinkRank(m, Links(m, me, dest)[i]) < LinkRank(m, Links(m, me, dest)[i + 1])
    decreases i
  {
    hide Position, Tile, Cores, IsMaster, Move, Rank, Route, NoLongRing;
    RouteIsMove(m, me, dest);
    var next := Route(m, me, dest).1;
    assert Links(m, me, dest)[1..] == Links(m, next, dest);
    if i == 0 {
      RouteIsMove(m, next, dest);
      MoveRanks(m, Position(m, me), Position(m, dest));
    } else {
      RanksIncrease(m, next, dest, i - 1);
    }
  }

  /** Some packet holds link `a` while asking for link `b`. */
  ghost predicate Depends(m: Config, a: Link, b: Link)
    requires Valid(m)
  {
    exists me: Core, dest: Core, i: nat | i + 1 < |Links(m, me, dest)| ::
      Links(m, me, dest)[i] == a && Links(m, me, dest)[i + 1] == b
  }

  ghost predicate DependencyChain(m: Config, chain: seq<Link>)
    requires Valid(m)
  {
    |chain| > 1 && forall i :: 0 <= i < |chain| - 1 ==> Depends(m, chain[i], chain[i + 1])
  }

  lemma DependencyRanks(m: Config, a: Link, b: Link)
    requires Valid(m) && NoLongRing(m) && Depends(m, a, b)
    ensures LinkRank(m, a) < LinkRank(m, b)
  {
    var me: Core, dest: Core, i: nat :| i + 1 < |Links(m, me, dest)|
      && Links(m, me, dest)[i] == a && Links(m, me, dest)[i + 1] == b;
    RanksIncrease(m, me, dest, i);
  }

  /** So no chain of dependencies returns to the link it started from. */
  lemma {:induction false} NoCyclicDependency(m: Config, chain: seq<Link>)
    requires Valid(m) && NoLongRing(m) && DependencyChain(m, chain)
    ensures LinkRank(m, chain[0]) < LinkRank(m, chain[|chain| - 1])
    ensures chain[0] != chain[|chain| - 1]
  {
    hide Depends, LinkRank, NoLongRing;
    var n := |chain| - 1;
    DependencyRanks(m, chain[n - 1], chain[n]);
    if n > 1 {
      NoCyclicDependency(m, chain[..n]);
    }
  }

  // A ring of six or more tiles has a circle of dependencies: every pair of
  // consecutive links in one direction lies on a route of two links.

  /** The length of a ring along the row (`row`) or the column of tile 0. */
  function RingSize(m: Config, row: bool): nat { if row then m.width else m.height }

  function Spot(row: bool, i: nat): Node { if row then Node(i, 0) else Node(0, i) }

  function Along(row: bool): Direction { if row then Right else Up }

  /** `k` tiles after tile `i` on a ring of `n`. */
  function After(i: nat, k: nat, n: nat): int { if i + k < n then i + k else i + k - n }

  predicate LongRing(m: Config, row: bool) { Valid(m) && m.wrapAround && RingSize(m, row) >= 6 }

  /** Packets to the next tile but one keep to the direction, across the wrap-around too. */
  lemma RingMove(m: Config, row: bool, i: nat, k: nat)
    requires LongRing(m, row) && i < RingSize(m, row) && 1 <= k <= 2
    ensures var n := RingSize(m, row);
            && 0 <= After(i, k, n) < n && 0 <= After(i, 1, n) < n && After(i, k, n) != i
            && OnMesh(m, Spot(row, i)) && OnMesh(m, Spot(row, After(i, k, n)))
            && Move(m, Spot(row, i), Spot(row, After(i, k, n))) == (Along(row), Spot(row, After(i, 1, n)))
  {
  }

  /** The master of a tile is determined by its position. */
  lemma MasterAt(m: Config, c: Core)
    requires Valid(m) && IsMaster(m, c)
    ensures c == Master(m, Position(m, c))
  {
    var t := Tile(m, c);
    assert c == m.concentration * t + c % m.concentration;
    assert t == m.width * (t / m.width) + t % m.width;
  }

  lemma RingRoute(m: Config, row: bool, i: nat, k: nat)
    requires LongRing(m, row) && i < RingSize(m, row) && 1 <= k <= 2
    ensures var n := RingSize(m, row);
            && 0 <= After(i, k, n) < n && 0 <= After(i, 1, n) < n
            && Transit(m, Master(m, Spot(row, i)), Master(m, Spot(row, After(i, k, n))))
            && Route(m, Master(m, Spot(row, i)), Master(m, Spot(row, After(i, k, n)))) == (Along(row), Master(m, Spot(row, After(i, 1, n))))
  {
    RingMove(m, row, i, k);
    var n := RingSize(m, row);
    var p, d := Spot(row, i), Spot(row, After(i, k, n));
    var me, dest := Master(m, p), Master(m, d);
    CoreAtPosition(m, p);
    CoreAtPosition(m, d);
    IsMasterMeans(m, dest);
    assert p != d;
    assert Tile(m, me) != Tile(m, dest);
    hide Position, Tile, Cores, IsMaster, Master, Move, Spot, RingSize, Route, After;
    RouteIsMove(m, me, dest);
    MasterAt(m, Route(m, me, dest).1);
  }

  lemma RingDependency(m: Config, row: bool, i: nat)
    requires LongRing(m, row) && i < RingSize(m, row)
    ensures var n := RingSize(m, row);
            0 <= After(i, 1, n) < n
            && Depends(m, Link(Master(m, Spot(row, i)), Along(row)), Link(Master(m, Spot(row, After(i, 1, n))), Along(row)))
  {
    var n := RingSize(m, row);
    assert 0 <= After(i, 1, n) < n && 0 <= After(i, 2, n) < n && After(After(i, 1, n), 1, n) == After(i, 2, n);
    hide Route, Transit, Master, Spot, RingSize, After;
    var me, j, dest := Master(m, Spot(row, i)), Master(m, Spot(row, After(i, 1, n))), Master(m, Spot(row, After(i, 2, n)));
    RingRoute(m, row, i, 2);
    RingRoute(m, row, After(i, 1, n), 1);
    var links := Links(m, me, dest);
    assert links == [Link(me, Along(row))] + Links(m, j, dest);
    assert Links(m, j, dest) == [Link(j, Along(row))] + Links(m, dest, dest);
    assert links[0] == Link(me, Along(row)) && links[0 + 1] == Link(j, Along(row));
  }

  lemma RingCycle(m: Config, row: bool) returns (chain: seq<Link>)
    requires LongRing(m, row)
    ensures DependencyChain(m, chain) && chain[0] == chain[|chain| - 1]
  {
    var n := RingSize(m, row);
    chain := seq(n + 1, i requires 0 <= i => Link(Master(m, Spot(row, if i < n then i else 0)), Along(row)));
    hide Depends, Master, Spot, RingSize;
    forall i | 0 <= i < |chain| - 1 ensures Depends(m, chain[i], chain[i + 1]) {
      RingDependency(m, row, i);
    }
  }

  /**
   Exactly when dimension-order routing on the mesh has a circle of channel
   dependencies: with wrap-around and six or more tiles in a dimension.
   */
  lemma CyclicExactly(m: Config)
    requires Valid(m)
    ensures (exists chain :: DependencyChain(m, chain) && chain[0] == chain[|chain| - 1])
            <==> m.wrapAround && (m.width >= 6 || m.height >= 6)
  {
    if NoLongRing(m) {
      forall chain | DependencyChain(m, chain) ensures chain[0] != chain[|chain| - 1] {
        NoCyclicDependency(m, chain);
      }
    } else {
      var chain := RingCycle(m, m.width >= 6);
    }
  }
}
