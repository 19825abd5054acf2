/**
What the ghost layer is for: whoever is closer than the ghost width to a point of a domain, through
periodic boundaries as well, has a copy on the rank of that domain, and the copy is at the image that
is that close.
 */
module GhostLayer {
  import opened Grid
  import opened BoxDim
  import opened GhostExchange
  import opened GhostPaths
  import PM = ParticleMigration
  import CG = CellGeometry
  import GP = GhostPlan

  // ----- one axis ---------------------------------------------------------------------------

  /** Half the width of every domain exceeds the layer, which is what the box size check asks for. */
  ghost predicate Checked(c: seq<real>, n: nat, layer: real)
    requires PM.Fractions(c, n)
  {
    n > 1 ==> forall k :: 0 <= k < n ==> 2.0 * layer < Width(c, k)
  }

  function Width(c: seq<real>, k: nat): real
    requires k + 1 < |c|
  {
    c[k + 1] - c[k]
  }

  /** With two domains, the layer also leaves room for the tolerance of the wrapping window. */
  ghost predicate Roomy(c: seq<real>, n: nat, layer: real)
    requires PM.Fractions(c, n)
  {
    n == 2 ==> layer + PM.TOLERANCE <= Width(c, 0) / 2.0 && layer + PM.TOLERANCE <= Width(c, 1) / 2.0
  }

  /** A fraction moved by `m` turns is closer than the layer to another one. */
  predicate Within(f: real, m: int, v: real, layer: real) {
    -layer < v - f - m as real < layer
  }

  /** The hop from domain `i` that brings a particle close to domain `b` after `m` turns: up, down or none. */
  datatype Step = Stay | Up | Down

  ghost predicate Leads(c: seq<real>, n: nat, i: nat, f: real, layer: real, step: Step, b: nat, m: int)
    requires PM.Fractions(c, n) && i < n
  {
    match step
    case Stay => b == i && m == 0
    case Up => b == PM.Next(i, n) && m == (if i + 1 == n then -1 else 0) && f > c[i + 1] - layer
    case Down => b == PM.Previous(i, n) && m == (if i == 0 then 1 else 0) && f < c[i] + layer
  }

  /** Whoever is within the layer of a point of a domain is there or one domain away. */
  lemma OneStepAway(c: seq<real>, n: nat, i: nat, f: real, m: int, b: nat, v: real, layer: real) returns (step: Step)
    requires PM.Fractions(c, n) && n > 1 && i < n && b < n && Checked(c, n, layer)
    requires PM.Inside(c, n, PM.Axis(i, f)) && PM.Inside(c, n, PM.Axis(b, v)) && Within(f, m, v, layer)
    ensures Leads(c, n, i, f, layer, step, b, m)
  {
    PM.FractionsBounds(c, n, i);
    PM.FractionsBounds(c, n, i + 1);
    PM.FractionsBounds(c, n, b);
    PM.FractionsBounds(c, n, b + 1);
    assert Width(c, 0) > 2.0 * layer && Width(c, n - 1) > 2.0 * layer;
    if m == 0 {
      step := SameTurn(c, n, i, f, b, v, layer);
    } else if m == -1 {
      LastAndFirst(c, n, i, f, b, v, layer);
      step := Up;
    } else {
      assert m == 1;
      FirstAndLast(c, n, i, f, b, v, layer);
      step := Down;
    }
  }

  lemma SameTurn(c: seq<real>, n: nat, i: nat, f: real, b: nat, v: real, layer: real) returns (step: Step)
    requires PM.Fractions(c, n) && n > 1 && i < n && b < n && Checked(c, n, layer)
    requires PM.Inside(c, n, PM.Axis(i, f)) && PM.Inside(c, n, PM.Axis(b, v)) && Within(f, 0, v, layer)
    ensures Leads(c, n, i, f, layer, step, b, 0)
  {
    if b == i {
      step := Stay;
    } else if b > i {
      step := Up;
      if b > i + 1 {
        assert Width(c, i + 1) > 2.0 * layer;
        Ascending(c, n, i + 2, b);
      }
    } else {
      step := Down;
      if b + 1 < i {
        assert Width(c, i - 1) > 2.0 * layer;
        Ascending(c, n, b + 1, i - 1);
      }
    }
  }

  lemma Ascending(c: seq<real>, n: nat, i: nat, j: nat)
    requires PM.Fractions(c, n) && i <= j <= n
    ensures c[i] <= c[j]
  {
    if i < j {
      PM.FractionsIncrease(c, n, i, j);
    }
  }

  lemma LastAndFirst(c: seq<real>, n: nat, i: nat, f: real, b: nat, v: real, layer: real)
    requires PM.Fractions(c, n) && n > 1 && i < n && b < n && Checked(c, n, layer)
    requires PM.Inside(c, n, PM.Axis(i, f)) && PM.Inside(c, n, PM.Axis(b, v)) && Within(f, -1, v, layer)
    ensures i == n - 1 && b == 0 && f > 1.0 - layer
  {
    PM.FractionsBounds(c, n, b);
    PM.FractionsBounds(c, n, i + 1);
    assert Width(c, 0) > 2.0 * layer && Width(c, n - 1) > 2.0 * layer;
    if b > 0 {
      Ascending(c, n, 1, b);
    }
    if i < n - 1 {
      Ascending(c, n, i + 1, n - 1);
    }
  }

  lemma FirstAndLast(c: seq<real>, n: nat, i: nat, f: real, b: nat, v: real, layer: real)
    requires PM.Fractions(c, n) && n > 1 && i < n && b < n && Checked(c, n, layer)
    requires PM.Inside(c, n, PM.Axis(i, f)) && PM.Inside(c, n, PM.Axis(b, v)) && Within(f, 1, v, layer)
    ensures i == 0 && b == n - 1 && f < layer
  {
    PM.FractionsBounds(c, n, i);
    PM.FractionsBounds(c, n, b + 1);
    assert Width(c, 0) > 2.0 * layer && Width(c, n - 1) > 2.0 * layer;
    if i > 0 {
      Ascending(c, n, 1, i);
    }
    if b < n - 1 {
      Ascending(c, n, b + 1, n - 1);
    }
  }

  /** The receiver's window moves the particle by exactly these turns, and then leaves it there. */
  lemma WindowTurns(c: seq<real>, n: nat, i: nat, f: real, layer: real, step: Step, b: nat, m: int)
    requires PM.Fractions(c, n) && PM.WideEnds(c, n) && n > 1 && i < n && b < n
    requires Checked(c, n, layer) && Roomy(c, n, layer)
    requires PM.Inside(c, n, PM.Axis(i, f)) && Leads(c, n, i, f, layer, step, b, m)
    ensures PM.Aside(c, n, PM.Axis(b, f)) == PM.Axis(b, f + m as real)
    ensures PM.Aside(c, n, PM.Axis(b, f + m as real)) == PM.Axis(b, f + m as real)
  {
    PM.FractionsBounds(c, n, i);
    PM.FractionsBounds(c, n, i + 1);
    assert Width(c, 0) > 2.0 * layer && Width(c, n - 1) > 2.0 * layer;
    match step
    case Stay =>
      PM.InsideIsStable(c, n, PM.Axis(i, f));
    case Up =>
      if i + 1 < n && i > 0 {
        Ascending(c, n, 1, i);
      }
    case Down =>
      if 0 < i < n - 1 {
        Ascending(c, n, i + 1, n - 1);
      }
  }

  /**
  The room for the tolerance is exact: with two domains, windows move all particles within the layer to
  the close image if and only if there is room.
   */
  lemma RoomIsExact(c: seq<real>, layer: real)
    requires PM.Fractions(c, 2) && PM.WideEnds(c, 2) && layer > 0.0 && Checked(c, 2, layer)
    ensures (forall i, f, b, v, m :: Seen(c, 2, i, f, b, v, m, layer) ==> PM.Aside(c, 2, PM.Axis(b, f)).f == f + m as real)
       <==> Roomy(c, 2, layer)
  {
    assert Width(c, 0) > 2.0 * layer && Width(c, 1) > 2.0 * layer;
    if Roomy(c, 2, layer) {
      forall i, f, b, v, m | Seen(c, 2, i, f, b, v, m, layer) ensures PM.Aside(c, 2, PM.Axis(b, f)).f == f + m as real {
        var step := OneStepAway(c, 2, i, f, m, b, v, layer);
        WindowTurns(c, 2, i, f, layer, step, b, m);
      }
    } else if layer + PM.TOLERANCE > Width(c, 0) / 2.0 {
      var f := (c[1] - layer + c[1] / 2.0 + PM.TOLERANCE) / 2.0;
      assert Seen(c, 2, 0, f, 1, c[1], 0, layer);
      assert PM.Aside(c, 2, PM.Axis(1, f)).f == f + 1.0;
    } else {
      var f := (c[1] + layer + 1.0 - Width(c, 1) / 2.0 - PM.TOLERANCE) / 2.0;
      var v := (f - layer + c[1]) / 2.0;
      assert Seen(c, 2, 1, f, 0, v, 0, layer);
      assert PM.Aside(c, 2, PM.Axis(0, f)).f == f - 1.0;
    }
  }

  /** A particle in domain `i` that is within the layer of a point of domain `b`, `m` turns on. */
  ghost predicate Seen(c: seq<real>, n: nat, i: int, f: real, b: int, v: real, m: int, layer: real)
    requires PM.Fractions(c, n)
  {
    && 0 <= i < n && 0 <= b < n && PM.Inside(c, n, PM.Axis(i, f)) && PM.Inside(c, n, PM.Axis(b, v))
    && Within(f, m, v, layer)
  }

  // ----- three axes -------------------------------------------------------------------------

  /** A ghost that has just been received is wrapped along all axes. */
  function Received(d: PM.Domains, s: PM.Site): (r: PM.Site)
    requires d.Valid() && d.Contains(s)
    ensures d.Contains(r) && PM.CellOf(r) == PM.CellOf(s)
  {
    PM.Site(PM.SideWrap(d.cx, d.t.grid.w, s.x, d.XError(s.z.i)), PM.Aside(d.cy, d.t.grid.h, s.y), PM.Aside(d.cz, d.t.grid.d, s.z))
  }

  /** The same fractions on the next domain. */
  function Sent(d: PM.Domains, s: PM.Site, dir: Direction): (r: PM.Site)
    requires d.Valid() && d.Contains(s)
    ensures d.Contains(r)
  {
    var c := Hop(d.t.grid, PM.CellOf(s), dir);
    PM.Site(PM.Axis(c.x, s.x.f), PM.Axis(c.y, s.y.f), PM.Axis(c.z, s.z.f))
  }

  /** One direction of an itinerary. */
  function OneHop(d: PM.Domains, s: PM.Site, hops: Plan, dir: Direction): (r: PM.Site)
    requires d.Valid() && d.Contains(s)
    ensures d.Contains(r)
  {
    if dir in hops then Received(d, Sent(d, s, dir)) else s
  }

  /** A ghost after the first `k` directions of an itinerary. */
  function PathSite(d: PM.Domains, s: PM.Site, hops: Plan, k: nat): (r: PM.Site)
    requires d.Valid() && d.Contains(s) && k <= DIRECTIONS
    ensures d.Contains(r)
  {
    if k == 0 then s else OneHop(d, PathSite(d, s, hops, k - 1), hops, k - 1)
  }

  /** The directions of the steps along the three axes. */
  function Hops(x: Step, y: Step, z: Step): Plan {
    Along(x, 0) + Along(y, 2) + Along(z, 4)
  }

  function Along(step: Step, up: Direction): Plan
    requires up < 5
  {
    match step
    case Stay => {}
    case Up => {up}
    case Down => {up + 1}
  }

  /** Where a step leads along an axis, and that windows agree: before, on arrival and after. */
  ghost predicate Served(c: seq<real>, n: nat, a: PM.Axis, step: Step, goal: PM.Axis)
    requires PM.Fractions(c, n) && a.i < n
  {
    && goal.i == (match step case Stay => a.i case Up => PM.Next(a.i, n) case Down => PM.Previous(a.i, n))
    && (step == Stay ==> goal == a)
    && PM.Aside(c, n, a) == a && PM.Aside(c, n, PM.Axis(goal.i, a.f)) == goal && PM.Aside(c, n, goal) == goal
  }

  ghost predicate NoErrors(d: PM.Domains)
    requires d.Valid()
  {
    forall k :: 0 <= k < d.t.grid.d ==> d.XError(k) == 0.0
  }

  lemma HopsX(d: PM.Domains, s: PM.Site, hops: Plan, step: Step, goal: PM.Axis)
    requires d.Valid() && NoErrors(d) && d.Contains(s) && (0 in hops <==> step == Up) && (1 in hops <==> step == Down)
    requires Served(d.cx, d.t.grid.w, s.x, step, goal)
    requires PM.Aside(d.cy, d.t.grid.h, s.y) == s.y && PM.Aside(d.cz, d.t.grid.d, s.z) == s.z
    ensures OneHop(d, OneHop(d, s, hops, 0), hops, 1) == PM.Site(goal, s.y, s.z)
  {
  }

  lemma HopsY(d: PM.Domains, s: PM.Site, hops: Plan, step: Step, goal: PM.Axis)
    requires d.Valid() && NoErrors(d) && d.Contains(s) && (2 in hops <==> step == Up) && (3 in hops <==> step == Down)
    requires Served(d.cy, d.t.grid.h, s.y, step, goal)
    requires PM.Aside(d.cx, d.t.grid.w, s.x) == s.x && PM.Aside(d.cz, d.t.grid.d, s.z) == s.z
    ensures OneHop(d, OneHop(d, s, hops, 2), hops, 3) == PM.Site(s.x, goal, s.z)
  {
  }

  lemma HopsZ(d: PM.Domains, s: PM.Site, hops: Plan, step: Step, goal: PM.Axis)
    requires d.Valid() && NoErrors(d) && d.Contains(s) && (4 in hops <==> step == Up) && (5 in hops <==> step == Down)
    requires Served(d.cz, d.t.grid.d, s.z, step, goal)
    requires PM.Aside(d.cx, d.t.grid.w, s.x) == s.x && PM.Aside(d.cy, d.t.grid.h, s.y) == s.y
    ensures OneHop(d, OneHop(d, s, hops, 4), hops, 5) == PM.Site(s.x, s.y, goal)
  {
  }

  lemma HopsHold(x: Step, y: Step, z: Step)
    ensures var hops := Hops(x, y, z);
      && (0 in hops <==> x == Up) && (1 in hops <==> x == Down) && (2 in hops <==> y == Up) && (3 in hops <==> y == Down)
      && (4 in hops <==> z == Up) && (5 in hops <==> z == Down)
  {
  }

  lemma HopsAreActive(t: Decomposition, x: Step, y: Step, z: Step, plan: Plan)
    requires (x == Up ==> t.grid.w > 1 && 0 in plan) && (x == Down ==> t.grid.w > 1 && 1 in plan)
    requires (y == Up ==> t.grid.h > 1 && 2 in plan) && (y == Down ==> t.grid.h > 1 && 3 in plan)
    requires (z == Up ==> t.grid.d > 1 && 4 in plan) && (z == Down ==> t.grid.d > 1 && 5 in plan)
    ensures Hops(x, y, z) <= Active(t, plan)
  {
    HopsHold(x, y, z);
  }

  lemma PathTwo(d: PM.Domains, s: PM.Site, hops: Plan, i: nat, j: nat, k: nat)
    requires d.Valid() && d.Contains(s) && j == i + 1 && k == j + 1 <= DIRECTIONS
    ensures PathSite(d, s, hops, k) == OneHop(d, OneHop(d, PathSite(d, s, hops, i), hops, i), hops, j)
  {
  }

  /** Along the itinerary of its steps, a ghost gets to all goals. */
  lemma PathReachesGoals(d: PM.Domains, s: PM.Site, x: Step, y: Step, z: Step, goal: PM.Site)
    requires d.Valid() && NoErrors(d) && d.Contains(s)
    requires Served(d.cx, d.t.grid.w, s.x, x, goal.x) && Served(d.cy, d.t.grid.h, s.y, y, goal.y) && Served(d.cz, d.t.grid.d, s.z, z, goal.z)
    ensures PathSite(d, s, Hops(x, y, z), DIRECTIONS) == goal
  {
    var hops := Hops(x, y, z);
    HopsHold(x, y, z);
    HopsX(d, s, hops, x, goal.x);
    var s1 := PM.Site(goal.x, s.y, s.z);
    HopsY(d, s1, hops, y, goal.y);
    var s2 := PM.Site(goal.x, goal.y, s.z);
    HopsZ(d, s2, hops, z, goal.z);
    PathByPairs(d, s, s1, s2, hops, 0, 1, 2, 3, 4, 5, 6);
  }

  lemma PathByPairs(d: PM.Domains, s: PM.Site, s1: PM.Site, s2: PM.Site, hops: Plan, a: nat, b: nat, c: nat, e: nat, f: nat, g: nat, h: nat)
    requires d.Valid() && d.Contains(s) && d.Contains(s1) && d.Contains(s2)
    requires a == 0 && b == 1 && c == 2 && e == 3 && f == 4 && g == 5 && h == 6
    requires OneHop(d, OneHop(d, s, hops, a), hops, b) == s1 && OneHop(d, OneHop(d, s1, hops, c), hops, e) == s2
    ensures PathSite(d, s, hops, h) == OneHop(d, OneHop(d, s2, hops, f), hops, g)
  {
    PathTwo(d, s, hops, a, b, c);
    PathTwo(d, s, hops, c, e, f);
    PathTwo(d, s, hops, f, g, h);
  }

  // ----- positions --------------------------------------------------------------------------

  /** The setting of a decomposed system: every rank wraps with its shifted box. */
  ghost predicate WrapsWith(s: Setting, d: PM.Domains) {
    && d.Valid() && s.torus == d.t && s.Valid() && s.flags.position
    && forall r :: 0 <= r < |s.boxes| ==> s.boxes[r] == PM.WrapBox(d, r)
  }

  /** A position on a rank, seen on fractional coordinates. */
  function SiteAt(d: PM.Domains, rank: nat, v: Vec): (s: PM.Site)
    requires d.Valid() && rank < d.t.Ranks()
    ensures d.Contains(s)
  {
    var c, f := d.t.Position(rank), d.global.MakeFraction(v);
    PM.Site(PM.Axis(c.x, f.x), PM.Axis(c.y, f.y), PM.Axis(c.z, f.z))
  }

  lemma SiteOfArrival(d: PM.Domains, rank: nat, v: Vec, img: Image, dir: Direction)
    requires d.Valid() && rank < d.t.Ranks()
    ensures var next := d.t.NeighborRank(rank, dir);
      SiteAt(d, next, PM.WrapBox(d, next).Wrap(v, img, NO_FLAGS).0) == Received(d, Sent(d, SiteAt(d, rank, v), dir))
  {
    var next := d.t.NeighborRank(rank, dir);
    PositionOfRankAt(d.t, Hop(d.t.grid, d.t.Position(rank), dir));
    PM.ReceivedFractions(d, next, PM.Particle(0, v, img));
  }

  /** Following the payload is following the site. */
  lemma {:induction false} PathIsSite(s: Setting, d: PM.Domains, memory: Payload, load: Payload, owner: nat, hops: Plan, k: nat)
    requires WrapsWith(s, d) && owner < d.t.Ranks() && k <= DIRECTIONS
    ensures SiteAt(d, Destination(d.t, owner, hops, k), PathLoad(s, memory, load, owner, hops, k).position)
            == PathSite(d, SiteAt(d, owner, load.position), hops, k)
  {
    if k > 0 {
      var j: nat := k - 1;
      PathIsSite(s, d, memory, load, owner, hops, j);
      PathIsSiteStep(s, d, memory, load, owner, hops, j, k);
    }
  }

  lemma PathIsSiteStep(s: Setting, d: PM.Domains, memory: Payload, load: Payload, owner: nat, hops: Plan, j: Direction, k: nat)
    requires WrapsWith(s, d) && owner < d.t.Ranks() && k == j + 1
    ensures SiteAt(d, Destination(d.t, owner, hops, k), PathLoad(s, memory, load, owner, hops, k).position)
            == OneHop(d, SiteAt(d, Destination(d.t, owner, hops, j), PathLoad(s, memory, load, owner, hops, j).position), hops, j)
  {
    if j in hops {
      var before := PathLoad(s, memory, load, owner, hops, j);
      SiteOfArrival(d, Destination(d.t, owner, hops, j), before.position, if s.flags.image then before.image else memory.image, j);
    }
  }

  /** Fractions of a shifted position. */
  lemma FractionOfShift(box: Box, v: Vec, img: Image)
    requires box.NonDegenerate()
    ensures var f := box.MakeFraction(v);
      box.MakeFraction(box.Shift(v, img)) == Vec(f.x + img.x as real, f.y + img.y as real, f.z + img.z as real)
  {
    var (l, u) := (box.L(), box.Untilted(v));
    UntiltedShift(box, v, img);
    TurnsOut(u.x, img.x as real, l.x);
    TurnsOut(u.y, img.y as real, l.y);
    TurnsOut(u.z, img.z as real, l.z);
  }

  lemma UntiltedShift(box: Box, v: Vec, img: Image)
    ensures var (l, u) := (box.L(), box.Untilted(v));
      box.Untilted(box.Shift(v, img)) == Vec(u.x + img.x as real * l.x, u.y + img.y as real * l.y, u.z + img.z as real * l.z)
  {
    var (l, w) := (box.L(), box.Shift(v, img));
    var (i, j, k) := (img.x as real * l.x, img.y as real * l.y, img.z as real * l.z);
    assert w == Vec(v.x + i + j * box.xy + k * box.xz, v.y + j + k * box.yz, v.z + k) by {
      CG.ShiftByLengths(box, v, img);
    }
    ShiftTilts(box, w, v, i, j, k);
  }

  lemma ShiftTilts(box: Box, w: Vec, v: Vec, i: real, j: real, k: real)
    requires w == Vec(v.x + i + j * box.xy + k * box.xz, v.y + j + k * box.yz, v.z + k)
    ensures box.Untilted(w) == Vec(box.Untilted(v).x + i, box.Untilted(v).y + j, box.Untilted(v).z + k)
  {
    ShiftTiltX(box.xy, box.xz, box.yz, v.y, v.z, j, k);
    Distribute(box.yz, v.z, -k);
  }

  lemma ShiftTiltX(xy: real, xz: real, yz: real, y: real, z: real, j: real, k: real)
    ensures (xz - yz * xy) * (z + k) + xy * (y + j + k * yz) == (xz - yz * xy) * z + xy * y + j * xy + k * xz
  {
  }

  lemma TurnsOut(u: real, m: real, l: real)
    requires l > 0.0
    ensures (u + m * l) / l == u / l + m
  {
    var q := u / l;
    assert u == q * l;
    QuotientIs(u + m * l, q + m, l);
  }

  /** Positions with the same fractions are the same. */
  lemma SameFractions(box: Box, a: Vec, b: Vec)
    requires box.NonDegenerate() && box.MakeFraction(a) == box.MakeFraction(b)
    ensures a == b
  {
    CoordinatesOfFraction(box, a);
    CoordinatesOfFraction(box, b);
  }

  // ----- copies at the close image ----------------------------------------------------------

  /** A particle is inside a domain along an axis and, `m` turns on, within the layer of a point of domain `b`. */
  ghost predicate AxisSees(c: seq<real>, n: nat, a: PM.Axis, m: int, b: nat, v: real, layer: real)
    requires PM.Fractions(c, n) && a.i < n && b < n
  {
    n > 1 ==> PM.Inside(c, n, a) && PM.Inside(c, n, PM.Axis(b, v)) && Within(a.f, m, v, layer)
  }

  /** What the layer asks of the domains along an axis. */
  ghost predicate AxisFits(c: seq<real>, n: nat, layer: real)
    requires PM.Fractions(c, n)
  {
    PM.WideEnds(c, n) && Checked(c, n, layer) && Roomy(c, n, layer)
  }

  function Turns(n: nat, m: int): int {
    if n == 1 then 0 else m
  }

  lemma AxisServed(c: seq<real>, n: nat, a: PM.Axis, m: int, b: nat, v: real, layer: real) returns (step: Step)
    requires PM.Fractions(c, n) && a.i < n && b < n && AxisFits(c, n, layer) && AxisSees(c, n, a, m, b, v, layer)
    ensures Served(c, n, a, step, PM.Axis(b, a.f + Turns(n, m) as real))
    ensures step == Up ==> n > 1 && a.f > c[a.i + 1] - layer
    ensures step == Down ==> n > 1 && a.f < c[a.i] + layer
  {
    if n == 1 {
      step := Stay;
    } else {
      step := OneStepAway(c, n, a.i, a.f, m, b, v, layer);
      WindowTurns(c, n, a.i, a.f, layer, step, b, m);
      PM.InsideIsStable(c, n, a);
    }
  }

  /** The plan holds every direction whose face is closer than the layer. */
  ghost predicate Marks(d: PM.Domains, s: PM.Site, layer: Vec, plan: Plan)
    requires d.Valid() && d.Contains(s)
  {
    && AxisMarks(d.cx, d.t.grid.w, s.x, layer.x, 0 in plan, 1 in plan)
    && AxisMarks(d.cy, d.t.grid.h, s.y, layer.y, 2 in plan, 3 in plan)
    && AxisMarks(d.cz, d.t.grid.d, s.z, layer.z, 4 in plan, 5 in plan)
  }

  ghost predicate AxisMarks(c: seq<real>, n: nat, a: PM.Axis, layer: real, up: bool, down: bool)
    requires PM.Fractions(c, n) && a.i < n
  {
    n > 1 ==> (a.f > c[a.i + 1] - layer ==> up) && (a.f < c[a.i] + layer ==> down)
  }

  /** A plan that holds exactly the directions whose faces are within the layer. */
  ghost predicate MarksExactly(d: PM.Domains, s: PM.Site, layer: Vec, plan: Plan)
    requires d.Valid() && d.Contains(s)
  {
    && AxisMarksExactly(d.cx, d.t.grid.w, s.x, layer.x, 0 in plan, 1 in plan)
    && AxisMarksExactly(d.cy, d.t.grid.h, s.y, layer.y, 2 in plan, 3 in plan)
    && AxisMarksExactly(d.cz, d.t.grid.d, s.z, layer.z, 4 in plan, 5 in plan)
  }

  ghost predicate AxisMarksExactly(c: seq<real>, n: nat, a: PM.Axis, layer: real, up: bool, down: bool)
    requires PM.Fractions(c, n) && a.i < n
  {
    (up <==> a.f >= c[a.i + 1] - layer) && (down <==> a.f < c[a.i] + layer)
  }

  /** A served step is one the plan holds. */
  lemma AxisStep(c: seq<real>, n: nat, a: PM.Axis, m: int, b: nat, v: real, layer: real, up: bool, down: bool) returns (step: Step)
    requires PM.Fractions(c, n) && a.i < n && b < n && AxisFits(c, n, layer) && AxisSees(c, n, a, m, b, v, layer)
    requires AxisMarks(c, n, a, layer, up, down)
    ensures Served(c, n, a, step, PM.Axis(b, a.f + Turns(n, m) as real))
    ensures (step == Up ==> n > 1 && up) && (step == Down ==> n > 1 && down)
  {
    step := AxisServed(c, n, a, m, b, v, layer);
  }

  ghost predicate Sees(d: PM.Domains, s: PM.Site, img: Image, b: Cell, f: Vec, layer: Vec)
    requires d.Valid() && d.Contains(s) && d.t.grid.Contains(b)
  {
    && AxisSees(d.cx, d.t.grid.w, s.x, img.x, b.x, f.x, layer.x)
    && AxisSees(d.cy, d.t.grid.h, s.y, img.y, b.y, f.y, layer.y)
    && AxisSees(d.cz, d.t.grid.d, s.z, img.z, b.z, f.z, layer.z)
  }

  ghost predicate Fits(d: PM.Domains, layer: Vec)
    requires d.Valid()
  {
    AxisFits(d.cx, d.t.grid.w, layer.x) && AxisFits(d.cy, d.t.grid.h, layer.y) && AxisFits(d.cz, d.t.grid.d, layer.z)
  }

  /** The image along divided axes; undivided ones are not communicated. */
  function DividedImage(d: PM.Domains, img: Image): Image {
    Image(Turns(d.t.grid.w, img.x), Turns(d.t.grid.h, img.y), Turns(d.t.grid.d, img.z))
  }

  function GoalSite(d: PM.Domains, s: PM.Site, img: Image, b: Cell): PM.Site {
    var m := DividedImage(d, img);
    PM.Site(PM.Axis(b.x, s.x.f + m.x as real), PM.Axis(b.y, s.y.f + m.y as real), PM.Axis(b.z, s.z.f + m.z as real))
  }

  /** The itinerary that leads to a domain with a point within the layer. */
  lemma SeeingPath(d: PM.Domains, s: PM.Site, img: Image, b: Cell, f: Vec, layer: Vec, plan: Plan) returns (hops: Plan)
    requires d.Valid() && NoErrors(d) && d.Contains(s) && d.t.grid.Contains(b)
    requires Fits(d, layer) && Sees(d, s, img, b, f, layer) && Marks(d, s, layer, plan)
    ensures hops <= Active(d.t, plan) && PathSite(d, s, hops, DIRECTIONS) == GoalSite(d, s, img, b)
  {
    var x := AxisStep(d.cx, d.t.grid.w, s.x, img.x, b.x, f.x, layer.x, 0 in plan, 1 in plan);
    var y := AxisStep(d.cy, d.t.grid.h, s.y, img.y, b.y, f.y, layer.y, 2 in plan, 3 in plan);
    var z := AxisStep(d.cz, d.t.grid.d, s.z, img.z, b.z, f.z, layer.z, 4 in plan, 5 in plan);
    hops := Hops(x, y, z);
    HopsAreActive(d.t, x, y, z, plan);
    PathReachesGoals(d, s, x, y, z, GoalSite(d, s, img, b));
  }

  /**
  A particle within the layer of a point of a domain, some image of it, has exactly one copy on the rank
  of that domain, and the copy is at that image along all divided axes.
   */
  lemma CopyAtImage(s: Setting, d: PM.Domains, memory: Payload, world: World, tag: Tag, owner: nat, plan: Plan, load: Payload,
                    q: nat, v: Vec, img: Image, layer: Vec)
    requires WrapsWith(s, d) && NoErrors(d) && Fits(d, layer) && |world| == d.t.Ranks() && q < |world|
    requires OwnedOnce(world, tag, owner, plan) && NoOpposites(Active(d.t, plan))
    requires forall m :: m in world[owner] && m.tag == tag ==> m.load == load
    requires Marks(d, SiteAt(d, owner, load.position), layer, plan)
    requires Sees(d, SiteAt(d, owner, load.position), img, d.t.Position(q), d.global.MakeFraction(v), layer)
    ensures Copies(Exchange(s, memory, world, DIRECTIONS)[q], tag) == 1
    ensures forall m :: m in Exchange(s, memory, world, DIRECTIONS)[q] && m.tag == tag ==>
      m.load.position == d.global.Shift(load.position, DividedImage(d, img))
  {
    var b := d.t.Position(q);
    var hops := SeeingPath(d, SiteAt(d, owner, load.position), img, b, d.global.MakeFraction(v), layer, plan);
    PathEnds(s, d, memory, load, owner, hops, q, img);
    GhostsDeliveredExactlyOnce(s, memory, world, tag, owner, plan, q);
    LoadsFollowPaths(s, memory, load, world, tag, owner, plan, DIRECTIONS);
    OnlyPath(s, memory, load, owner, plan, hops, q);
    assert Reached(d.t, plan, owner, q);
  }

  lemma PathEnds(s: Setting, d: PM.Domains, memory: Payload, load: Payload, owner: nat, hops: Plan, q: nat, img: Image)
    requires WrapsWith(s, d) && owner < d.t.Ranks() && q < d.t.Ranks()
    requires PathSite(d, SiteAt(d, owner, load.position), hops, DIRECTIONS)
             == GoalSite(d, SiteAt(d, owner, load.position), img, d.t.Position(q))
    ensures Destination(d.t, owner, hops, DIRECTIONS) == q
    ensures PathLoad(s, memory, load, owner, hops, DIRECTIONS).position == d.global.Shift(load.position, DividedImage(d, img))
  {
    var (r, end) := (Destination(d.t, owner, hops, DIRECTIONS), PathLoad(s, memory, load, owner, hops, DIRECTIONS).position);
    PathIsSite(s, d, memory, load, owner, hops, DIRECTIONS);
    EndOfPath(d, owner, load.position, r, end, q, img);
  }

  lemma EndOfPath(d: PM.Domains, owner: nat, start: Vec, r: nat, end: Vec, q: nat, img: Image)
    requires d.Valid() && owner < d.t.Ranks() && r < d.t.Ranks() && q < d.t.Ranks()
    requires SiteAt(d, r, end) == GoalSite(d, SiteAt(d, owner, start), img, d.t.Position(q))
    ensures r == q && end == d.global.Shift(start, DividedImage(d, img))
  {
    assert d.t.Position(r) == d.t.Position(q);
    RankAtPosition(d.t, r);
    RankAtPosition(d.t, q);
    FractionOfShift(d.global, start, DividedImage(d, img));
    SameFractions(d.global, end, d.global.Shift(start, DividedImage(d, img)));
  }

  /** Without opposites all copies on a rank came along the same itinerary. */
  lemma OnlyPath(s: Setting, memory: Payload, load: Payload, owner: nat, plan: Plan, hops: Plan, q: nat)
    requires s.Valid() && owner < s.torus.Ranks() && q < s.torus.Ranks() && NoOpposites(Active(s.torus, plan))
    requires hops <= Active(s.torus, plan) && Destination(s.torus, owner, hops, DIRECTIONS) == q
    ensures forall copy :: CameAlong(s, memory, load, owner, plan, DIRECTIONS, q, copy) ==>
      copy == PathLoad(s, memory, load, owner, hops, DIRECTIONS)
  {
    forall copy | CameAlong(s, memory, load, owner, plan, DIRECTIONS, q, copy)
      ensures copy == PathLoad(s, memory, load, owner, hops, DIRECTIONS)
    {
      var other :| other in Itineraries(s.torus, plan, owner, q, DIRECTIONS) && copy == PathLoad(s, memory, load, owner, other, DIRECTIONS);
      DestinationsDiffer(s.torus, owner, plan, hops, other);
    }
  }

  // ----- the ghost width --------------------------------------------------------------------

  /** The plane distances of a domain, by those of the global box. */
  function LocalDist(d: PM.Domains, dist: Vec, c: Cell): Vec
    requires d.Valid() && d.t.grid.Contains(c)
  {
    Vec(dist.x * Width(d.cx, c.x), dist.y * Width(d.cy, c.y), dist.z * Width(d.cz, c.z))
  }

  /** The ghost width of a particle. */
  function GhostWidth(widths: seq<real>, bodyWidths: seq<real>, p: GP.Particle): real
    requires p.kind < |widths| && p.kind < |bodyWidths|
  {
    widths[p.kind] + if p.body < GP.MIN_FLOPPY then bodyWidths[p.kind] else 0.0
  }

  function Layer(width: real, dist: Vec): Vec
    requires Positive(dist)
  {
    Vec(width / dist.x, width / dist.y, width / dist.z)
  }

  predicate Positive(v: Vec) {
    v.x > 0.0 && v.y > 0.0 && v.z > 0.0
  }

  lemma LocalDistPositive(d: PM.Domains, dist: Vec, c: Cell)
    requires d.Valid() && d.t.grid.Contains(c) && Positive(dist)
    ensures Positive(LocalDist(d, dist, c))
  {
    CG.StrictProduct(dist.x, Width(d.cx, c.x));
    CG.StrictProduct(dist.y, Width(d.cy, c.y));
    CG.StrictProduct(dist.z, Width(d.cz, c.z));
  }

  /** A fraction of the local box by the global one, along one axis. */
  lemma LocalQuotient(u: real, l: real, lo: real, hi: real)
    requires l > 0.0 && lo < hi
    ensures hi * l - lo * l > 0.0 && (u - lo * l) / (hi * l - lo * l) * (hi - lo) == u / l - lo
  {
    var q := u / l;
    assert u == q * l;
    CG.StrictProduct(hi - lo, l);
    var r := (q - lo) / (hi - lo);
    assert r * (hi - lo) == q - lo;
    Scaled(q, lo, r, hi - lo, l);
    QuotientIs(u - lo * l, r, hi * l - lo * l);
  }

  lemma Scaled(q: real, lo: real, r: real, w: real, l: real)
    requires r * w == q - lo
    ensures r * (w * l) == q * l - lo * l
  {
    assert r * (w * l) == (r * w) * l;
  }

  /** A factor has the sign of its product with a width. */
  lemma ByWidth(x: real, width: real, y: real)
    requires width > 0.0 && x * width == y
    ensures x >= 0.0 <==> y >= 0.0
  {
    CG.ProductOfPositive(-x, width);
    if x >= 0.0 {
      CG.ProductSign(x, width);
    }
  }

  /** The layer in fractions of the domain and of the global box. */
  lemma LayerQuotients(w: real, b: real, dist: real, width: real)
    requires dist > 0.0 && width > 0.0
    ensures dist * width > 0.0 && (w / (dist * width) + b / (dist * width)) * width == (w + b) / dist
  {
    CG.StrictProduct(dist, width);
    var (p, q) := (w / (dist * width), b / (dist * width));
    assert p * (dist * width) == w && q * (dist * width) == b;
    assert ((p + q) * width) * dist == w + b;
    QuotientIs(w + b, (p + q) * width, dist);
  }

  lemma AxisIsMarked(c: seq<real>, n: nat, a: PM.Axis, layer: real, local: real, g: real)
    requires PM.Fractions(c, n) && a.i < n && local * Width(c, a.i) == a.f - c[a.i] && g * Width(c, a.i) == layer
    ensures AxisMarksExactly(c, n, a, layer, local >= 1.0 - g, local < g)
  {
    ByWidth(local - (1.0 - g), Width(c, a.i), a.f - (c[a.i + 1] - layer));
    ByWidth(local - g, Width(c, a.i), a.f - (c[a.i] + layer));
  }

  lemma LocalBoxNonDegenerate(d: PM.Domains, rank: nat)
    requires d.Valid() && rank < d.t.Ranks()
    ensures PM.LocalBox(d, rank).NonDegenerate()
  {
    var c := d.t.Position(rank);
    PM.CutBoxNonDegenerate(d.global, PM.LowerFractions(d, c), PM.UpperFractions(d, c));
  }

  /** The plan the communicator makes from the position in the local box. */
  function PlanOfPosition(d: PM.Domains, rank: nat, dist: Vec, widths: seq<real>, bodyWidths: seq<real>, p: GP.Particle): Plan
    requires d.Valid() && rank < d.t.Ranks() && Positive(dist) && p.kind < |widths| && p.kind < |bodyWidths|
  {
    LocalBoxNonDegenerate(d, rank);
    LocalDistPositive(d, dist, d.t.Position(rank));
    GP.PositionPlan(PM.LocalBox(d, rank).MakeFraction(p.position), GP.GhostFraction(widths, bodyWidths, LocalDist(d, dist, d.t.Position(rank)), p))
  }

  /** That plan holds exactly the directions whose faces are within the ghost width. */
  lemma PositionPlanMarks(d: PM.Domains, rank: nat, dist: Vec, widths: seq<real>, bodyWidths: seq<real>, p: GP.Particle)
    requires d.Valid() && rank < d.t.Ranks() && Positive(dist) && p.kind < |widths| && p.kind < |bodyWidths|
    ensures var (s, layer) := (SiteAt(d, rank, p.position), Layer(GhostWidth(widths, bodyWidths, p), dist));
      var plan := PlanOfPosition(d, rank, dist, widths, bodyWidths, p);
      MarksExactly(d, s, layer, plan) && Marks(d, s, layer, plan)
  {
    var (w, b) := (widths[p.kind], if p.body < GP.MIN_FLOPPY then bodyWidths[p.kind] else 0.0);
    LocalBoxNonDegenerate(d, rank);
    LocalDistPositive(d, dist, d.t.Position(rank));
    PlanMarks(d, rank, p.position, dist, w, b);
  }

  /** A fraction of a domain, by the one of the global box. */
  ghost predicate IsLocal(local: real, lo: real, hi: real, f: real) {
    local * (hi - lo) == f - lo
  }

  /** The extent of a domain, by the one of the global box. */
  ghost predicate IsExtent(c: seq<real>, i: nat, dist: real, l: real)
    requires i + 1 < |c|
  {
    l == dist * Width(c, i)
  }

  lemma LocalExtents(d: PM.Domains, dist: Vec, c: Cell)
    requires d.Valid() && d.t.grid.Contains(c)
    ensures var l := LocalDist(d, dist, c);
      IsExtent(d.cx, c.x, dist.x, l.x) && IsExtent(d.cy, c.y, dist.y, l.y) && IsExtent(d.cz, c.z, dist.z, l.z)
  {
  }

  lemma PlanMarks(d: PM.Domains, rank: nat, v: Vec, dist: Vec, w: real, b: real)
    requires d.Valid() && rank < d.t.Ranks() && Positive(dist) && PM.LocalBox(d, rank).NonDegenerate()
    requires Positive(LocalDist(d, dist, d.t.Position(rank)))
    ensures var l := LocalDist(d, dist, d.t.Position(rank));
      MarksExactly(d, SiteAt(d, rank, v), Layer(w + b, dist),
            GP.PositionPlan(PM.LocalBox(d, rank).MakeFraction(v), Vec(w / l.x + b / l.x, w / l.y + b / l.y, w / l.z + b / l.z)))
  {
    MarksX(d, rank, v, dist, w, b);
    MarksY(d, rank, v, dist, w, b);
    MarksZ(d, rank, v, dist, w, b);
  }

  lemma MarksX(d: PM.Domains, rank: nat, v: Vec, dist: Vec, w: real, b: real)
    requires d.Valid() && rank < d.t.Ranks() && Positive(dist) && PM.LocalBox(d, rank).NonDegenerate()
    requires Positive(LocalDist(d, dist, d.t.Position(rank)))
    ensures var (l, f) := (LocalDist(d, dist, d.t.Position(rank)).x, PM.LocalBox(d, rank).MakeFraction(v).x);
      var g := w / l + b / l;
      AxisMarksExactly(d.cx, d.t.grid.w, SiteAt(d, rank, v).x, (w + b) / dist.x, f >= 1.0 - g, f < g)
  {
    LocalCutX(d, rank, v);
    LocalExtents(d, dist, d.t.Position(rank));
    var (l, f) := (LocalDist(d, dist, d.t.Position(rank)).x, PM.LocalBox(d, rank).MakeFraction(v).x);
    AxisMarked(d.cx, d.t.grid.w, SiteAt(d, rank, v).x, w, b, dist.x, f, l);
  }

  lemma LocalCutX(d: PM.Domains, rank: nat, v: Vec)
    requires d.Valid() && rank < d.t.Ranks() && PM.LocalBox(d, rank).NonDegenerate()
    ensures var s := SiteAt(d, rank, v).x; IsLocal(PM.LocalBox(d, rank).MakeFraction(v).x, d.cx[s.i], d.cx[s.i + 1], s.f)
  {
    var c := d.t.Position(rank);
    CutFractionX(d.global, PM.LowerFractions(d, c), PM.UpperFractions(d, c), v);
  }

  lemma MarksY(d: PM.Domains, rank: nat, v: Vec, dist: Vec, w: real, b: real)
    requires d.Valid() && rank < d.t.Ranks() && Positive(dist) && PM.LocalBox(d, rank).NonDegenerate()
    requires Positive(LocalDist(d, dist, d.t.Position(rank)))
    ensures var (l, f) := (LocalDist(d, dist, d.t.Position(rank)).y, PM.LocalBox(d, rank).MakeFraction(v).y);
      var g := w / l + b / l;
      AxisMarksExactly(d.cy, d.t.grid.h, SiteAt(d, rank, v).y, (w + b) / dist.y, f >= 1.0 - g, f < g)
  {
    LocalCutY(d, rank, v);
    LocalExtents(d, dist, d.t.Position(rank));
    var (l, f) := (LocalDist(d, dist, d.t.Position(rank)).y, PM.LocalBox(d, rank).MakeFraction(v).y);
    AxisMarked(d.cy, d.t.grid.h, SiteAt(d, rank, v).y, w, b, dist.y, f, l);
  }

  lemma LocalCutY(d: PM.Domains, rank: nat, v: Vec)
    requires d.Valid() && rank < d.t.Ranks() && PM.LocalBox(d, rank).NonDegenerate()
    ensures var s := SiteAt(d, rank, v).y; IsLocal(PM.LocalBox(d, rank).MakeFraction(v).y, d.cy[s.i], d.cy[s.i + 1], s.f)
  {
    var c := d.t.Position(rank);
    CutFractionY(d.global, PM.LowerFractions(d, c), PM.UpperFractions(d, c), v);
  }

  lemma MarksZ(d: PM.Domains, rank: nat, v: Vec, dist: Vec, w: real, b: real)
    requires d.Valid() && rank < d.t.Ranks() && Positive(dist) && PM.LocalBox(d, rank).NonDegenerate()
    requires Positive(LocalDist(d, dist, d.t.Position(rank)))
    ensures var (l, f) := (LocalDist(d, dist, d.t.Position(rank)).z, PM.LocalBox(d, rank).MakeFraction(v).z);
      var g := w / l + b / l;
      AxisMarksExactly(d.cz, d.t.grid.d, SiteAt(d, rank, v).z, (w + b) / dist.z, f >= 1.0 - g, f < g)
  {
    LocalCutZ(d, rank, v);
    LocalExtents(d, dist, d.t.Position(rank));
    var (l, f) := (LocalDist(d, dist, d.t.Position(rank)).z, PM.LocalBox(d, rank).MakeFraction(v).z);
    AxisMarked(d.cz, d.t.grid.d, SiteAt(d, rank, v).z, w, b, dist.z, f, l);
  }

  lemma LocalCutZ(d: PM.Domains, rank: nat, v: Vec)
    requires d.Valid() && rank < d.t.Ranks() && PM.LocalBox(d, rank).NonDegenerate()
    ensures var s := SiteAt(d, rank, v).z; IsLocal(PM.LocalBox(d, rank).MakeFraction(v).z, d.cz[s.i], d.cz[s.i + 1], s.f)
  {
    var c := d.t.Position(rank);
    CutFractionZ(d.global, PM.LowerFractions(d, c), PM.UpperFractions(d, c), v);
  }

  lemma AxisMarked(c: seq<real>, n: nat, a: PM.Axis, w: real, b: real, dist: real, local: real, l: real)
    requires PM.Fractions(c, n) && a.i < n && dist > 0.0 && IsExtent(c, a.i, dist, l) && l > 0.0 && IsLocal(local, c[a.i], c[a.i + 1], a.f)
    ensures AxisMarksExactly(c, n, a, (w + b) / dist, local >= 1.0 - (w / l + b / l), local < w / l + b / l)
  {
    LayerQuotients(w, b, dist, Width(c, a.i));
    AxisIsMarked(c, n, a, (w + b) / dist, local, w / l + b / l);
  }

  lemma CutQuotient(a: real, m: real, u: real, l: real, lo: real, hi: real)
    requires l > 0.0 && lo < hi && a == u - lo * l && m == hi * l - lo * l
    ensures m > 0.0 && a / m * (hi - lo) == u / l - lo
  {
    LocalQuotient(u, l, lo, hi);
  }

  lemma CutSideX(g: Box, lo: Vec, hi: Vec, v: Vec)
    ensures var (b, u, l) := (PM.CutBox(g, lo, hi), g.Untilted(v).x, g.L().x);
      b.Untilted(v).x == u - lo.x * l && b.L().x == hi.x * l - lo.x * l
  {
  }

  lemma CutSideY(g: Box, lo: Vec, hi: Vec, v: Vec)
    ensures var (b, u, l) := (PM.CutBox(g, lo, hi), g.Untilted(v).y, g.L().y);
      b.Untilted(v).y == u - lo.y * l && b.L().y == hi.y * l - lo.y * l
  {
  }

  lemma CutSideZ(g: Box, lo: Vec, hi: Vec, v: Vec)
    ensures var (b, u, l) := (PM.CutBox(g, lo, hi), g.Untilted(v).z, g.L().z);
      b.Untilted(v).z == u - lo.z * l && b.L().z == hi.z * l - lo.z * l
  {
  }

  lemma CutFractionX(g: Box, lo: Vec, hi: Vec, v: Vec)
    requires g.NonDegenerate() && PM.CutBox(g, lo, hi).NonDegenerate() && lo.x < hi.x
    ensures IsLocal(PM.CutBox(g, lo, hi).MakeFraction(v).x, lo.x, hi.x, g.MakeFraction(v).x)
  {
    var b := PM.CutBox(g, lo, hi);
    var (u, l) := (g.Untilted(v).x, g.L().x);
    CutSideX(g, lo, hi, v);
    CutQuotient(b.Untilted(v).x, b.L().x, u, l, lo.x, hi.x);
  }

  lemma CutFractionY(g: Box, lo: Vec, hi: Vec, v: Vec)
    requires g.NonDegenerate() && PM.CutBox(g, lo, hi).NonDegenerate() && lo.y < hi.y
    ensures IsLocal(PM.CutBox(g, lo, hi).MakeFraction(v).y, lo.y, hi.y, g.MakeFraction(v).y)
  {
    var b := PM.CutBox(g, lo, hi);
    var (u, l) := (g.Untilted(v).y, g.L().y);
    CutSideY(g, lo, hi, v);
    CutQuotient(b.Untilted(v).y, b.L().y, u, l, lo.y, hi.y);
  }

  lemma CutFractionZ(g: Box, lo: Vec, hi: Vec, v: Vec)
    requires g.NonDegenerate() && PM.CutBox(g, lo, hi).NonDegenerate() && lo.z < hi.z
    ensures IsLocal(PM.CutBox(g, lo, hi).MakeFraction(v).z, lo.z, hi.z, g.MakeFraction(v).z)
  {
    var b := PM.CutBox(g, lo, hi);
    var (u, l) := (g.Untilted(v).z, g.L().z);
    CutSideZ(g, lo, hi, v);
    CutQuotient(b.Untilted(v).z, b.L().z, u, l, lo.z, hi.z);
  }

  /** All ranks have passed the box size check. */
  ghost predicate AllChecked(d: PM.Domains, dist: Vec, checked: real)
    requires d.Valid()
  {
    forall c: Cell :: d.t.grid.Contains(c) ==> GP.BoxLargeEnough(d.t, checked, LocalDist(d, dist, c))
  }

  lemma AxisChecked(width: real, checked: real, dist: real, domain: real)
    requires dist > 0.0 && width <= checked && checked < dist * domain / 2.0
    ensures 2.0 * (width / dist) < domain
  {
    var q := width / dist;
    assert q * dist == width;
    assert (domain - 2.0 * q) * dist > 0.0;
    CG.PositiveFactor(domain - 2.0 * q, dist);
  }

  lemma ChecksCover(d: PM.Domains, dist: Vec, width: real, checked: real)
    requires d.Valid() && Positive(dist) && width <= checked && AllChecked(d, dist, checked)
    ensures var layer := Layer(width, dist);
      && Checked(d.cx, d.t.grid.w, layer.x) && Checked(d.cy, d.t.grid.h, layer.y) && Checked(d.cz, d.t.grid.d, layer.z)
  {
    forall k | 0 <= k < d.t.grid.w && d.t.grid.w > 1 ensures 2.0 * (width / dist.x) < Width(d.cx, k) {
      assert d.t.grid.Contains(Cell(k, 0, 0));
      AxisChecked(width, checked, dist.x, Width(d.cx, k));
    }
    forall k | 0 <= k < d.t.grid.h && d.t.grid.h > 1 ensures 2.0 * (width / dist.y) < Width(d.cy, k) {
      assert d.t.grid.Contains(Cell(0, k, 0));
      AxisChecked(width, checked, dist.y, Width(d.cy, k));
    }
    forall k | 0 <= k < d.t.grid.d && d.t.grid.d > 1 ensures 2.0 * (width / dist.z) < Width(d.cz, k) {
      assert d.t.grid.Contains(Cell(0, 0, k));
      AxisChecked(width, checked, dist.z, Width(d.cz, k));
    }
  }

  /** Inside the domain of a rank along all divided axes. */
  ghost predicate InDomain(d: PM.Domains, rank: nat, v: Vec)
    requires d.Valid() && rank < d.t.Ranks()
  {
    var s := SiteAt(d, rank, v);
    && (d.t.grid.w > 1 ==> PM.Inside(d.cx, d.t.grid.w, s.x)) && (d.t.grid.h > 1 ==> PM.Inside(d.cy, d.t.grid.h, s.y))
    && (d.t.grid.d > 1 ==> PM.Inside(d.cz, d.t.grid.d, s.z))
  }

  lemma PlaneWithin(dist: real, v: real, f: real, m: int, width: real)
    requires dist > 0.0 && CG.PlaneClose(dist, v, f, m, width)
    ensures Within(f, m, v, width / dist)
  {
    var (q, x) := (width / dist, v - f - m as real);
    assert q * dist == width;
    assert (q - x) * dist > 0.0 && (q + x) * dist > 0.0;
    CG.PositiveFactor(q - x, dist);
    CG.PositiveFactor(q + x, dist);
  }

  /** Who is closer than the width in space is so along every axis. */
  lemma CloserIsSeen(d: PM.Domains, dist: Vec, owner: nat, p: Vec, q: nat, v: Vec, img: Image, width: real)
    requires d.Valid() && owner < d.t.Ranks() && q < d.t.Ranks() && Positive(dist) && CG.ArePlaneDistances(d.global, dist)
    requires InDomain(d, owner, p) && InDomain(d, q, v) && width >= 0.0 && CG.Closer(v, d.global.Shift(p, img), width)
    ensures Sees(d, SiteAt(d, owner, p), img, d.t.Position(q), d.global.MakeFraction(v), Layer(width, dist))
  {
    var s := CG.CellSetup(d.global, dist, 0.0, 1.0, 1, false);
    CG.PlaneX(s, v, p, img, width);
    CG.PlaneY(s, v, p, img, width);
    CG.PlaneZ(s, v, p, img, width);
    var (a, b) := (d.global.MakeFraction(p), d.global.MakeFraction(v));
    PlaneWithin(dist.x, b.x, a.x, img.x, width);
    PlaneWithin(dist.y, b.y, a.y, img.y, width);
    PlaneWithin(dist.z, b.z, a.z, img.z, width);
  }

  /**
  What ghosts are for: if some image of a particle is closer than its ghost width to a point of a
  domain, for every triclinic box whose tilt does not couple x to z, then after the exchange the rank
  of that domain has the particle exactly once, at that image along all divided axes.
   */
  lemma GhostsAreSeen(s: Setting, d: PM.Domains, memory: Payload, world: World, tag: Tag, owner: nat, load: Payload, q: nat, v: Vec,
                      img: Image, dist: Vec, widths: seq<real>, bodyWidths: seq<real>, checked: real, p: GP.Particle)
    requires WrapsWith(s, d) && PM.Wide(d) && PM.Uncoupled(d) && Positive(dist) && CG.ArePlaneDistances(d.global, dist)
    requires p.kind < |widths| && p.kind < |bodyWidths| && widths[p.kind] >= 0.0 && bodyWidths[p.kind] >= 0.0
    requires widths[p.kind] + bodyWidths[p.kind] <= checked && AllChecked(d, dist, checked)
    requires var layer := Layer(GhostWidth(widths, bodyWidths, p), dist);
      Roomy(d.cx, d.t.grid.w, layer.x) && Roomy(d.cy, d.t.grid.h, layer.y) && Roomy(d.cz, d.t.grid.d, layer.z)
    requires |world| == d.t.Ranks() && owner < |world| && q < |world| && p.position == load.position
    requires OwnedOnce(world, tag, owner, PlanOfPosition(d, owner, dist, widths, bodyWidths, p))
    requires forall m :: m in world[owner] && m.tag == tag ==> m.load == load
    requires InDomain(d, owner, p.position) && InDomain(d, q, v)
    requires CG.Closer(v, d.global.Shift(p.position, img), GhostWidth(widths, bodyWidths, p))
    ensures Copies(Exchange(s, memory, world, DIRECTIONS)[q], tag) == 1
    ensures forall m :: m in Exchange(s, memory, world, DIRECTIONS)[q] && m.tag == tag ==>
      m.load.position == d.global.Shift(p.position, DividedImage(d, img))
  {
    var (plan, width) := (PlanOfPosition(d, owner, dist, widths, bodyWidths, p), GhostWidth(widths, bodyWidths, p));
    ChecksCover(d, dist, width, checked);
    PositionPlanMarks(d, owner, dist, widths, bodyWidths, p);
    CloserIsSeen(d, dist, owner, p.position, q, v, img, width);
    PlanHasNoOpposites(d, owner, dist, widths, bodyWidths, checked, p);
    NothingOff(d);
    CopyAtImage(s, d, memory, world, tag, owner, plan, load, q, v, img, Layer(width, dist));
  }

  lemma NothingOff(d: PM.Domains)
    requires d.Valid() && PM.Uncoupled(d)
    ensures NoErrors(d)
  {
    forall k | 0 <= k < d.t.grid.d ensures d.XError(k) == 0.0 {
      PM.ExactWindows(d, k);
    }
  }

  lemma PlanHasNoOpposites(d: PM.Domains, owner: nat, dist: Vec, widths: seq<real>, bodyWidths: seq<real>, checked: real, p: GP.Particle)
    requires d.Valid() && owner < d.t.Ranks() && Positive(dist) && p.kind < |widths| && p.kind < |bodyWidths|
    requires bodyWidths[p.kind] >= 0.0 && widths[p.kind] + bodyWidths[p.kind] <= checked && AllChecked(d, dist, checked)
    ensures NoOpposites(Active(d.t, PlanOfPosition(d, owner, dist, widths, bodyWidths, p)))
  {
    LocalBoxNonDegenerate(d, owner);
    LocalDistPositive(d, dist, d.t.Position(owner));
    GP.CheckedPlansHaveNoOpposites(d.t, widths, bodyWidths, checked, LocalDist(d, dist, d.t.Position(owner)), p,
                                   PM.LocalBox(d, owner).MakeFraction(p.position));
  }
}
