/**
Particle migration. In each of the six directions every rank hands the particles that have left
its domain on that side to its neighbour, which wraps them with a shifted global box and adds
them to its own.
 */
module ParticleMigration {
  import opened Grid
  import opened BoxDim
  import opened RankVectors
  import opened Sequences

  type Tag = nat

  datatype Particle = Particle(tag: Tag, position: Vec, image: Image)

  /** The tolerance added to the shift of the wrapping box. */
  const TOLERANCE := 0.0001

  // ----- one axis ---------------------------------------------------------------------------

  /** Cumulative fractions of the domains along an axis. */
  ghost predicate Fractions(c: seq<real>, n: nat) {
    && n >= 1 && |c| == n + 1 && c[0] == 0.0 && c[n] == 1.0
    && forall i :: 0 <= i < n ==> c[i] < c[i + 1]
  }

  /** How far the wrapping box of domain `i` is shifted: half the domain across the boundary. */
  function AxisShift(c: seq<real>, n: nat, i: nat): real
    requires Fractions(c, n) && i < n
  {
    if n == 1 then 0.0
    else
      (if i == n - 1 then (c[1] - c[0]) / 2.0 + TOLERANCE else 0.0)
      - (if i == 0 then (c[n] - c[n - 1]) / 2.0 + TOLERANCE else 0.0)
  }

  function Next(i: nat, n: nat): (j: nat)
    requires i < n
    ensures j < n
  {
    if i + 1 == n then 0 else i + 1
  }

  function Previous(i: nat, n: nat): (j: nat)
    requires i < n
    ensures j < n
  {
    if i == 0 then n - 1 else i - 1
  }

  /** A domain index and a global fraction along one axis. */
  datatype Axis = Axis(i: nat, f: real)

  /**
  The two steps along an axis: first those beyond the upper face, then those below the lower. The
  wrapping windows are off by `e`.
   */
  function AxisPair(c: seq<real>, n: nat, a: Axis, e: real): (r: Axis)
    requires Fractions(c, n) && a.i < n
    ensures r.i < n
  {
    Down(c, n, Up(c, n, a, e), e)
  }

  function Up(c: seq<real>, n: nat, a: Axis, e: real): (r: Axis)
    requires Fractions(c, n) && a.i < n
    ensures r.i < n
  {
    if n > 1 && a.f >= c[a.i + 1] then Axis(Next(a.i, n), WrapUnit(a.f, AxisShift(c, n, Next(a.i, n)) + e)) else a
  }

  function Down(c: seq<real>, n: nat, a: Axis, e: real): (r: Axis)
    requires Fractions(c, n) && a.i < n
    ensures r.i < n
  {
    if n > 1 && a.f < c[a.i] then Axis(Previous(a.i, n), WrapUnit(a.f, AxisShift(c, n, Previous(a.i, n)) + e)) else a
  }

  predicate Inside(c: seq<real>, n: nat, a: Axis)
    requires |c| == n + 1 && a.i < n
  {
    c[a.i] <= a.f < c[a.i + 1]
  }

  /** At most one domain away, across the global boundary if need be. */
  predicate OneAway(c: seq<real>, n: nat, a: Axis)
    requires Fractions(c, n) && a.i < n
  {
    && (if a.i == 0 then c[n - 1] - 1.0 else c[a.i - 1]) <= a.f
    && a.f < (if a.i + 1 == n then 1.0 + c[1] else c[a.i + 2])
  }

  /** The domain a particle at most one domain away belongs to. */
  function Home(c: seq<real>, n: nat, a: Axis): (j: nat)
    requires Fractions(c, n) && a.i < n
    ensures j < n
  {
    if a.f >= c[a.i + 1] then Next(a.i, n) else if a.f < c[a.i] then Previous(a.i, n) else a.i
  }

  lemma {:induction false} FractionsIncrease(c: seq<real>, n: nat, i: nat, j: nat)
    requires Fractions(c, n) && i < j <= n
    ensures c[i] < c[j]
    decreases j - i
  {
    if i + 1 < j {
      FractionsIncrease(c, n, i, j - 1);
    }
  }

  lemma FractionsBounds(c: seq<real>, n: nat, i: nat)
    requires Fractions(c, n) && i <= n
    ensures 0.0 <= c[i] <= 1.0
    ensures 0 < i ==> c[1] <= c[i]
    ensures i < n ==> c[i] <= c[n - 1]
  {
    if 1 < i {
      FractionsIncrease(c, n, 1, i);
    }
    if 0 < i {
      FractionsIncrease(c, n, 0, i);
    }
    if i < n - 1 {
      FractionsIncrease(c, n, i, n - 1);
    }
    if i < n {
      FractionsIncrease(c, n, i, n);
    }
  }

  /** On the way up without crossing the global boundary, the wrapping window ends beyond the particle. */
  predicate Hits(c: seq<real>, n: nat, a: Axis, e: real)
    requires Fractions(c, n) && a.i < n
  {
    a.i + 1 < n && a.f >= c[a.i + 1] ==> a.f < 1.0 + AxisShift(c, n, a.i + 1) + e
  }

  /** The steps along an axis lead to the home domain exactly if the window hits, whatever its error. */
  lemma PairIndex(c: seq<real>, n: nat, a: Axis, e: real)
    requires Fractions(c, n) && a.i < n && Near(c, n, a)
    ensures AxisPair(c, n, a, e).i == Home(c, n, a) <==> Hits(c, n, a, e)
  {
    if n > 1 && a.f >= c[a.i + 1] {
      var j := Next(a.i, n);
      FractionsBounds(c, n, j);
      FractionsBounds(c, n, j + 1);
      FractionsBounds(c, n, 1);
    } else if n > 1 {
      FractionsIncrease(c, n, a.i, a.i + 1);
    }
  }

  /** Without an error the window always hits. */
  lemma StraightHits(c: seq<real>, n: nat, a: Axis)
    requires Fractions(c, n) && a.i < n && Near(c, n, a)
    ensures Hits(c, n, a, 0.0)
  {
    if a.i + 1 < n {
      FractionsBounds(c, n, a.i + 2);
      FractionsBounds(c, n, 1);
    }
  }

  /** Is the particle inside the wrapping window of the domain it is on? */
  predicate InWindow(c: seq<real>, n: nat, a: Axis)
    requires Fractions(c, n) && a.i < n
  {
    AxisShift(c, n, a.i) <= a.f < 1.0 + AxisShift(c, n, a.i)
  }

  /** A side wrap: what a step along another axis does to this axis. */
  function SideWrap(c: seq<real>, n: nat, a: Axis, e: real): (r: Axis)
    requires Fractions(c, n) && a.i < n
    ensures r.i == a.i
  {
    if n > 1 then a.(f := WrapUnit(a.f, AxisShift(c, n, a.i) + e)) else a
  }

  /** An axis along which a particle is at most one domain away, or which is not divided. */
  ghost predicate Near(c: seq<real>, n: nat, a: Axis)
    requires Fractions(c, n) && a.i < n
  {
    n > 1 ==> OneAway(c, n, a)
  }

  /** A side wrap does no harm to a particle in its window, nor with two domains to one that leaves. */
  predicate Harmless(c: seq<real>, n: nat, a: Axis)
    requires Fractions(c, n) && a.i < n
  {
    n == 1 || InWindow(c, n, a) || (n == 2 && !Inside(c, n, a))
  }

  /** Only particles on an outermost domain can be outside their window. */
  lemma InteriorInWindow(c: seq<real>, n: nat, a: Axis)
    requires Fractions(c, n) && 0 < a.i < n - 1 && OneAway(c, n, a)
    ensures InWindow(c, n, a)
  {
    FractionsBounds(c, n, a.i - 1);
    FractionsBounds(c, n, a.i + 2);
  }

  lemma EarlyWrapFirst(c: seq<real>, n: nat, a: Axis)
    requires Fractions(c, n) && n > 1 && a.i == 0 && OneAway(c, n, a) && !InWindow(c, n, a)
    ensures InWindow(c, n, SideWrap(c, n, a, 0.0))
    ensures AxisPair(c, n, SideWrap(c, n, a, 0.0), 0.0).i == Home(c, n, a) <==> n == 2 && !Inside(c, n, a)
  {
    FractionsBounds(c, n, 1);
    FractionsBounds(c, n, n - 1);
    FractionsBounds(c, n, 2);
    var r := SideWrap(c, n, a, 0.0);
    if a.f < AxisShift(c, n, 0) {
      assert r.f == a.f + 1.0 && r.f >= c[n - 1] >= c[1];
      assert Up(c, n, r, 0.0).i == 1 && AxisPair(c, n, r, 0.0).i == 1;
    } else {
      assert r.f == a.f - 1.0 && r.f < 0.0;
      assert AxisPair(c, n, r, 0.0).i == n - 1;
    }
  }

  lemma EarlyWrapLast(c: seq<real>, n: nat, a: Axis)
    requires Fractions(c, n) && n > 1 && a.i == n - 1 && OneAway(c, n, a) && !InWindow(c, n, a)
    ensures InWindow(c, n, SideWrap(c, n, a, 0.0))
    ensures AxisPair(c, n, SideWrap(c, n, a, 0.0), 0.0).i == Home(c, n, a) <==> n == 2 && !Inside(c, n, a)
  {
    FractionsBounds(c, n, 1);
    FractionsBounds(c, n, n - 1);
    FractionsBounds(c, n, n - 2);
    var r := SideWrap(c, n, a, 0.0);
    if a.f >= 1.0 + AxisShift(c, n, n - 1) {
      assert r.f == a.f - 1.0 && r.f < c[1] <= c[n - 1];
      assert Up(c, n, r, 0.0) == r && AxisPair(c, n, r, 0.0).i == n - 2;
    } else {
      assert r.f == a.f + 1.0 && r.f >= 1.0;
      assert Up(c, n, r, 0.0).i == 0 && Up(c, n, r, 0.0).f >= 0.0;
      assert AxisPair(c, n, r, 0.0).i == 0;
    }
  }

  /** Early wraps, exactly: afterwards the steps along the axis lead home if and only if it did no harm. */
  lemma SideWrapIndex(c: seq<real>, n: nat, a: Axis)
    requires Fractions(c, n) && a.i < n && Near(c, n, a)
    ensures AxisPair(c, n, SideWrap(c, n, a, 0.0), 0.0).i == Home(c, n, a) <==> Harmless(c, n, a)
    ensures SideWrap(c, n, SideWrap(c, n, a, 0.0), 0.0) == SideWrap(c, n, a, 0.0)
  {
    if n == 1 || InWindow(c, n, a) {
      PairIndex(c, n, a, 0.0);
      StraightHits(c, n, a);
    } else if a.i == 0 {
      EarlyWrapFirst(c, n, a);
    } else if a.i == n - 1 {
      EarlyWrapLast(c, n, a);
    } else {
      InteriorInWindow(c, n, a);
    }
  }

  /** A side wrap with an exact window. */
  function Aside(c: seq<real>, n: nat, a: Axis): (r: Axis)
    requires Fractions(c, n) && a.i < n
    ensures r.i == a.i
  {
    SideWrap(c, n, a, 0.0)
  }

  // ----- three axes -------------------------------------------------------------------------

  /** Where a particle is stored and where it is, along the three axes. */
  datatype Site = Site(x: Axis, y: Axis, z: Axis)

  /** The decomposition together with the global box and the domain boundaries. */
  datatype Domains = Domains(t: Decomposition, global: Box, cx: seq<real>, cy: seq<real>, cz: seq<real>) {

    ghost predicate Valid() {
      && t.Valid() && global.NonDegenerate() && global.Centred()
      && Fractions(cx, t.grid.w) && Fractions(cy, t.grid.h) && Fractions(cz, t.grid.d)
    }

    /** How far the x windows of the domains at height `k` are off. */
    function XError(k: nat): real
      requires Valid() && k < t.grid.d
    {
      XWindowError(global, Vec(0.0, 0.0, AxisShift(cz, t.grid.d, k)), Divided())
    }

    /** Divided axes are wrapped by the communicator. */
    function Divided(): Periodic {
      Periodic(t.grid.w != 1, t.grid.h != 1, t.grid.d != 1)
    }

    predicate Contains(s: Site) {
      s.x.i < t.grid.w && s.y.i < t.grid.h && s.z.i < t.grid.d
    }

    /** One direction, seen on fractional coordinates. */
    function SiteStep(s: Site, dir: Direction): (r: Site)
      requires Valid() && Contains(s)
      ensures Contains(r)
    {
      var (w, h, d, e) := (t.grid.w, t.grid.h, t.grid.d, XError(s.z.i));
      match dir
      case 0 => if w > 1 && s.x.f >= cx[s.x.i + 1] then Site(Up(cx, w, s.x, e), Aside(cy, h, s.y), Aside(cz, d, s.z)) else s
      case 1 => if w > 1 && s.x.f < cx[s.x.i] then Site(Down(cx, w, s.x, e), Aside(cy, h, s.y), Aside(cz, d, s.z)) else s
      case 2 => if h > 1 && s.y.f >= cy[s.y.i + 1] then Site(SideWrap(cx, w, s.x, e), Up(cy, h, s.y, 0.0), Aside(cz, d, s.z)) else s
      case 3 => if h > 1 && s.y.f < cy[s.y.i] then Site(SideWrap(cx, w, s.x, e), Down(cy, h, s.y, 0.0), Aside(cz, d, s.z)) else s
      case 4 => if d > 1 && s.z.f >= cz[s.z.i + 1] then Arrived(s, Up(cz, d, s.z, 0.0)) else s
      case _ => if d > 1 && s.z.f < cz[s.z.i] then Arrived(s, Down(cz, d, s.z, 0.0)) else s
    }

    /** After a step along z, which changes the error of the x window. */
    function Arrived(s: Site, z: Axis): (r: Site)
      requires Valid() && Contains(s) && z.i < t.grid.d
      ensures Contains(r)
    {
      Site(SideWrap(cx, t.grid.w, s.x, XError(z.i)), Aside(cy, t.grid.h, s.y), z)
    }

    function SiteRun(s: Site, k: nat): (r: Site)
      requires Valid() && Contains(s) && k <= DIRECTIONS
      ensures Contains(r)
    {
      if k == 0 then s else SiteStep(SiteRun(s, k - 1), k - 1)
    }
  }

  /** Does a particle leave its domain along an axis? */
  predicate Moves(c: seq<real>, n: nat, a: Axis)
    requires Fractions(c, n) && a.i < n
  {
    n > 1 && !Inside(c, n, a)
  }

  lemma XPair(d: Domains, s: Site)
    requires d.Valid() && d.Contains(s)
    requires Aside(d.cy, d.t.grid.h, Aside(d.cy, d.t.grid.h, s.y)) == Aside(d.cy, d.t.grid.h, s.y)
    requires Aside(d.cz, d.t.grid.d, Aside(d.cz, d.t.grid.d, s.z)) == Aside(d.cz, d.t.grid.d, s.z)
    ensures d.SiteStep(d.SiteStep(s, 0), 1)
            == Site(AxisPair(d.cx, d.t.grid.w, s.x, d.XError(s.z.i)),
                    if Moves(d.cx, d.t.grid.w, s.x) then Aside(d.cy, d.t.grid.h, s.y) else s.y,
                    if Moves(d.cx, d.t.grid.w, s.x) then Aside(d.cz, d.t.grid.d, s.z) else s.z)
  {
  }

  lemma YPair(d: Domains, s: Site)
    requires d.Valid() && d.Contains(s)
    requires Aside(d.cz, d.t.grid.d, Aside(d.cz, d.t.grid.d, s.z)) == Aside(d.cz, d.t.grid.d, s.z)
    ensures var r := d.SiteStep(d.SiteStep(s, 2), 3);
            && r.x.i == s.x.i && r.y == AxisPair(d.cy, d.t.grid.h, s.y, 0.0)
            && r.z == if Moves(d.cy, d.t.grid.h, s.y) then Aside(d.cz, d.t.grid.d, s.z) else s.z
  {
  }

  lemma ZPair(d: Domains, s: Site)
    requires d.Valid() && d.Contains(s)
    ensures var r := d.SiteStep(d.SiteStep(s, 4), 5);
            r.x.i == s.x.i && r.y.i == s.y.i && r.z == AxisPair(d.cz, d.t.grid.d, s.z, 0.0)
  {
  }

  ghost predicate NearSite(d: Domains, s: Site)
    requires d.Valid() && d.Contains(s)
  {
    Near(d.cx, d.t.grid.w, s.x) && Near(d.cy, d.t.grid.h, s.y) && Near(d.cz, d.t.grid.d, s.z)
  }

  /** The domain the particle belongs to. */
  function HomeCell(d: Domains, s: Site): Cell
    requires d.Valid() && d.Contains(s)
  {
    Cell(Home(d.cx, d.t.grid.w, s.x), Home(d.cy, d.t.grid.h, s.y), Home(d.cz, d.t.grid.d, s.z))
  }

  function CellOf(s: Site): Cell {
    Cell(s.x.i, s.y.i, s.z.i)
  }

  /**
  The x window hits in spite of its error, and no step along an earlier axis wraps the particle early
  along a later one.
   */
  predicate Unspoiled(d: Domains, s: Site)
    requires d.Valid() && d.Contains(s)
  {
    var movesX, movesY := Moves(d.cx, d.t.grid.w, s.x), Moves(d.cy, d.t.grid.h, s.y);
    && Hits(d.cx, d.t.grid.w, s.x, d.XError(s.z.i))
    && (movesX ==> Harmless(d.cy, d.t.grid.h, s.y))
    && (movesX || movesY ==> Harmless(d.cz, d.t.grid.d, s.z))
  }

  lemma AfterX(d: Domains, s: Site)
    requires d.Valid() && d.Contains(s) && NearSite(d, s)
    ensures var (w, h, dd) := (d.t.grid.w, d.t.grid.h, d.t.grid.d);
            d.SiteRun(s, 2) == Site(AxisPair(d.cx, w, s.x, d.XError(s.z.i)),
                                    if Moves(d.cx, w, s.x) then Aside(d.cy, h, s.y) else s.y,
                                    if Moves(d.cx, w, s.x) then Aside(d.cz, dd, s.z) else s.z)
  {
    SideWrapIndex(d.cy, d.t.grid.h, s.y);
    SideWrapIndex(d.cz, d.t.grid.d, s.z);
    XPair(d, s);
    assert d.SiteRun(s, 1) == d.SiteStep(s, 0);
    assert d.SiteRun(s, 2) == d.SiteStep(d.SiteRun(s, 1), 1);
  }

  lemma AfterY(d: Domains, s: Site)
    requires d.Valid() && d.Contains(s) && NearSite(d, s)
    ensures var (w, h, dd) := (d.t.grid.w, d.t.grid.h, d.t.grid.d);
            var (movesX, movesY) := (Moves(d.cx, w, s.x), Moves(d.cy, h, s.y));
            var r := d.SiteRun(s, 4);
            && r.x.i == AxisPair(d.cx, w, s.x, d.XError(s.z.i)).i
            && r.y == AxisPair(d.cy, h, if movesX then Aside(d.cy, h, s.y) else s.y, 0.0)
            && r.z == (if movesX || movesY then Aside(d.cz, dd, s.z) else s.z)
  {
    AfterX(d, s);
    var r := d.SiteRun(s, 2);
    SideWrapIndex(d.cz, d.t.grid.d, s.z);
    YPair(d, r);
    assert d.SiteRun(s, 3) == d.SiteStep(r, 2);
    assert d.SiteRun(s, 4) == d.SiteStep(d.SiteRun(s, 3), 3);
  }

  lemma AfterZ(d: Domains, s: Site)
    requires d.Valid() && d.Contains(s) && NearSite(d, s)
    ensures var (r, q) := (d.SiteRun(s, 4), d.SiteRun(s, DIRECTIONS));
            q.x.i == r.x.i && q.y.i == r.y.i && q.z == AxisPair(d.cz, d.t.grid.d, r.z, 0.0)
  {
    var r := d.SiteRun(s, 4);
    ZPair(d, r);
    assert d.SiteRun(s, 5) == d.SiteStep(r, 4);
    assert d.SiteRun(s, 6) == d.SiteStep(d.SiteRun(s, 5), 5);
  }

  /**
  Where migration takes a particle that is at most one domain away along every axis: after the six
  directions it is on the domain it belongs to if and only if it is unspoiled, for all domain
  boundaries and all tilts.
   */
  lemma MigrationReachesHome(d: Domains, s: Site)
    requires d.Valid() && d.Contains(s) && NearSite(d, s)
    ensures CellOf(d.SiteRun(s, DIRECTIONS)) == HomeCell(d, s) <==> Unspoiled(d, s)
  {
    AfterY(d, s);
    AfterZ(d, s);
    PairIndex(d.cx, d.t.grid.w, s.x, d.XError(s.z.i));
    IndexAfterSide(d.cy, d.t.grid.h, s.y, Moves(d.cx, d.t.grid.w, s.x));
    IndexAfterSide(d.cz, d.t.grid.d, s.z, Moves(d.cx, d.t.grid.w, s.x) || Moves(d.cy, d.t.grid.h, s.y));
  }

  lemma IndexAfterSide(c: seq<real>, n: nat, a: Axis, wrapped: bool)
    requires Fractions(c, n) && a.i < n && Near(c, n, a)
    ensures AxisPair(c, n, if wrapped then Aside(c, n, a) else a, 0.0).i == Home(c, n, a) <==> !wrapped || Harmless(c, n, a)
  {
    SideWrapIndex(c, n, a);
    PairIndex(c, n, a, 0.0);
    StraightHits(c, n, a);
  }

  // ----- coordinates inside the home domain -------------------------------------------------

  /** The outermost domains are not thinner than twice the tolerance. */
  ghost predicate WideEnds(c: seq<real>, n: nat)
    requires Fractions(c, n)
  {
    c[1] >= 2.0 * TOLERANCE && 1.0 - c[n - 1] >= 2.0 * TOLERANCE
  }

  ghost predicate Wide(d: Domains)
    requires d.Valid()
  {
    WideEnds(d.cx, d.t.grid.w) && WideEnds(d.cy, d.t.grid.h) && WideEnds(d.cz, d.t.grid.d)
  }

  /** A particle inside a domain is not moved by the wrapping box of that domain. */
  lemma InsideIsStable(c: seq<real>, n: nat, a: Axis)
    requires Fractions(c, n) && WideEnds(c, n) && a.i < n && (n > 1 ==> Inside(c, n, a))
    ensures Aside(c, n, a) == a
  {
    FractionsBounds(c, n, a.i);
    FractionsBounds(c, n, a.i + 1);
  }

  /** The steps along an axis bring a particle at most one domain away inside its home domain. */
  lemma PairInside(c: seq<real>, n: nat, a: Axis)
    requires Fractions(c, n) && WideEnds(c, n) && a.i < n && Near(c, n, a)
    ensures n > 1 ==> Inside(c, n, AxisPair(c, n, a, 0.0))
  {
    if n > 1 && a.f >= c[a.i + 1] {
      UpInside(c, n, a);
    } else if n > 1 && a.f < c[a.i] {
      DownInside(c, n, a);
    }
  }

  lemma UpInside(c: seq<real>, n: nat, a: Axis)
    requires Fractions(c, n) && WideEnds(c, n) && n > 1 && a.i < n && OneAway(c, n, a) && a.f >= c[a.i + 1]
    ensures Inside(c, n, Up(c, n, a, 0.0)) && AxisPair(c, n, a, 0.0) == Up(c, n, a, 0.0)
  {
    var j := Next(a.i, n);
    FractionsBounds(c, n, 1);
    FractionsBounds(c, n, n - 1);
    FractionsBounds(c, n, j);
    FractionsBounds(c, n, j + 1);
  }

  lemma DownInside(c: seq<real>, n: nat, a: Axis)
    requires Fractions(c, n) && WideEnds(c, n) && n > 1 && a.i < n && OneAway(c, n, a) && a.f < c[a.i]
    ensures Inside(c, n, AxisPair(c, n, a, 0.0))
  {
    var j := Previous(a.i, n);
    FractionsBounds(c, n, 1);
    FractionsBounds(c, n, n - 1);
    FractionsBounds(c, n, j);
    FractionsBounds(c, n, j + 1);
  }

  /** After a harmless side wrap the steps along the axis still end inside the home domain. */
  lemma HarmlessInside(c: seq<real>, n: nat, a: Axis)
    requires Fractions(c, n) && WideEnds(c, n) && a.i < n && Near(c, n, a) && Harmless(c, n, a)
    ensures n > 1 ==> Inside(c, n, AxisPair(c, n, Aside(c, n, a), 0.0))
  {
    if n == 2 && !InWindow(c, n, a) {
      assert OneAway(c, 2, Aside(c, 2, a));
    }
    PairInside(c, n, Aside(c, n, a));
  }

  /** Along an axis, at most one of the two steps of a particle that comes home moves it. */
  predicate Once(c: seq<real>, n: nat, a: Axis)
    requires Fractions(c, n) && a.i < n
  {
    n > 1 && a.f >= c[a.i + 1] ==> Down(c, n, Up(c, n, a, 0.0), 0.0) == Up(c, n, a, 0.0)
  }

  lemma HomeIsOnce(c: seq<real>, n: nat, a: Axis, wrapped: bool)
    requires Fractions(c, n) && a.i < n && Near(c, n, a) && (wrapped ==> Harmless(c, n, a))
    ensures Once(c, n, if wrapped then Aside(c, n, a) else a)
  {
    IndexAfterSide(c, n, a, wrapped);
    if n > 1 && Inside(c, n, a) {
      FractionsIncrease(c, n, a.i, a.i + 1);
    }
  }

  lemma YOnce(d: Domains, s: Site)
    requires d.Valid() && d.Contains(s) && Once(d.cy, d.t.grid.h, s.y)
    ensures var moves := Moves(d.cy, d.t.grid.h, s.y);
      d.SiteStep(d.SiteStep(s, 2), 3)
      == Site(if moves then SideWrap(d.cx, d.t.grid.w, s.x, d.XError(s.z.i)) else s.x,
              AxisPair(d.cy, d.t.grid.h, s.y, 0.0),
              if moves then Aside(d.cz, d.t.grid.d, s.z) else s.z)
  {
  }

  lemma ZOnce(d: Domains, s: Site)
    requires d.Valid() && d.Contains(s) && Once(d.cz, d.t.grid.d, s.z)
    ensures var (moves, z) := (Moves(d.cz, d.t.grid.d, s.z), AxisPair(d.cz, d.t.grid.d, s.z, 0.0));
      d.SiteStep(d.SiteStep(s, 4), 5)
      == Site(if moves then SideWrap(d.cx, d.t.grid.w, s.x, d.XError(z.i)) else s.x,
              if moves then Aside(d.cy, d.t.grid.h, s.y) else s.y, z)
  {
  }

  /** After the steps along x, and then along y and z: where a particle that comes home ends. */
  function AfterXSite(d: Domains, s: Site): (r: Site)
    requires d.Valid() && d.Contains(s)
    ensures d.Contains(r)
  {
    var moves := Moves(d.cx, d.t.grid.w, s.x);
    Site(AxisPair(d.cx, d.t.grid.w, s.x, d.XError(s.z.i)),
         if moves then Aside(d.cy, d.t.grid.h, s.y) else s.y, if moves then Aside(d.cz, d.t.grid.d, s.z) else s.z)
  }

  function AfterYSite(d: Domains, s: Site): (r: Site)
    requires d.Valid() && d.Contains(s)
    ensures d.Contains(r)
  {
    var moves := Moves(d.cy, d.t.grid.h, s.y);
    Site(if moves then SideWrap(d.cx, d.t.grid.w, s.x, d.XError(s.z.i)) else s.x,
         AxisPair(d.cy, d.t.grid.h, s.y, 0.0), if moves then Aside(d.cz, d.t.grid.d, s.z) else s.z)
  }

  function AfterZSite(d: Domains, s: Site): (r: Site)
    requires d.Valid() && d.Contains(s)
    ensures d.Contains(r)
  {
    var (moves, z) := (Moves(d.cz, d.t.grid.d, s.z), AxisPair(d.cz, d.t.grid.d, s.z, 0.0));
    Site(if moves then SideWrap(d.cx, d.t.grid.w, s.x, d.XError(z.i)) else s.x,
         if moves then Aside(d.cy, d.t.grid.h, s.y) else s.y, z)
  }

  /**
  The exact end of a particle that comes home, coordinates included: it is wrapped once along every
  axis it leaves its domain along, with the windows of the domains it passes.
   */
  lemma HomeCoordinates(d: Domains, s: Site)
    requires d.Valid() && d.Contains(s) && NearSite(d, s) && Unspoiled(d, s)
    ensures d.SiteRun(s, DIRECTIONS) == AfterZSite(d, AfterYSite(d, AfterXSite(d, s)))
  {
    AfterX(d, s);
    AfterY(d, s);
    var (movesX, movesY) := (Moves(d.cx, d.t.grid.w, s.x), Moves(d.cy, d.t.grid.h, s.y));
    HomeIsOnce(d.cy, d.t.grid.h, s.y, movesX);
    HomeIsOnce(d.cz, d.t.grid.d, s.z, movesX || movesY);
    var r := AfterXSite(d, s);
    YOnce(d, r);
    var q := AfterYSite(d, r);
    RunByPairs(d, s, r, q, 2, 3, 4, 5, 6);
    ZOnce(d, q);
  }

  lemma RunByPairs(d: Domains, s: Site, r: Site, q: Site, i: nat, j: nat, k: nat, l: nat, m: nat)
    requires d.Valid() && d.Contains(s) && d.Contains(r) && d.Contains(q)
    requires j == i + 1 && k == j + 1 && l == k + 1 && m == l + 1 <= DIRECTIONS
    requires d.SiteRun(s, i) == r && d.SiteStep(d.SiteStep(r, i), j) == q
    ensures d.SiteRun(s, m) == d.SiteStep(d.SiteStep(q, k), l)
  {
    RunTwo(d, s, i, j, k);
    RunTwo(d, s, k, l, m);
  }

  lemma RunTwo(d: Domains, s: Site, i: nat, j: nat, k: nat)
    requires d.Valid() && d.Contains(s) && j == i + 1 && k == j + 1 <= DIRECTIONS
    ensures d.SiteRun(s, k) == d.SiteStep(d.SiteStep(d.SiteRun(s, i), i), j)
  {
  }

  /** The window of the home domain, off by `e`, puts the particle inside: exactly on which side it is. */
  predicate Lands(c: seq<real>, n: nat, a: Axis, e: real)
    requires Fractions(c, n) && a.i < n
  {
    var start := AxisShift(c, n, Home(c, n, a)) + e;
    if n == 1 || Inside(c, n, a) then true
    else if a.f >= c[a.i + 1] && a.i + 1 == n then a.f >= 1.0 + start
    else if a.f < c[a.i] && a.i == 0 then a.f < start
    else start <= a.f < 1.0 + start
  }

  /** The two steps along an axis end inside the home domain exactly if the window lands the particle there. */
  lemma InsideIffLands(c: seq<real>, n: nat, a: Axis, e: real)
    requires Fractions(c, n) && n > 1 && a.i < n && OneAway(c, n, a) && Hits(c, n, a, e)
    ensures Inside(c, n, AxisPair(c, n, a, e)) <==> Lands(c, n, a, e)
  {
    var j := Home(c, n, a);
    FractionsBounds(c, n, j);
    FractionsBounds(c, n, j + 1);
    FractionsBounds(c, n, 1);
    FractionsBounds(c, n, n - 1);
    PairIndex(c, n, a, e);
    if a.f >= c[a.i + 1] {
      assert AxisPair(c, n, a, e) == Up(c, n, a, e);
    } else if a.f < c[a.i] {
      assert AxisPair(c, n, a, e) == Down(c, n, a, e);
    }
  }

  /**
  Exactly when a particle that comes home is inside its domain along x: if it leaves its domain along
  x only, if the window lands it there; otherwise if the later wraps leave it there or bring it back.
   */
  lemma InsideAlongX(d: Domains, s: Site)
    requires d.Valid() && d.Contains(s) && NearSite(d, s) && Unspoiled(d, s) && d.t.grid.w > 1
    ensures var (c, w, r) := (d.cx, d.t.grid.w, AfterYSite(d, AfterXSite(d, s)));
      && (Inside(c, w, d.SiteRun(s, DIRECTIONS).x)
          <==> Inside(c, w, if Moves(d.cz, d.t.grid.d, r.z) then SideWrap(c, w, r.x, d.XError(Home(d.cz, d.t.grid.d, s.z))) else r.x))
      && (!Moves(d.cy, d.t.grid.h, s.y) && !Moves(d.cz, d.t.grid.d, s.z) ==>
            (Inside(c, w, d.SiteRun(s, DIRECTIONS).x) <==> Lands(c, w, s.x, d.XError(s.z.i))))
  {
    HomeCoordinates(d, s);
    MigrationReachesHome(d, s);
    InsideIffLands(d.cx, d.t.grid.w, s.x, d.XError(s.z.i));
    if Moves(d.cx, d.t.grid.w, s.x) && !Moves(d.cy, d.t.grid.h, s.y) && !Moves(d.cz, d.t.grid.d, s.z) {
      StaysWhenInside(d.cy, d.t.grid.h, s.y);
      StaysWhenInside(d.cz, d.t.grid.d, s.z);
    }
  }

  /** A harmless wrap leaves a particle inside its domain alone. */
  lemma StaysWhenInside(c: seq<real>, n: nat, a: Axis)
    requires Fractions(c, n) && a.i < n && Harmless(c, n, a) && !Moves(c, n, a)
    ensures Aside(c, n, a) == a
  {
  }

  /** The tilt does not couple x to z, or there is nothing to couple. */
  predicate Uncoupled(d: Domains) {
    d.t.grid.h != 1 || d.t.grid.d == 1 || d.global.xy * d.global.yz == 0.0
  }

  /** Where the tilt does not couple x to z, windows are exact. */
  lemma ExactWindows(d: Domains, k: nat)
    requires d.Valid() && k < d.t.grid.d && Uncoupled(d)
    ensures d.XError(k) == 0.0
  {
    if d.t.grid.h == 1 {
      var (c, z) := (d.global.xy * d.global.yz, AxisShift(d.cz, d.t.grid.d, k));
      assert c * z == 0.0;
    }
  }

  /**
  A particle that comes home is inside its domain along y and z, and along x where the tilt does not
  couple x to z.
   */
  lemma HomeIsInside(d: Domains, s: Site)
    requires d.Valid() && Wide(d) && d.Contains(s) && NearSite(d, s) && Unspoiled(d, s)
    ensures var r := d.SiteRun(s, DIRECTIONS);
      && (Uncoupled(d) && d.t.grid.w > 1 ==> Inside(d.cx, d.t.grid.w, r.x))
      && (d.t.grid.h > 1 ==> Inside(d.cy, d.t.grid.h, r.y))
      && (d.t.grid.d > 1 ==> Inside(d.cz, d.t.grid.d, r.z))
  {
    HomeCoordinates(d, s);
    var (movesX, movesY) := (Moves(d.cx, d.t.grid.w, s.x), Moves(d.cy, d.t.grid.h, s.y));
    InsideAfter(d.cy, d.t.grid.h, s.y, movesX);
    InsideAfter(d.cz, d.t.grid.d, s.z, movesX || movesY);
    SideWrapIndex(d.cz, d.t.grid.d, s.z);
    var (x, y) := (AfterXSite(d, s), AfterYSite(d, AfterXSite(d, s)));
    InsideIsStable(d.cy, d.t.grid.h, y.y);
    if Uncoupled(d) {
      ExactWindows(d, s.z.i);
      ExactWindows(d, AfterZSite(d, y).z.i);
      PairInside(d.cx, d.t.grid.w, s.x);
      InsideIsStable(d.cx, d.t.grid.w, x.x);
    }
  }

  lemma InsideAfter(c: seq<real>, n: nat, a: Axis, wrapped: bool)
    requires Fractions(c, n) && WideEnds(c, n) && a.i < n && Near(c, n, a) && (wrapped ==> Harmless(c, n, a))
    ensures n > 1 ==> Inside(c, n, AxisPair(c, n, if wrapped then Aside(c, n, a) else a, 0.0))
  {
    if wrapped {
      HarmlessInside(c, n, a);
    } else {
      PairInside(c, n, a);
    }
  }

  // ----- Cartesian positions ----------------------------------------------------------------

  /** The box of one domain: the global box cut at the cumulative fractions. */
  function CutBox(g: Box, lo: Vec, hi: Vec): Box {
    g.(lo := Vec(g.lo.x + lo.x * g.L().x, g.lo.y + lo.y * g.L().y, g.lo.z + lo.z * g.L().z),
       hi := Vec(g.lo.x + hi.x * g.L().x, g.lo.y + hi.y * g.L().y, g.lo.z + hi.z * g.L().z))
  }

  function LowerFractions(d: Domains, c: Cell): Vec
    requires d.Valid() && d.t.grid.Contains(c)
  {
    Vec(d.cx[c.x], d.cy[c.y], d.cz[c.z])
  }

  function UpperFractions(d: Domains, c: Cell): Vec
    requires d.Valid() && d.t.grid.Contains(c)
  {
    Vec(d.cx[c.x + 1], d.cy[c.y + 1], d.cz[c.z + 1])
  }

  function LocalBox(d: Domains, rank: nat): Box
    requires d.Valid() && rank < d.t.Ranks()
  {
    var c := d.t.Position(rank);
    CutBox(d.global, LowerFractions(d, c), UpperFractions(d, c))
  }

  ghost predicate Below(lo: Vec, hi: Vec) {
    lo.x < hi.x && lo.y < hi.y && lo.z < hi.z
  }

  lemma ScaleOrder(a: real, b: real, l: real)
    requires l > 0.0
    ensures a < b <==> a * l < b * l
  {
    if a < b {
      assert (b - a) * l > 0.0;
    } else {
      assert (a - b) * l >= 0.0;
    }
  }

  lemma CutBoxNonDegenerate(g: Box, lo: Vec, hi: Vec)
    requires g.NonDegenerate() && Below(lo, hi)
    ensures CutBox(g, lo, hi).NonDegenerate()
  {
    ScaleOrder(lo.x, hi.x, g.L().x);
    ScaleOrder(lo.y, hi.y, g.L().y);
    ScaleOrder(lo.z, hi.z, g.L().z);
  }

  /** Which faces of the local box a position is beyond. */
  predicate BeyondFace(d: Domains, rank: nat, v: Vec, dir: Direction)
    requires d.Valid() && rank < d.t.Ranks()
  {
    CutBoxNonDegenerate(d.global, LowerFractions(d, d.t.Position(rank)), UpperFractions(d, d.t.Position(rank)));
    var f := LocalBox(d, rank).MakeFraction(v);
    match dir
    case 0 => f.x >= 1.0
    case 1 => f.x < 0.0
    case 2 => f.y >= 1.0
    case 3 => f.y < 0.0
    case 4 => f.z >= 1.0
    case _ => f.z < 0.0
  }

  /** Local and global fractions decide alike. */
  lemma LocalCompare(u: real, l: real, a: real, b: real)
    requires l > 0.0 && a < b
    ensures b * l - a * l > 0.0
    ensures (u - a * l) / (b * l - a * l) >= 1.0 <==> u / l >= b
    ensures (u - a * l) / (b * l - a * l) < 0.0 <==> u / l < a
  {
    ScaleOrder(a, b, l);
    var q, m := u / l, b * l - a * l;
    assert u == q * l;
    ScaleOrder(q, b, l);
    ScaleOrder(q, a, l);
    var x := (u - a * l) / m;
    assert u - a * l == x * m;
    ScaleOrder(x, 1.0, m);
    ScaleOrder(x, 0.0, m);
  }

  lemma BeyondFaceIsGlobal(d: Domains, rank: nat, v: Vec, dir: Direction)
    requires d.Valid() && rank < d.t.Ranks()
    ensures var f, p := d.global.MakeFraction(v), d.t.Position(rank);
            BeyondFace(d, rank, v, dir)
            <==> match dir
                 case 0 => f.x >= d.cx[p.x + 1]
                 case 1 => f.x < d.cx[p.x]
                 case 2 => f.y >= d.cy[p.y + 1]
                 case 3 => f.y < d.cy[p.y]
                 case 4 => f.z >= d.cz[p.z + 1]
                 case _ => f.z < d.cz[p.z]
  {
    var c := d.t.Position(rank);
    CutFaces(d.global, LowerFractions(d, c), UpperFractions(d, c), v);
  }

  lemma CutFaces(g: Box, lo: Vec, hi: Vec, v: Vec)
    requires g.NonDegenerate() && Below(lo, hi)
    ensures CutBox(g, lo, hi).NonDegenerate()
    ensures var f, r := g.MakeFraction(v), CutBox(g, lo, hi).MakeFraction(v);
            && (r.x >= 1.0 <==> f.x >= hi.x) && (r.x < 0.0 <==> f.x < lo.x)
            && (r.y >= 1.0 <==> f.y >= hi.y) && (r.y < 0.0 <==> f.y < lo.y)
            && (r.z >= 1.0 <==> f.z >= hi.z) && (r.z < 0.0 <==> f.z < lo.z)
  {
    CutBoxNonDegenerate(g, lo, hi);
    var box := CutBox(g, lo, hi);
    CutX(g, box, v, lo.x, hi.x);
    CutY(g, box, v, lo.y, hi.y);
    CutZ(g, box, v, lo.z, hi.z);
  }

  ghost predicate SameTilt(a: Box, b: Box) {
    a.xy == b.xy && a.xz == b.xz && a.yz == b.yz
  }

  lemma CutX(g: Box, b: Box, v: Vec, lo: real, hi: real)
    requires g.NonDegenerate() && b.NonDegenerate() && SameTilt(g, b) && lo < hi
    requires b.lo.x == g.lo.x + lo * g.L().x && b.hi.x == g.lo.x + hi * g.L().x
    ensures b.MakeFraction(v).x >= 1.0 <==> g.MakeFraction(v).x >= hi
    ensures b.MakeFraction(v).x < 0.0 <==> g.MakeFraction(v).x < lo
  {
    var (u, l) := (g.Untilted(v).x, g.L().x);
    LocalCompare(u, l, lo, hi);
    assert b.L().x == hi * l - lo * l && b.Untilted(v).x == u - lo * l;
  }

  lemma CutY(g: Box, b: Box, v: Vec, lo: real, hi: real)
    requires g.NonDegenerate() && b.NonDegenerate() && SameTilt(g, b) && lo < hi
    requires b.lo.y == g.lo.y + lo * g.L().y && b.hi.y == g.lo.y + hi * g.L().y
    ensures b.MakeFraction(v).y >= 1.0 <==> g.MakeFraction(v).y >= hi
    ensures b.MakeFraction(v).y < 0.0 <==> g.MakeFraction(v).y < lo
  {
    var (u, l) := (g.Untilted(v).y, g.L().y);
    LocalCompare(u, l, lo, hi);
    assert b.L().y == hi * l - lo * l && b.Untilted(v).y == u - lo * l;
  }

  lemma CutZ(g: Box, b: Box, v: Vec, lo: real, hi: real)
    requires g.NonDegenerate() && b.NonDegenerate() && lo < hi
    requires b.lo.z == g.lo.z + lo * g.L().z && b.hi.z == g.lo.z + hi * g.L().z
    ensures b.MakeFraction(v).z >= 1.0 <==> g.MakeFraction(v).z >= hi
    ensures b.MakeFraction(v).z < 0.0 <==> g.MakeFraction(v).z < lo
  {
    var (u, l) := (g.Untilted(v).z, g.L().z);
    LocalCompare(u, l, lo, hi);
    assert b.L().z == hi * l - lo * l && b.Untilted(v).z == u - lo * l;
  }

  /** The shifted global box a rank wraps received particles with. */
  function WrapBox(d: Domains, rank: nat): Box
    requires d.Valid() && rank < d.t.Ranks()
  {
    var (p, g) := (d.t.Position(rank), d.t.grid);
    ShiftedBox(d.global,
               Vec(AxisShift(d.cx, g.w, p.x), AxisShift(d.cy, g.h, p.y), AxisShift(d.cz, g.d, p.z)),
               d.Divided())
  }

  function Received(d: Domains, rank: nat, p: Particle): (r: Particle)
    requires d.Valid() && rank < d.t.Ranks()
    ensures r.tag == p.tag
  {
    var (v, i) := WrapBox(d, rank).Wrap(p.position, p.image, NO_FLAGS);
    Particle(p.tag, v, i)
  }

  function SiteOf(d: Domains, rank: nat, p: Particle): (s: Site)
    requires d.Valid() && rank < d.t.Ranks()
    ensures d.Contains(s)
  {
    var c, f := d.t.Position(rank), d.global.MakeFraction(p.position);
    Site(Axis(c.x, f.x), Axis(c.y, f.y), Axis(c.z, f.z))
  }

  /** One direction of one particle. */
  function Travel(d: Domains, rank: nat, p: Particle, dir: Direction): (r: (nat, Particle))
    requires d.Valid() && rank < d.t.Ranks()
    ensures r.0 < d.t.Ranks()
  {
    if d.t.IsCommunicating(dir) && BeyondFace(d, rank, p.position, dir)
    then (d.t.NeighborRank(rank, dir), Received(d, d.t.NeighborRank(rank, dir), p))
    else (rank, p)
  }

  /** Receiving acts on the three fractions as side wraps of the receiver's position. */
  lemma ReceivedFractions(d: Domains, rank: nat, p: Particle)
    requires d.Valid() && rank < d.t.Ranks()
    ensures var f, r, c, g := d.global.MakeFraction(p.position), d.global.MakeFraction(Received(d, rank, p).position),
                              d.t.Position(rank), d.t.grid;
            && r.x == SideWrap(d.cx, g.w, Axis(c.x, f.x), d.XError(c.z)).f
            && r.y == Aside(d.cy, g.h, Axis(c.y, f.y)).f
            && r.z == Aside(d.cz, g.d, Axis(c.z, f.z)).f
  {
    var (c, g) := (d.t.Position(rank), d.t.grid);
    var shift := Vec(AxisShift(d.cx, g.w, c.x), AxisShift(d.cy, g.h, c.y), AxisShift(d.cz, g.d, c.z));
    ErrorByHeight(d.global, shift, Vec(0.0, 0.0, shift.z), d.Divided());
    ShiftedWrapPerAxis(d.global, shift, d.Divided(), p.position, p.image);
  }

  lemma ErrorByHeight(global: Box, s: Vec, t: Vec, p: Periodic)
    requires global.NonDegenerate() && s.z == t.z
    ensures XWindowError(global, s, p) == XWindowError(global, t, p)
  {
  }

  /** The Cartesian step is the step on fractional coordinates. */
  lemma TravelMatchesSite(d: Domains, rank: nat, p: Particle, dir: Direction)
    requires d.Valid() && rank < d.t.Ranks()
    ensures SiteOf(d, Travel(d, rank, p, dir).0, Travel(d, rank, p, dir).1) == d.SiteStep(SiteOf(d, rank, p), dir)
  {
    BeyondFaceIsGlobal(d, rank, p.position, dir);
    if d.t.IsCommunicating(dir) && BeyondFace(d, rank, p.position, dir) {
      PositionOfRankAt(d.t, Hop(d.t.grid, d.t.Position(rank), dir));
      ReceivedFractions(d, d.t.NeighborRank(rank, dir), p);
    }
  }

  /** Wrapping on receipt keeps the unwrapped position. */
  lemma ReceivedKeepsUnwrapped(d: Domains, rank: nat, p: Particle)
    requires d.Valid() && rank < d.t.Ranks()
    ensures d.global.Shift(Received(d, rank, p).position, Received(d, rank, p).image) == d.global.Shift(p.position, p.image)
  {
    var b := WrapBox(d, rank);
    var r := Received(d, rank, p);
    WrapKeepsUnwrapped(b, p.position, p.image, NO_FLAGS);
    ShiftOfSameShape(b, d.global, p.position, p.image);
    ShiftOfSameShape(b, d.global, r.position, r.image);
  }

  lemma ShiftOfSameShape(a: Box, b: Box, v: Vec, img: Image)
    requires SameShape(a, b)
    ensures a.Shift(v, img) == b.Shift(v, img)
  {
  }

  function TravelAll(d: Domains, rank: nat, p: Particle, k: nat): (r: (nat, Particle))
    requires d.Valid() && rank < d.t.Ranks() && k <= DIRECTIONS
    ensures r.0 < d.t.Ranks()
  {
    if k == 0 then (rank, p)
    else
      var (r, q) := TravelAll(d, rank, p, k - 1);
      Travel(d, r, q, k - 1)
  }

  /** The particle and its rank, seen on fractional coordinates. */
  ghost predicate Sited(d: Domains, at: (nat, Particle), s: Site)
    requires d.Valid()
  {
    at.0 < d.t.Ranks() && SiteOf(d, at.0, at.1) == s
  }

  lemma SitedStep(d: Domains, at: (nat, Particle), s: Site, dir: Direction)
    requires d.Valid() && d.Contains(s) && Sited(d, at, s)
    ensures Sited(d, Travel(d, at.0, at.1, dir), d.SiteStep(s, dir))
  {
    TravelMatchesSite(d, at.0, at.1, dir);
  }

  lemma {:induction false} TravelAllMatchesSite(d: Domains, rank: nat, p: Particle, s: Site, k: nat)
    requires d.Valid() && rank < d.t.Ranks() && k <= DIRECTIONS && d.Contains(s) && Sited(d, (rank, p), s)
    ensures Sited(d, TravelAll(d, rank, p, k), d.SiteRun(s, k))
  {
    if k > 0 {
      var j: nat := k - 1;
      TravelAllMatchesSite(d, rank, p, s, j);
      SitedNext(d, TravelAll(d, rank, p, j), d.SiteRun(s, j), j, TravelAll(d, rank, p, k), d.SiteRun(s, k));
    }
  }

  lemma SitedNext(d: Domains, at: (nat, Particle), s: Site, dir: Direction, at': (nat, Particle), s': Site)
    requires d.Valid() && d.Contains(s) && Sited(d, at, s)
    requires at' == Travel(d, at.0, at.1, dir) && s' == d.SiteStep(s, dir)
    ensures Sited(d, at', s')
  {
    SitedStep(d, at, s, dir);
  }

  /** Every particle, wherever it is, ends up on the rank of the domain that its fractions lead to. */
  lemma ParticleFollowsSite(d: Domains, rank: nat, p: Particle)
    requires d.Valid() && rank < d.t.Ranks()
    ensures TravelAll(d, rank, p, DIRECTIONS).0 == d.t.RankAt(CellOf(d.SiteRun(SiteOf(d, rank, p), DIRECTIONS)))
  {
    var s := SiteOf(d, rank, p);
    var (r, q) := TravelAll(d, rank, p, DIRECTIONS);
    TravelAllMatchesSite(d, rank, p, s, DIRECTIONS);
    assert d.t.Position(r) == CellOf(d.SiteRun(s, DIRECTIONS));
    RankAtPosition(d.t, r);
  }

  /**
  A particle that is at most one domain away along every axis ends up on the rank of its domain if
  and only if it is unspoiled, for every triclinic box and all domain boundaries.
   */
  lemma ParticleReachesHome(d: Domains, rank: nat, p: Particle)
    requires d.Valid() && rank < d.t.Ranks() && NearSite(d, SiteOf(d, rank, p))
    ensures TravelAll(d, rank, p, DIRECTIONS).0 == d.t.RankAt(HomeCell(d, SiteOf(d, rank, p)))
            <==> Unspoiled(d, SiteOf(d, rank, p))
  {
    var s := SiteOf(d, rank, p);
    ParticleFollowsSite(d, rank, p);
    MigrationReachesHome(d, s);
    PositionOfRankAt(d.t, HomeCell(d, s));
    PositionOfRankAt(d.t, CellOf(d.SiteRun(s, DIRECTIONS)));
  }

  // ----- all particles ----------------------------------------------------------------------

  type World = seq<seq<Particle>>

  /** The particles that stay on a rank in a direction, in order, and those that leave. */
  function Stay(d: Domains, rank: nat, ps: seq<Particle>, dir: Direction): seq<Particle>
    requires d.Valid() && rank < d.t.Ranks()
  {
    if ps == [] then []
    else
      var n := |ps| - 1;
      Stay(d, rank, ps[..n], dir) + if BeyondFace(d, rank, ps[n].position, dir) then [] else [ps[n]]
  }

  function Leave(d: Domains, rank: nat, ps: seq<Particle>, dir: Direction): seq<Particle>
    requires d.Valid() && rank < d.t.Ranks()
  {
    if ps == [] then []
    else
      var n := |ps| - 1;
      Leave(d, rank, ps[..n], dir) + if BeyondFace(d, rank, ps[n].position, dir) then [ps[n]] else []
  }

  /** Those beyond the face leave and the others stay, both in order. */
  lemma {:induction false} PartsAreSelections(d: Domains, rank: nat, ps: seq<Particle>, dir: Direction) returns (stay: seq<nat>, leave: seq<nat>)
    requires d.Valid() && rank < d.t.Ranks()
    ensures IsSelection(ps, stay, Stay(d, rank, ps, dir)) && IsSelection(ps, leave, Leave(d, rank, ps, dir))
    ensures forall i: nat :: i in leave <==> i < |ps| && BeyondFace(d, rank, ps[i].position, dir)
    ensures forall i: nat :: i in stay <==> i < |ps| && !BeyondFace(d, rank, ps[i].position, dir)
  {
    if ps == [] {
      stay, leave := [], [];
    } else {
      var n := |ps| - 1;
      stay, leave := PartsAreSelections(d, rank, ps[..n], dir);
      SelectionGrows(ps[..n], stay, Stay(d, rank, ps[..n], dir), ps[n]);
      SelectionGrows(ps[..n], leave, Leave(d, rank, ps[..n], dir), ps[n]);
      assert ps == ps[..n] + [ps[n]];
      if BeyondFace(d, rank, ps[n].position, dir) {
        leave := leave + [n];
      } else {
        stay := stay + [n];
      }
    }
  }

  function Arrive(d: Domains, rank: nat, ps: seq<Particle>): (r: seq<Particle>)
    requires d.Valid() && rank < d.t.Ranks()
    ensures |r| == |ps|
  {
    seq(|ps|, i requires 0 <= i < |ps| => Received(d, rank, ps[i]))
  }

  function MigrateDirection(d: Domains, world: World, dir: Direction): (r: World)
    requires d.Valid() && |world| == d.t.Ranks()
    ensures |r| == |world|
  {
    if d.t.IsCommunicating(dir) then
      seq(|world|, rank requires 0 <= rank < |world| =>
        var from := Senders(d.t, dir)[rank];
        Stay(d, rank, world[rank], dir) + Arrive(d, rank, Leave(d, from, world[from], dir)))
    else
      world
  }

  function Migrate(d: Domains, world: World, k: nat): (r: World)
    requires d.Valid() && |world| == d.t.Ranks() && k <= DIRECTIONS
    ensures |r| == |world|
  {
    if k == 0 then world else MigrateDirection(d, Migrate(d, world, k - 1), k - 1)
  }

  /** What a particle is, independent of the image it is booked in. */
  datatype Identity = Identity(tag: Tag, unwrapped: Vec)

  function IdentityOf(d: Domains, p: Particle): Identity {
    Identity(p.tag, d.global.Shift(p.position, p.image))
  }

  function Count(d: Domains, ps: seq<Particle>, id: Identity): nat {
    if ps == [] then 0
    else Count(d, ps[..|ps| - 1], id) + if IdentityOf(d, ps[|ps| - 1]) == id then 1 else 0
  }

  lemma {:induction false} CountAppend(d: Domains, a: seq<Particle>, b: seq<Particle>, id: Identity)
    ensures Count(d, a + b, id) == Count(d, a, id) + Count(d, b, id)
  {
    if b == [] {
      assert a + b == a;
    } else {
      var n := |b| - 1;
      assert (a + b)[..|a| + n] == a + b[..n];
      CountAppend(d, a, b[..n], id);
    }
  }

  lemma {:induction false} CountSplit(d: Domains, rank: nat, ps: seq<Particle>, dir: Direction, id: Identity)
    requires d.Valid() && rank < d.t.Ranks()
    ensures Count(d, Stay(d, rank, ps, dir), id) + Count(d, Leave(d, rank, ps, dir), id) == Count(d, ps, id)
  {
    if ps != [] {
      var n := |ps| - 1;
      CountSplit(d, rank, ps[..n], dir, id);
      CountAppend(d, Stay(d, rank, ps[..n], dir), if BeyondFace(d, rank, ps[n].position, dir) then [] else [ps[n]], id);
      CountAppend(d, Leave(d, rank, ps[..n], dir), if BeyondFace(d, rank, ps[n].position, dir) then [ps[n]] else [], id);
    }
  }

  lemma {:induction false} CountArrive(d: Domains, rank: nat, ps: seq<Particle>, id: Identity)
    requires d.Valid() && rank < d.t.Ranks()
    ensures Count(d, Arrive(d, rank, ps), id) == Count(d, ps, id)
  {
    if ps != [] {
      var n := |ps| - 1;
      CountArrive(d, rank, ps[..n], id);
      assert Arrive(d, rank, ps)[..n] == Arrive(d, rank, ps[..n]);
      ReceivedKeepsUnwrapped(d, rank, ps[n]);
    }
  }

  function CountVector(d: Domains, world: World, id: Identity): (x: Vector)
    ensures |x| == |world|
  {
    seq(|world|, r requires 0 <= r < |world| => Count(d, world[r], id) as real)
  }

  /** A rank holds what stayed and what its sending neighbour let go. */
  lemma CountMigrated(d: Domains, world: World, dir: Direction, id: Identity, r: nat)
    requires d.Valid() && r < |world| == d.t.Ranks() && d.t.IsCommunicating(dir)
    ensures var from := Senders(d.t, dir)[r];
      && from < |world|
      && Count(d, MigrateDirection(d, world, dir)[r], id)
         == Count(d, Stay(d, r, world[r], dir), id) + Count(d, Leave(d, from, world[from], dir), id)
  {
    var from := Senders(d.t, dir)[r];
    var leaving := Leave(d, from, world[from], dir);
    CountArrive(d, r, leaving, id);
    CountAppend(d, Stay(d, r, world[r], dir), Arrive(d, r, leaving), id);
  }

  ghost function StayVector(d: Domains, world: World, dir: Direction, id: Identity): Vector
    requires d.Valid() && |world| == d.t.Ranks()
  {
    seq(|world|, r requires 0 <= r < |world| => Count(d, Stay(d, r, world[r], dir), id) as real)
  }

  ghost function LeaveVector(d: Domains, world: World, dir: Direction, id: Identity): Vector
    requires d.Valid() && |world| == d.t.Ranks()
  {
    seq(|world|, r requires 0 <= r < |world| => Count(d, Leave(d, r, world[r], dir), id) as real)
  }

  lemma CountsBefore(d: Domains, world: World, dir: Direction, id: Identity)
    requires d.Valid() && |world| == d.t.Ranks()
    ensures Sum(CountVector(d, world, id)) == Sum(StayVector(d, world, dir, id)) + Sum(LeaveVector(d, world, dir, id))
  {
    var (stay, leave, all) := (StayVector(d, world, dir, id), LeaveVector(d, world, dir, id), CountVector(d, world, id));
    forall r | 0 <= r < |world| ensures all[r] == stay[r] + leave[r] {
      CountSplit(d, r, world[r], dir, id);
    }
    SumAdds(stay, leave, all);
  }

  lemma CountsAfter(d: Domains, world: World, dir: Direction, id: Identity)
    requires d.Valid() && |world| == d.t.Ranks() && d.t.IsCommunicating(dir)
    ensures Sum(CountVector(d, MigrateDirection(d, world, dir), id))
            == Sum(StayVector(d, world, dir, id)) + Sum(Pull(LeaveVector(d, world, dir, id), Senders(d.t, dir)))
  {
    var (stay, leave, p) := (StayVector(d, world, dir, id), LeaveVector(d, world, dir, id), Senders(d.t, dir));
    var all := CountVector(d, MigrateDirection(d, world, dir), id);
    forall r | 0 <= r < |world| ensures all[r] == stay[r] + Pull(leave, p)[r] {
      CountMigrated(d, world, dir, id, r);
    }
    SumAdds(stay, Pull(leave, p), all);
  }

  lemma DirectionConserves(d: Domains, world: World, dir: Direction, id: Identity)
    requires d.Valid() && |world| == d.t.Ranks()
    ensures Sum(CountVector(d, MigrateDirection(d, world, dir), id)) == Sum(CountVector(d, world, id))
  {
    if d.t.IsCommunicating(dir) {
      CountsBefore(d, world, dir, id);
      CountsAfter(d, world, dir, id);
      SendersInverse(d.t, dir);
      SumPulled(LeaveVector(d, world, dir, id), Senders(d.t, dir), Senders(d.t, Opposite(dir)));
    }
  }

  /**
  Migration conserves particles: over all ranks, every tag with its unwrapped position occurs as
  often after the six directions as before, whatever the positions and the tilt.
   */
  lemma {:induction false} MigrationConserves(d: Domains, world: World, id: Identity, k: nat)
    requires d.Valid() && |world| == d.t.Ranks() && k <= DIRECTIONS
    ensures Sum(CountVector(d, Migrate(d, world, k), id)) == Sum(CountVector(d, world, id))
  {
    if k > 0 {
      MigrationConserves(d, world, id, k - 1);
      DirectionConserves(d, Migrate(d, world, k - 1), k - 1, id);
    }
  }

  lemma {:induction false} StayOrLeave(d: Domains, rank: nat, ps: seq<Particle>, dir: Direction, p: Particle)
    requires d.Valid() && rank < d.t.Ranks() && p in ps
    ensures if BeyondFace(d, rank, p.position, dir) then p in Leave(d, rank, ps, dir) else p in Stay(d, rank, ps, dir)
  {
    var n := |ps| - 1;
    if ps[n] != p {
      assert p in ps[..n];
      StayOrLeave(d, rank, ps[..n], dir, p);
    }
  }

  lemma DirectionFollows(d: Domains, world: World, rank: nat, p: Particle, dir: Direction)
    requires d.Valid() && rank < |world| == d.t.Ranks() && p in world[rank]
    ensures Travel(d, rank, p, dir).1 in MigrateDirection(d, world, dir)[Travel(d, rank, p, dir).0]
  {
    if d.t.IsCommunicating(dir) {
      StayOrLeave(d, rank, world[rank], dir, p);
      if BeyondFace(d, rank, p.position, dir) {
        var to := d.t.NeighborRank(rank, dir);
        NeighborOpposite(d.t, rank, dir);
        assert Senders(d.t, dir)[to] == rank;
        var leaving := Leave(d, rank, world[rank], dir);
        var i :| 0 <= i < |leaving| && leaving[i] == p;
        assert Arrive(d, to, leaving)[i] == Received(d, to, p);
      }
    }
  }

  /** Every particle is found where following it alone leads. */
  lemma {:induction false} MigrationFollows(d: Domains, world: World, rank: nat, p: Particle, k: nat)
    requires d.Valid() && rank < |world| == d.t.Ranks() && p in world[rank] && k <= DIRECTIONS
    ensures TravelAll(d, rank, p, k).1 in Migrate(d, world, k)[TravelAll(d, rank, p, k).0]
  {
    if k > 0 {
      MigrationFollows(d, world, rank, p, k - 1);
      MigrationFollowsNext(d, world, rank, p, k - 1);
    }
  }

  lemma MigrationFollowsNext(d: Domains, world: World, rank: nat, p: Particle, dir: Direction)
    requires d.Valid() && rank < |world| == d.t.Ranks()
    requires TravelAll(d, rank, p, dir).1 in Migrate(d, world, dir)[TravelAll(d, rank, p, dir).0]
    ensures TravelAll(d, rank, p, dir + 1).1 in Migrate(d, world, dir + 1)[TravelAll(d, rank, p, dir + 1).0]
  {
    var at := TravelAll(d, rank, p, dir);
    DirectionFollows(d, Migrate(d, world, dir), at.0, at.1, dir);
  }

  // ----- the loops of one rank --------------------------------------------------------------

  class ParticleArrays {
    var particles: seq<Particle>

    /** Flag the particles beyond a face, remove them and hand them out. */
    method RemoveParticles(d: Domains, rank: nat, dir: Direction) returns (out: seq<Particle>)
      requires d.Valid() && rank < d.t.Ranks()
      modifies this
      ensures particles == Stay(d, rank, old(particles), dir) && out == Leave(d, rank, old(particles), dir)
    {
      var flags: seq<bool> := [];
      for idx := 0 to |particles|
        invariant particles == old(particles) && |flags| == idx
        invariant forall i :: 0 <= i < idx ==> flags[i] == BeyondFace(d, rank, particles[i].position, dir)
      {
        flags := flags + [BeyondFace(d, rank, particles[idx].position, dir)];
      }
      var kept: seq<Particle> := [];
      out := [];
      for i := 0 to |particles|
        invariant particles == old(particles)
        invariant kept == Stay(d, rank, particles[..i], dir) && out == Leave(d, rank, particles[..i], dir)
      {
        assert particles[..i + 1][..i] == particles[..i];
        if flags[i] {
          out := out + [particles[i]];
        } else {
          kept := kept + [particles[i]];
        }
      }
      assert particles[..|particles|] == particles;
      particles := kept;
    }

    /** Wrap received particles and add them. */
    method AddParticles(d: Domains, rank: nat, received: seq<Particle>)
      requires d.Valid() && rank < d.t.Ranks()
      modifies this
      ensures particles == old(particles) + Arrive(d, rank, received)
    {
      for idx := 0 to |received|
        invariant particles == old(particles) + Arrive(d, rank, received)[..idx]
      {
        particles := particles + [Received(d, rank, received[idx])];
      }
    }
  }

  // ----- an early wrap ----------------------------------------------------------------------

  /**
  A particle at most one domain away can end up on the wrong rank: on a 2 x 3 x 1 torus of
  domains, one that leaves domain (0, 0) upwards in x and by more than half a domain downwards
  in y arrives in domain row 1 instead of row 2.
   */
  lemma EarlyWrapHappens(d: Domains)
    requires IsUneven(d)
    ensures var s := Site(Axis(0, 0.6), Axis(0, -0.25), Axis(0, 0.5));
            && NearSite(d, s) && HomeCell(d, s) == Cell(1, 2, 0)
            && CellOf(d.SiteRun(s, DIRECTIONS)) == Cell(1, 1, 0)
  {
    var s := Site(Axis(0, 0.6), Axis(0, -0.25), Axis(0, 0.5));
    assert AxisShift(d.cx, 2, 1) == 0.2501 && AxisShift(d.cy, 3, 0) == -0.1501 && AxisShift(d.cy, 3, 1) == 0.0;
    assert d.SiteRun(s, 0) == s;
    var s1 := d.SiteRun(s, 1);
    assert Up(d.cx, 2, s.x, 0.0) == Axis(1, 0.6) && Aside(d.cy, 3, s.y) == Axis(0, 0.75);
    assert s1 == Site(Axis(1, 0.6), Axis(0, 0.75), Axis(0, 0.5));
    assert d.SiteRun(s, 2) == s1;
    var s3 := d.SiteRun(s, 3);
    assert s3 == Site(Axis(1, 0.6), Axis(1, 0.75), Axis(0, 0.5));
    assert d.SiteRun(s, 4) == s3;
    assert d.SiteRun(s, 5) == s3;
    assert d.SiteRun(s, 6) == s3;
  }

  /**
  A tilt that couples x to z leads to the wrong rank: on a 2 x 1 x 2 torus in a box of unit lengths with
  xy = 1.04 and yz = 1, the x window of the lower domains is off by -0.260104. A particle that leaves
  domain (0, 0, 0) upwards in x is wrapped on arrival and sent back.
   */
  lemma TiltedWindowMisses(d: Domains)
    requires IsTilted(d)
    ensures var s := Site(Axis(0, 0.995), Axis(0, 0.5), Axis(0, 0.25));
            && NearSite(d, s) && HomeCell(d, s) == Cell(1, 0, 0)
            && CellOf(d.SiteRun(s, DIRECTIONS)) == Cell(0, 0, 0)
  {
    var s := Site(Axis(0, 0.995), Axis(0, 0.5), Axis(0, 0.25));
    assert AxisShift(d.cx, 2, 1) == 0.2501 && AxisShift(d.cz, 2, 0) == -0.2501;
    ErrorOfUnit(d.global, AxisShift(d.cz, 2, 0), d.Divided());
    assert !Hits(d.cx, 2, s.x, d.XError(0));
    AfterY(d, s);
    AfterZ(d, s);
    PairIndex(d.cx, 2, s.x, d.XError(0));
    assert Aside(d.cz, 2, s.z) == s.z && AxisPair(d.cz, 2, s.z, 0.0) == s.z;
  }

  /** The box and the domains of the example. */
  ghost predicate IsTilted(d: Domains) {
    && d.Valid() && d.t.grid == Indexer(2, 1, 2) && d.cx == [0.0, 0.5, 1.0] && d.cy == [0.0, 1.0] && d.cz == [0.0, 0.5, 1.0]
    && d.global.L() == Vec(1.0, 1.0, 1.0) && d.global.xy == 1.04 && d.global.yz == 1.0
  }

  lemma ErrorOfUnit(global: Box, z: real, p: Periodic)
    requires global.NonDegenerate() && global.L() == Vec(1.0, 1.0, 1.0) && global.xy == 1.04 && global.yz == 1.0 && !p.y
    ensures XWindowError(global, Vec(0.0, 0.0, z), p) == 1.04 * z
  {
    assert global.xy * global.yz == 1.04;
  }

  // ----- the same for particles -------------------------------------------------------------

  /** A particle at fractions `f` on the rank of a domain. */
  ghost predicate IsStart(d: Domains, rank: nat, p: Particle, from: Cell, f: Vec)
    requires d.Valid()
  {
    rank < d.t.Ranks() && d.t.Position(rank) == from && d.global.MakeFraction(p.position) == f
  }

  /** Every particle at fractions `f` on the rank of `from` ends on the rank of `last` instead of that of `home`. */
  ghost predicate Strays(d: Domains, from: Cell, f: Vec, home: Cell, last: Cell)
    requires d.Valid()
  {
    && d.t.grid.Contains(home) && d.t.grid.Contains(last)
    && forall rank, p :: IsStart(d, rank, p, from, f) ==>
         && HomeCell(d, SiteOf(d, rank, p)) == home
         && TravelAll(d, rank, p, DIRECTIONS).0 == d.t.RankAt(last) != d.t.RankAt(home)
  }

  /** There is such a particle. */
  lemma ParticleAt(d: Domains, c: Cell, f: Vec) returns (rank: nat, p: Particle)
    requires d.Valid() && d.t.grid.Contains(c)
    ensures IsStart(d, rank, p, c, f)
  {
    rank, p := d.t.RankAt(c), Particle(0, d.global.MakeCoordinates(f), Image(0, 0, 0));
    PositionOfRankAt(d.t, c);
    FractionOfCoordinates(d.global, f);
  }

  /** What a site does, particles do. */
  lemma StraysLikeSite(d: Domains, s: Site, home: Cell, last: Cell)
    requires d.Valid() && d.Contains(s) && HomeCell(d, s) == home != last && CellOf(d.SiteRun(s, DIRECTIONS)) == last
    ensures Strays(d, CellOf(s), Vec(s.x.f, s.y.f, s.z.f), home, last)
  {
    PositionOfRankAt(d.t, home);
    PositionOfRankAt(d.t, last);
    forall rank, p | IsStart(d, rank, p, CellOf(s), Vec(s.x.f, s.y.f, s.z.f))
      ensures HomeCell(d, SiteOf(d, rank, p)) == home && TravelAll(d, rank, p, DIRECTIONS).0 == d.t.RankAt(last)
    {
      assert SiteOf(d, rank, p) == s;
      ParticleFollowsSite(d, rank, p);
    }
  }

  /** The domains of the early wrap. */
  ghost predicate IsUneven(d: Domains) {
    && d.Valid() && d.t.grid == Indexer(2, 3, 1)
    && d.cx == [0.0, 0.5, 1.0] && d.cy == [0.0, 0.3, 0.7, 1.0] && d.cz == [0.0, 1.0]
  }

  /** Particles on domain (0, 0, 0) that belong to (1, 2, 0) and end on (1, 1, 0). */
  lemma EarlyWrapStrays(d: Domains)
    requires IsUneven(d)
    ensures Strays(d, Cell(0, 0, 0), Vec(0.6, -0.25, 0.5), Cell(1, 2, 0), Cell(1, 1, 0))
  {
    EarlyWrapHappens(d);
    StraysLikeSite(d, Site(Axis(0, 0.6), Axis(0, -0.25), Axis(0, 0.5)), Cell(1, 2, 0), Cell(1, 1, 0));
  }

  /** Particles on domain (0, 0, 0) that belong to (1, 0, 0) and do not get there. */
  lemma TiltedWindowStrays(d: Domains)
    requires IsTilted(d)
    ensures Strays(d, Cell(0, 0, 0), Vec(0.995, 0.5, 0.25), Cell(1, 0, 0), Cell(0, 0, 0))
  {
    TiltedWindowMisses(d);
    StraysLikeSite(d, Site(Axis(0, 0.995), Axis(0, 0.5), Axis(0, 0.25)), Cell(1, 0, 0), Cell(0, 0, 0));
  }
}
