/**
The grid of cells: how many cells fit along an axis, which cell a particle falls into, and that
particles closer than the search radius fall into neighbouring cells.
 */
module CellGeometry {
  import opened Grid
  import opened BoxDim
  import opened CellAdjacency

  // ----- dimensions -------------------------------------------------------------------------

  /** Conversion of a real to an integer, towards zero. */
  function Truncated(r: real): int {
    if r >= 0.0 then r.Floor else -((-r).Floor)
  }

  /** The largest multiple of `m` that is not above `v`. */
  function RoundDown(v: nat, m: nat): nat
    requires 0 < m
  {
    v / m * m
  }

  lemma RoundDownBounds(v: nat, m: nat)
    requires 0 < m
    ensures RoundDown(v, m) <= v < RoundDown(v, m) + m && RoundDown(v, m) % m == 0
  {
    assert v == v / m * m + v % m;
    ModIs(RoundDown(v, m), v / m, 0, m);
  }

  /** The number of cells along an axis: a multiple of `multiple`, at least one cell. */
  function CellCount(extent: real, nominal: real, multiple: nat): (n: nat)
    requires extent >= 0.0 && nominal > 0.0 && 0 < multiple
    ensures 1 <= n
  {
    QuotientSign(extent, nominal);
    var n := RoundDown(Truncated(extent / nominal), multiple);
    if n == 0 then 1 else n
  }

  lemma QuotientSign(a: real, b: real)
    requires a >= 0.0 && b > 0.0
    ensures a / b >= 0.0
  {
    var q := a / b;
    assert q * b == a;
    FactorSign(q, b);
  }

  lemma FactorSign(q: real, b: real)
    requires q * b >= 0.0 && b > 0.0
    ensures q >= 0.0
  {
    if q < 0.0 {
    }
  }

  lemma ProductSign(a: real, b: real)
    requires a >= 0.0 && b >= 0.0
    ensures a * b >= 0.0
  {
  }

  /** Cells are at least as wide as requested, unless a single one was forced. */
  lemma CellsWideEnough(extent: real, nominal: real, multiple: nat)
    requires extent >= 0.0 && nominal > 0.0 && 0 < multiple
    ensures var n := CellCount(extent, nominal, multiple); n == 1 || n as real * nominal <= extent
    ensures var n := CellCount(extent, nominal, multiple); n % multiple == 0 || n == 1
  {
    QuotientSign(extent, nominal);
    var v := Truncated(extent / nominal);
    RoundDownBounds(v, multiple);
    var n := CellCount(extent, nominal, multiple);
    if n != 1 {
      ScaleBound(n as real, extent / nominal, nominal);
    }
  }

  /** So many cells are a multiple, and none is narrower than requested. */
  predicate WideEnough(k: nat, extent: real, nominal: real, multiple: nat)
    requires 0 < multiple
  {
    k % multiple == 0 && k as real * nominal <= extent
  }

  /** The largest number of cells that are wide enough, or one. */
  ghost predicate IsFinest(n: nat, extent: real, nominal: real, multiple: nat)
    requires 0 < multiple
  {
    && (n == 1 || WideEnough(n, extent, nominal, multiple))
    && forall k: nat :: WideEnough(k, extent, nominal, multiple) ==> k <= n
  }

  lemma CellsAreFinest(extent: real, nominal: real, multiple: nat)
    requires extent >= 0.0 && nominal > 0.0 && 0 < multiple
    ensures IsFinest(CellCount(extent, nominal, multiple), extent, nominal, multiple)
  {
    CellsWideEnough(extent, nominal, multiple);
    QuotientSign(extent, nominal);
    var (n, q) := (CellCount(extent, nominal, multiple), extent / nominal);
    assert q * nominal == extent;
    forall k: nat | WideEnough(k, extent, nominal, multiple) ensures k <= n {
      WideIsBounded(k, q, extent, nominal, multiple);
    }
  }

  lemma WideIsBounded(k: nat, q: real, extent: real, nominal: real, multiple: nat)
    requires 0 < multiple && nominal > 0.0 && q >= 0.0 && q * nominal == extent && WideEnough(k, extent, nominal, multiple)
    ensures k <= RoundDown(Truncated(q), multiple)
  {
    FactorBound(k as real, q, nominal);
    MultipleBound(k, q.Floor, multiple);
  }

  lemma FactorBound(a: real, b: real, c: real)
    requires a * c <= b * c && c > 0.0
    ensures a <= b
  {
    ProductOfPositive(a - b, c);
    assert (a - b) * c == a * c - b * c;
  }

  lemma ProductOfPositive(a: real, b: real)
    ensures a > 0.0 && b > 0.0 ==> a * b > 0.0
  {
  }

  lemma MultipleBound(k: nat, v: nat, m: nat)
    requires 0 < m && k % m == 0 && k <= v
    ensures k <= RoundDown(v, m)
  {
    DivOrder(k / m, 0, v / m, v % m, m);
    MulMonotone(k / m, v / m, m);
  }

  lemma ScaleBound(a: real, b: real, c: real)
    requires a <= b && c > 0.0
    ensures a * c <= b * c
  {
  }

  /** The dimensions of the cell list for box distances and a ghost layer per axis. */
  function ComputeDimensions(dist: Vec, ghostWidth: Vec, nominal: real, multiple: nat, twoD: bool): (g: Indexer)
    requires NonNegative(dist) && NonNegative(ghostWidth) && nominal > 0.0 && 0 < multiple
    ensures g.Valid() && (twoD ==> g.d == 1)
  {
    Indexer(CellCount(dist.x + 2.0 * ghostWidth.x, nominal, multiple),
            CellCount(dist.y + 2.0 * ghostWidth.y, nominal, multiple),
            if twoD then 1 else CellCount(dist.z + 2.0 * ghostWidth.z, nominal, multiple))
  }

  /** Along every axis the cell list has as many cells as the box and its ghost layer allow. */
  lemma DimensionsAreFinest(dist: Vec, ghostWidth: Vec, nominal: real, multiple: nat, twoD: bool)
    requires NonNegative(dist) && NonNegative(ghostWidth) && nominal > 0.0 && 0 < multiple
    ensures var g := ComputeDimensions(dist, ghostWidth, nominal, multiple, twoD);
      && IsFinest(g.w, dist.x + 2.0 * ghostWidth.x, nominal, multiple)
      && IsFinest(g.h, dist.y + 2.0 * ghostWidth.y, nominal, multiple)
      && (!twoD ==> IsFinest(g.d, dist.z + 2.0 * ghostWidth.z, nominal, multiple))
  {
    CellsAreFinest(dist.x + 2.0 * ghostWidth.x, nominal, multiple);
    CellsAreFinest(dist.y + 2.0 * ghostWidth.y, nominal, multiple);
    if !twoD {
      CellsAreFinest(dist.z + 2.0 * ghostWidth.z, nominal, multiple);
    }
  }

  predicate NonNegative(v: Vec) {
    v.x >= 0.0 && v.y >= 0.0 && v.z >= 0.0
  }

  // ----- binning ----------------------------------------------------------------------------

  const TOLERANCE := 0.00001

  predicate InTolerance(f: real) {
    -TOLERANCE <= f < 1.0 + TOLERANCE
  }

  /** A fraction measured in cells. */
  function Scaled(f: real, n: nat): real {
    f * n as real
  }

  /** The cell along one axis; on a periodic axis the upper end belongs to the first cell. */
  function AxisBin(f: real, n: nat, periodic: bool): int {
    var i := Truncated(Scaled(f, n));
    if i == n && periodic then 0 else i
  }

  /** A particle falls into a cell of the axis. */
  predicate AxisBinned(f: real, n: nat, periodic: bool) {
    InTolerance(f) && 0 <= AxisBin(f, n, periodic) < n
  }

  /**
  What falls into a cell of an axis: on a periodic axis everything up to the tolerance, below and above,
  that is less than a cell away, on an open axis nothing from the upper end on.
   */
  lemma BinnedExact(f: real, n: nat, periodic: bool)
    requires 0 < n
    ensures AxisBinned(f, n, periodic) <==> IsBinned(f, Scaled(f, n), n, periodic)
    ensures AxisBinned(f, n, periodic) && (f < 0.0 || f >= 1.0) ==> AxisBin(f, n, periodic) == 0
  {
    UnitOrder(f, n as real, Scaled(f, n));
    BinnedFrom(f, Scaled(f, n), n, periodic);
  }

  ghost predicate IsBinned(f: real, x: real, n: nat, periodic: bool) {
    -0.00001 <= f && -1.0 < x && if periodic then f < 1.00001 && x < n as real + 1.0 else f < 1.0
  }

  lemma BinnedFrom(f: real, x: real, n: nat, periodic: bool)
    requires 0 < n && (f < 1.0 <==> x < n as real) && (f < 0.0 <==> x < 0.0)
    ensures var i := if Truncated(x) == n && periodic then 0 else Truncated(x);
      && (InTolerance(f) && 0 <= i < n <==> IsBinned(f, x, n, periodic))
      && (InTolerance(f) && 0 <= i < n && (f < 0.0 || f >= 1.0) ==> i == 0)
  {
    TruncatedRange(x, n);
  }

  lemma UnitOrder(f: real, n: real, x: real)
    requires n > 0.0 && x == f * n
    ensures f < 1.0 <==> x < n
    ensures f < 0.0 <==> x < 0.0
  {
    assert f * n - n == (f - 1.0) * n;
    ProductOfPositive(1.0 - f, n);
    ProductOfPositive(-f, n);
    if f >= 1.0 {
      ProductSign(f - 1.0, n);
    }
    if f >= 0.0 {
      ProductSign(f, n);
    }
  }

  lemma TruncatedRange(x: real, n: nat)
    requires n > 0
    ensures 0 <= Truncated(x) <==> -1.0 < x
    ensures Truncated(x) < n <==> x < n as real
    ensures Truncated(x) == n <==> n as real <= x < n as real + 1.0
    ensures Truncated(x) == 0 <==> -1.0 < x < 1.0
  {
  }

  /** Fractions are closer than `rho` cells, on a periodic axis through the boundary as well. */
  ghost predicate AxisClose(f1: real, f2: real, n: nat, periodic: bool, rho: real) {
    exists m: int :: (periodic || m == 0) && Apart(Scaled(f1, n), Scaled(f2, n), m, n, rho)
  }

  ghost predicate Apart(a: real, b: real, m: int, n: nat, rho: real) {
    -rho < a - b - (m * n) as real < rho
  }

  /** A binned particle at or above the lower end is in the cell of its floor, around the ring. */
  lemma BinIsFloor(f: real, n: nat, periodic: bool) returns (turns: int)
    requires f >= 0.0 && 0 < n && AxisBinned(f, n, periodic)
    ensures Scaled(f, n).Floor == AxisBin(f, n, periodic) + turns * n
    ensures turns == 0 || (turns == 1 && periodic && AxisBin(f, n, periodic) == 0)
  {
    ProductSign(f, n as real);
    turns := if Truncated(Scaled(f, n)) == n && periodic then 1 else 0;
  }

  lemma FloorsClose(a: real, b: real, m: int, n: nat, rho: real, r: nat)
    requires Apart(a, b, m, n, rho) && rho <= r as real
    ensures a.Floor - b.Floor - m * n <= r && b.Floor - a.Floor + m * n <= r
  {
  }

  /** Cells a few turns and at most `r` steps apart are near. */
  lemma NearByTurns(i: int, j: int, t: int, n: nat, r: nat)
    requires 0 < n && i - j - t * n <= r && j - i + t * n <= r
    ensures Near(i, j, r, n)
  {
    var d := i - j - t * n;
    if d >= 0 {
      ResidueAtMost(i - j, t, d, n);
    } else {
      assert j - i == (-t) * n + (-d);
      ResidueAtMost(j - i, -t, -d, n);
    }
  }

  lemma ResidueAtMost(x: int, t: int, d: nat, n: nat)
    requires 0 < n && x == t * n + d
    ensures x % n <= d
  {
    var (q, r) := (d / n, d % n);
    assert d == q * n + r;
    assert x == (t + q) * n + r;
    ModIs(x, t + q, r, n);
  }

  /** Particles closer than the radius are in cells at most `r` steps apart. */
  lemma CloseIsNear(f1: real, f2: real, n: nat, periodic: bool, rho: real, r: nat)
    requires 0 < n && f1 >= 0.0 && f2 >= 0.0 && AxisBinned(f1, n, periodic) && AxisBinned(f2, n, periodic)
    requires rho <= r as real && AxisClose(f1, f2, n, periodic, rho)
    ensures Near(AxisBin(f1, n, periodic), AxisBin(f2, n, periodic), r, n)
  {
    var m: int :| (periodic || m == 0) && Apart(Scaled(f1, n), Scaled(f2, n), m, n, rho);
    FloorsClose(Scaled(f1, n), Scaled(f2, n), m, n, rho, r);
    var t1 := BinIsFloor(f1, n, periodic);
    var t2 := BinIsFloor(f2, n, periodic);
    var (i, j) := (AxisBin(f1, n, periodic), AxisBin(f2, n, periodic));
    TurnsAdd(i, j, t1, t2, m, n);
    NearByTurns(i, j, m - t1 + t2, n, r);
  }

  lemma TurnsAdd(i: int, j: int, t1: int, t2: int, m: int, n: int)
    ensures i - j - (m - t1 + t2) * n == (i + t1 * n) - (j + t2 * n) - m * n
  {
  }

  /** The radius measured in cells along an axis. */
  function RadiusInCells(r: nat, nominal: real, n: nat, extent: real): real
    requires extent > 0.0
  {
    r as real * nominal * n as real / extent
  }

  lemma RadiusFits(r: nat, nominal: real, multiple: nat, extent: real)
    requires extent > 0.0 && nominal > 0.0 && 0 < multiple
    ensures var n := CellCount(extent, nominal, multiple); n == 1 || RadiusInCells(r, nominal, n, extent) <= r as real
  {
    var n := CellCount(extent, nominal, multiple);
    CellsWideEnough(extent, nominal, multiple);
    if n != 1 {
      var w := n as real * nominal;
      assert r as real * nominal * n as real == r as real * w;
      ScaleBound(w, extent, 1.0);
      RatioBound(r as real, w, extent);
    }
  }

  lemma RatioBound(r: real, w: real, extent: real)
    requires r >= 0.0 && w <= extent && extent > 0.0
    ensures r * w / extent <= r
  {
    var q := r * w / extent;
    assert q * extent == r * w;
    ProductSign(r, extent - w);
    assert (r - q) * extent >= 0.0;
    FactorSign(r - q, extent);
  }

  // ----- one axis ---------------------------------------------------------------------------

  /** A particle slightly below the lower end is put into the first cell, not into the last. */
  lemma BelowIsFirstCell(f: real, n: nat, periodic: bool)
    requires 0 < n && f < 0.0 && AxisBinned(f, n, periodic)
    ensures AxisBin(f, n, periodic) == 0 && -1.0 < Scaled(f, n) < 0.0
  {
    StrictProduct(-f, n as real);
    assert Scaled(-f, n) == -Scaled(f, n);
  }

  /**
  On a periodic axis one particle is below the lower end and the other more than `r` cells from
  both ends.
   */
  predicate Misplaced(f: real, other: real, n: nat, r: nat) {
    f < 0.0 && (r + 1) as real <= Scaled(other, n) < n as real - r as real
  }

  /** From the first cell, exactly the cells up to `r` from either end are near. */
  lemma NearFirst(j: nat, n: nat, r: nat)
    requires j < n
    ensures Near(0, j, r, n) <==> j <= r || n - j <= r
    ensures Near(j, 0, r, n) <==> j <= r || n - j <= r
  {
    ResidueOfSmall(j, n);
    Opposed(0, j, n, 0, j);
  }

  /** What a particle below the lower end of a periodic axis has near itself, exactly. */
  lemma BelowNear(f1: real, f2: real, n: nat, r: nat)
    requires 0 < n && f1 < 0.0 && AxisBinned(f1, n, true) && AxisBinned(f2, n, true)
    ensures Near(AxisBin(f1, n, true), AxisBin(f2, n, true), r, n) <==> !Misplaced(f1, f2, n, r)
    ensures Near(AxisBin(f2, n, true), AxisBin(f1, n, true), r, n) <==> !Misplaced(f1, f2, n, r)
  {
    BelowIsFirstCell(f1, n, true);
    var j := AxisBin(f2, n, true);
    NearFirst(j, n, r);
    if f2 < 0.0 {
      BelowIsFirstCell(f2, n, true);
    } else {
      var turns := BinIsFloor(f2, n, true);
      FloorWithin(Scaled(f2, n), r + 1, n - r);
    }
  }

  lemma FloorWithin(b: real, lo: int, hi: int)
    ensures lo as real <= b < hi as real <==> lo <= b.Floor < hi
  {
  }

  /** Below the lower end of an axis that is not periodic nothing is lost. */
  lemma BelowNonperiodic(f1: real, f2: real, n: nat, rho: real, r: nat)
    requires 0 < n && f1 < 0.0 && AxisBinned(f1, n, false) && AxisBinned(f2, n, false)
    requires rho <= r as real && AxisClose(f1, f2, n, false, rho)
    ensures Near(AxisBin(f1, n, false), AxisBin(f2, n, false), r, n)
    ensures Near(AxisBin(f2, n, false), AxisBin(f1, n, false), r, n)
  {
    BelowIsFirstCell(f1, n, false);
    NearFirst(AxisBin(f2, n, false), n, r);
    assert Apart(Scaled(f1, n), Scaled(f2, n), 0, n, rho);
    if f2 < 0.0 {
      BelowIsFirstCell(f2, n, false);
    } else {
      var turns := BinIsFloor(f2, n, false);
      assert Scaled(f2, n) < r as real;
    }
  }

  lemma CloseIsMutual(f1: real, f2: real, n: nat, periodic: bool, rho: real)
    requires AxisClose(f1, f2, n, periodic, rho)
    ensures AxisClose(f2, f1, n, periodic, rho)
  {
    var m: int :| (periodic || m == 0) && Apart(Scaled(f1, n), Scaled(f2, n), m, n, rho);
    assert ((-m) * n) as real == -((m * n) as real);
    assert Apart(Scaled(f2, n), Scaled(f1, n), -m, n, rho);
  }

  /** One of two particles is misplaced with respect to the other. */
  predicate AxisLost(f1: real, f2: real, n: nat, periodic: bool, r: nat) {
    periodic && (Misplaced(f1, f2, n, r) || Misplaced(f2, f1, n, r))
  }

  /** Along one axis, exactly: close particles are near unless one of them is misplaced. */
  lemma AxisExact(f1: real, f2: real, n: nat, periodic: bool, rho: real, r: nat)
    requires 0 < n && AxisBinned(f1, n, periodic) && AxisBinned(f2, n, periodic)
    requires n == 1 || (rho <= r as real && AxisClose(f1, f2, n, periodic, rho))
    ensures Near(AxisBin(f1, n, periodic), AxisBin(f2, n, periodic), r, n) <==> !AxisLost(f1, f2, n, periodic, r)
  {
    if n == 1 {
      NearFirst(0, n, r);
    } else if f1 >= 0.0 && f2 >= 0.0 {
      CloseIsNear(f1, f2, n, periodic, rho, r);
    } else if periodic {
      if f1 < 0.0 {
        BelowNear(f1, f2, n, r);
        NotBothBelow(f1, f2, n, r);
      } else {
        BelowNear(f2, f1, n, r);
      }
    } else if f1 < 0.0 {
      BelowNonperiodic(f1, f2, n, rho, r);
    } else {
      CloseIsMutual(f1, f2, n, periodic, rho);
      BelowNonperiodic(f2, f1, n, rho, r);
    }
  }

  lemma NotBothBelow(f1: real, f2: real, n: nat, r: nat)
    requires f1 < 0.0 && 0 < n
    ensures !Misplaced(f2, f1, n, r)
  {
    StrictProduct(-f1, n as real);
    assert Scaled(-f1, n) == -Scaled(f1, n);
  }

  // ----- all axes ---------------------------------------------------------------------------

  /**
  What fixes the cell list: the box with the distances of its planes, the width of the ghost layer
  as the communicator knows it (zero without one), nominal width, multiple and dimensionality.
   */
  datatype CellSetup = CellSetup(box: Box, dist: Vec, layer: real, nominal: real, multiple: nat, twoD: bool) {
    ghost predicate Valid() {
      && box.lo.x < box.hi.x && box.lo.y < box.hi.y && box.lo.z <= box.hi.z && (box.lo.z < box.hi.z || twoD)
      && dist.x > 0.0 && dist.y > 0.0 && dist.z > 0.0 && nominal > 0.0 && 0 < multiple
    }

    /** The ghost layer along every axis; only axes that are not periodic have one. */
    function GhostWidth(): (w: Vec)
      ensures IsLayer(box.periodic, w)
    {
      var width := if layer > 0.0 then layer else 0.0;
      Vec(if box.periodic.x then 0.0 else width, if box.periodic.y then 0.0 else width,
          if box.periodic.z || twoD then 0.0 else width)
    }

    /** The dimensions that go with a ghost layer. */
    function DimensionsWith(ghostWidth: Vec): (g: Indexer)
      requires Valid() && NonNegative(ghostWidth)
      ensures g.Valid() && (twoD ==> g.d == 1)
    {
      ComputeDimensions(dist, ghostWidth, nominal, multiple, twoD)
    }

    function Dimensions(): (g: Indexer)
      requires Valid()
      ensures g.Valid() && (twoD ==> g.d == 1)
    {
      DimensionsWith(GhostWidth())
    }

    /** The position as a fraction of the box; a flat box has fraction zero along z. */
    function BoxFraction(v: Vec): Vec
      requires Valid()
    {
      var (u, l) := (box.Untilted(v), box.L());
      Vec(u.x / l.x, u.y / l.y, if l.z == 0.0 then 0.0 else u.z / l.z)
    }

    /** The position as a fraction of the box and a ghost layer around it. */
    function Fraction(v: Vec, ghostWidth: Vec): Vec
      requires Valid() && NonNegative(ghostWidth)
    {
      var f := BoxFraction(v);
      Vec(WithLayer(f.x, ghostWidth.x, dist.x), WithLayer(f.y, ghostWidth.y, dist.y), WithLayer(f.z, ghostWidth.z, dist.z))
    }
  }

  /** The layer on the sides of an axis: only open sides have one. */
  function AxisLayer(layer: real, periodic: bool): (w: real)
    ensures w >= 0.0
  {
    if periodic || layer <= 0.0 then 0.0 else layer
  }

  lemma LayerPerAxis(s: CellSetup)
    ensures s.GhostWidth() == Vec(AxisLayer(s.layer, s.box.periodic.x), AxisLayer(s.layer, s.box.periodic.y),
                                  if s.twoD then 0.0 else AxisLayer(s.layer, s.box.periodic.z))
  {
  }

  /** The grid has as many cells as fit into the box and the layer around its open sides. */
  lemma SetupIsFinest(s: CellSetup)
    requires s.Valid()
    ensures var g := s.Dimensions();
      && IsFinest(g.w, s.dist.x + 2.0 * AxisLayer(s.layer, s.box.periodic.x), s.nominal, s.multiple)
      && IsFinest(g.h, s.dist.y + 2.0 * AxisLayer(s.layer, s.box.periodic.y), s.nominal, s.multiple)
      && (if s.twoD then g.d == 1 else IsFinest(g.d, s.dist.z + 2.0 * AxisLayer(s.layer, s.box.periodic.z), s.nominal, s.multiple))
  {
    DimensionsAreFinest(s.dist, s.GhostWidth(), s.nominal, s.multiple, s.twoD);
  }

  /** At most the layer away from the box along an axis, measured between the planes. */
  ghost predicate InLayer(f: real, dist: real, w: real) {
    -w <= dist * f < dist + w
  }

  /** Whatever is in the box or in the layer around its open sides falls into a cell. */
  lemma LayerIsBinned(s: CellSetup, v: Vec)
    requires s.Valid()
    requires var f := s.BoxFraction(v);
      && InLayer(f.x, s.dist.x, AxisLayer(s.layer, s.box.periodic.x)) && InLayer(f.y, s.dist.y, AxisLayer(s.layer, s.box.periodic.y))
      && InLayer(f.z, s.dist.z, if s.twoD then 0.0 else AxisLayer(s.layer, s.box.periodic.z))
    ensures Binned(s.Fraction(v, s.GhostWidth()), s.Dimensions(), s.box.periodic)
  {
    LayerPerAxis(s);
    AxesInLayer(s.BoxFraction(v), s.dist, s.GhostWidth(), s.Dimensions(), s.box.periodic);
  }

  lemma AxesInLayer(f: Vec, dist: Vec, w: Vec, g: Indexer, periodic: Periodic)
    requires dist.x > 0.0 && dist.y > 0.0 && dist.z > 0.0 && NonNegative(w) && g.Valid()
    requires InLayer(f.x, dist.x, w.x) && InLayer(f.y, dist.y, w.y) && InLayer(f.z, dist.z, w.z)
    ensures Binned(Vec(WithLayer(f.x, w.x, dist.x), WithLayer(f.y, w.y, dist.y), WithLayer(f.z, w.z, dist.z)), g, periodic)
  {
    AxisInLayer(f.x, dist.x, w.x, g.w, periodic.x);
    AxisInLayer(f.y, dist.y, w.y, g.h, periodic.y);
    AxisInLayer(f.z, dist.z, w.z, g.d, periodic.z);
  }

  lemma AxisInLayer(f: real, dist: real, w: real, n: nat, periodic: bool)
    requires dist > 0.0 && w >= 0.0 && n > 0 && InLayer(f, dist, w)
    ensures AxisBinned(WithLayer(f, w, dist), n, periodic)
  {
    QuotientSign(w, dist);
    var q := w / dist;
    assert q * dist == w;
    FactorBound(-q, f, dist);
    StrictFactor(f, 1.0 + q, dist);
    var g := WithLayer(f, w, dist);
    QuotientRange(f + q, 1.0 + 2.0 * q, g);
    UnitIsBinned(g, n, periodic);
  }

  lemma StrictFactor(a: real, b: real, c: real)
    requires a * c < b * c && c > 0.0
    ensures a < b
  {
    ProductOrder(b, a, c);
  }

  lemma ProductOrder(a: real, b: real, c: real)
    ensures a <= b && c > 0.0 ==> a * c <= b * c
  {
    if a <= b && c > 0.0 {
      ScaleBound(a, b, c);
    }
  }

  lemma QuotientRange(a: real, b: real, q: real)
    requires 0.0 <= a < b && q == a / b
    ensures 0.0 <= q < 1.0
  {
    assert q * b == a;
    FactorSign(q, b);
    StrictFactor(q, 1.0, b);
  }

  lemma UnitIsBinned(g: real, n: nat, periodic: bool)
    requires 0.0 <= g < 1.0 && n > 0
    ensures AxisBinned(g, n, periodic)
  {
    ProductSign(g, n as real);
    StrictProduct(1.0 - g, n as real);
    assert Scaled(g, n) < n as real;
  }

  /** The distances between opposite faces of the box, as the roots they are. */
  ghost predicate ArePlaneDistances(box: Box, dist: Vec) {
    && PlanesXY(box.L().x, box.L().y, box.xy, box.xz, box.yz, dist.x, dist.y)
    && dist.z == (if box.L().z == 0.0 then 1.0 else box.L().z)
  }

  ghost predicate PlanesXY(lx: real, ly: real, xy: real, xz: real, yz: real, distX: real, distY: real) {
    IsPlaneDistance(distX, 1.0 + Square(xy) + Square(xy * yz - xz), lx) && IsPlaneDistance(distY, 1.0 + Square(yz), ly)
  }

  /** A distance that is `l` divided by the root of `nn`. */
  ghost predicate IsPlaneDistance(dist: real, nn: real, l: real) {
    Square(dist) * nn == Square(l)
  }

  /** A fraction of the box turned into a fraction of the box and its ghost layer. */
  function WithLayer(f: real, ghostWidth: real, dist: real): real
    requires ghostWidth >= 0.0 && dist > 0.0
  {
    QuotientSign(ghostWidth, dist);
    (f + ghostWidth / dist) / (1.0 + 2.0 * (ghostWidth / dist))
  }

  /** A ghost layer: only axes that are not periodic have one. */
  predicate IsLayer(periodic: Periodic, w: Vec) {
    NonNegative(w) && (periodic.x ==> w.x == 0.0) && (periodic.y ==> w.y == 0.0) && (periodic.z ==> w.z == 0.0)
  }

  /** A particle at these fractions falls into a cell. */
  predicate Binned(f: Vec, g: Indexer, periodic: Periodic) {
    AxisBinned(f.x, g.w, periodic.x) && AxisBinned(f.y, g.h, periodic.y) && AxisBinned(f.z, g.d, periodic.z)
  }

  function Bin(f: Vec, g: Indexer, periodic: Periodic): (c: Cell)
    requires Binned(f, g, periodic)
    ensures g.Contains(c)
  {
    Cell(AxisBin(f.x, g.w, periodic.x), AxisBin(f.y, g.h, periodic.y), AxisBin(f.z, g.d, periodic.z))
  }

  function Minus(a: Vec, b: Vec): Vec {
    Vec(a.x - b.x, a.y - b.y, a.z - b.z)
  }

  function Dot(a: Vec, b: Vec): real {
    a.x * b.x + a.y * b.y + a.z * b.z
  }

  /** Closer than `radius`, for some image of the second particle through the periodic boundaries. */
  ghost predicate WithinRadius(box: Box, v1: Vec, v2: Vec, radius: real) {
    exists img: Image :: ImageAllowed(box.periodic, img) && Closer(v1, box.Shift(v2, img), radius)
  }

  predicate ImageAllowed(periodic: Periodic, img: Image) {
    (periodic.x || img.x == 0) && (periodic.y || img.y == 0) && (periodic.z || img.z == 0)
  }

  predicate Closer(a: Vec, b: Vec, radius: real) {
    Dot(Minus(a, b), Minus(a, b)) < Square(radius)
  }

  /** The square of a component along a direction is at most the product of the squares. */
  lemma CauchySchwarz(a: Vec, b: Vec)
    ensures Square(Dot(a, b)) <= Dot(a, a) * Dot(b, b)
  {
    var c := Vec(a.y * b.z - a.z * b.y, a.z * b.x - a.x * b.z, a.x * b.y - a.y * b.x);
    LagrangeIdentity(a, b, c);
    SquareSign(c.x);
    SquareSign(c.y);
    SquareSign(c.z);
  }

  lemma LagrangeIdentity(a: Vec, b: Vec, c: Vec)
    requires c == Vec(a.y * b.z - a.z * b.y, a.z * b.x - a.x * b.z, a.x * b.y - a.y * b.x)
    ensures Dot(a, b) * Dot(a, b) + Dot(c, c) == Dot(a, a) * Dot(b, b)
  {
  }

  /** The inner product with a face normal of the box is the untilted coordinate. */
  function NormalX(box: Box): Vec {
    Vec(1.0, -box.xy, -(box.xz - box.yz * box.xy))
  }

  function NormalY(box: Box): Vec {
    Vec(0.0, 1.0, -box.yz)
  }

  /** How far apart two particles are along a normal, one of them moved by whole images. */
  lemma DifferenceX(box: Box, v1: Vec, v2: Vec, img: Image)
    ensures Dot(NormalX(box), Minus(v1, box.Shift(v2, img)))
            == box.Untilted(v1).x - box.Untilted(v2).x - img.x as real * box.L().x
  {
    var l := box.L();
    ShiftByLengths(box, v2, img);
    TiltedShift(box, v1, v2, img.x as real * l.x, img.y as real * l.y, img.z as real * l.z);
  }

  lemma DifferenceY(box: Box, v1: Vec, v2: Vec, img: Image)
    ensures Dot(NormalY(box), Minus(v1, box.Shift(v2, img)))
            == box.Untilted(v1).y - box.Untilted(v2).y - img.y as real * box.L().y
  {
    var l := box.L();
    ShiftByLengths(box, v2, img);
    TiltedShift(box, v1, v2, img.x as real * l.x, img.y as real * l.y, img.z as real * l.z);
  }

  lemma ShiftByLengths(box: Box, v: Vec, img: Image)
    ensures var (i, j, k) := (img.x as real * box.L().x, img.y as real * box.L().y, img.z as real * box.L().z);
      box.Shift(v, img) == Vec(v.x + i + j * box.xy + k * box.xz, v.y + j + k * box.yz, v.z + k)
  {
    var l := box.L();
    Reassociate(img.y as real, l.y, box.xy);
    Reassociate(img.z as real, l.z, box.xz);
    Reassociate(img.z as real, l.z, box.yz);
    assert Scale(img.x as real, box.LatticeVector(0)) == Vec(img.x as real * l.x, 0.0, 0.0);
    assert Scale(img.y as real, box.LatticeVector(1)) == Vec(img.y as real * l.y * box.xy, img.y as real * l.y, 0.0);
    assert Scale(img.z as real, box.LatticeVector(2))
        == Vec(img.z as real * l.z * box.xz, img.z as real * l.z * box.yz, img.z as real * l.z);
  }

  lemma Reassociate(a: real, b: real, c: real)
    ensures a * (b * c) == a * b * c
  {
  }

  lemma TiltedShift(box: Box, v1: Vec, v2: Vec, i: real, j: real, k: real)
    ensures var d := Minus(v1, Vec(v2.x + i + j * box.xy + k * box.xz, v2.y + j + k * box.yz, v2.z + k));
      && Dot(NormalX(box), d) == box.Untilted(v1).x - box.Untilted(v2).x - i
      && Dot(NormalY(box), d) == box.Untilted(v1).y - box.Untilted(v2).y - j
  {
  }

  /** A distance between planes bounds how far apart fractions can be. */
  lemma AxisDistance(dist: real, l: real, nn: real, delta: real, dd: real, radius: real)
    requires l > 0.0 && dist > 0.0 && radius >= 0.0 && Square(dist) * nn == Square(l)
    requires Square(l * delta) <= nn * dd && dd < Square(radius)
    ensures -radius < dist * delta < radius
  {
    SquarePositive(dist);
    SquarePositive(l);
    SquaresOut(l, delta);
    SquaresOut(dist, delta);
    DivideSquares(Square(dist), Square(l), nn, Square(delta), dd);
    SquareBound(dist * delta, radius);
  }

  lemma SquarePositive(a: real)
    requires a > 0.0
    ensures Square(a) > 0.0
  {
    assert (a * a) / a == a;
  }

  lemma SquaresOut(a: real, b: real)
    ensures Square(a * b) == Square(a) * Square(b)
  {
  }

  lemma DivideSquares(q: real, ll: real, nn: real, e: real, dd: real)
    requires q > 0.0 && ll > 0.0 && q * nn == ll && ll * e <= nn * dd
    ensures q * e <= dd
  {
    ScaleBound(ll * e, nn * dd, q);
    assert nn * dd * q == ll * dd && ll * e * q == ll * (q * e);
    assert (dd - q * e) * ll >= 0.0;
    FactorSign(dd - q * e, ll);
  }

  lemma SquareBound(p: real, radius: real)
    requires radius >= 0.0 && Square(p) < Square(radius)
    ensures -radius < p < radius
  {
    if p >= radius {
      ProductSign(p - radius, p + radius);
    } else if p <= -radius {
      ProductSign(-p - radius, radius - p);
    }
  }

  /** The ghost layer stretches distances as it shrinks fractions. */
  lemma LayerKeepsDistance(f1: real, f2: real, m: int, ghostWidth: real, dist: real)
    requires ghostWidth >= 0.0 && dist > 0.0 && (ghostWidth == 0.0 || m == 0)
    ensures (dist + 2.0 * ghostWidth) * (WithLayer(f1, ghostWidth, dist) - WithLayer(f2, ghostWidth, dist) - m as real)
            == dist * (f1 - f2 - m as real)
  {
    var q := ghostWidth / dist;
    QuotientSign(ghostWidth, dist);
    var (g1, g2) := (WithLayer(f1, ghostWidth, dist), WithLayer(f2, ghostWidth, dist));
    assert q * dist == ghostWidth;
    assert g1 * (1.0 + 2.0 * q) == f1 + q && g2 * (1.0 + 2.0 * q) == f2 + q;
    Stretch(g1, g2, f1, f2, q, dist);
    assert dist + 2.0 * ghostWidth == (1.0 + 2.0 * q) * dist;
    if m != 0 {
      assert q == 0.0;
    }
  }

  lemma Stretch(g1: real, g2: real, f1: real, f2: real, q: real, dist: real)
    requires g1 * (1.0 + 2.0 * q) == f1 + q && g2 * (1.0 + 2.0 * q) == f2 + q
    ensures ((1.0 + 2.0 * q) * dist) * (g1 - g2) == dist * (f1 - f2)
  {
    assert (g1 - g2) * (1.0 + 2.0 * q) == f1 - f2;
  }

  /** Along an axis, fractions are closer than a radius. */
  predicate PlaneClose(dist: real, f1: real, f2: real, m: int, radius: real) {
    -radius < dist * (f1 - f2 - m as real) < radius
  }

  /** Particles whose planes are closer than the radius are close in cells. */
  lemma AxisWithin(f1: real, f2: real, m: int, ghostWidth: real, dist: real, periodic: bool, n: nat, r: nat, nominal: real)
    requires ghostWidth >= 0.0 && dist > 0.0 && (if periodic then ghostWidth == 0.0 else m == 0) && 0 < n && nominal > 0.0
    requires PlaneClose(dist, f1, f2, m, r as real * nominal)
    ensures AxisClose(WithLayer(f1, ghostWidth, dist), WithLayer(f2, ghostWidth, dist), n, periodic,
                      RadiusInCells(r, nominal, n, dist + 2.0 * ghostWidth))
  {
    LayerKeepsDistance(f1, f2, m, ghostWidth, dist);
    ApartInCells(WithLayer(f1, ghostWidth, dist), WithLayer(f2, ghostWidth, dist), m, dist + 2.0 * ghostWidth, n, r, nominal);
  }

  lemma ApartInCells(g1: real, g2: real, m: int, e: real, n: nat, r: nat, nominal: real)
    requires e > 0.0 && 0 < n && -(r as real * nominal) < e * (g1 - g2 - m as real) < r as real * nominal
    ensures Apart(Scaled(g1, n), Scaled(g2, n), m, n, RadiusInCells(r, nominal, n, e))
  {
    InCells(r as real * nominal, g1 - g2 - m as real, n as real, e);
    ScaledDifference(g1, g2, m, n);
  }

  lemma ScaledDifference(g1: real, g2: real, m: int, n: nat)
    ensures Scaled(g1, n) - Scaled(g2, n) - (m * n) as real == n as real * (g1 - g2 - m as real)
  {
    assert (m * n) as real == m as real * n as real;
  }

  lemma InCells(radius: real, x: real, k: real, e: real)
    requires e > 0.0 && k > 0.0 && -radius < e * x < radius
    ensures -(radius * k / e) < k * x < radius * k / e
  {
    var q := radius * k / e;
    assert q * e == radius * k;
    StrictProduct(k, radius - e * x);
    StrictProduct(k, radius + e * x);
    assert (q - k * x) * e == k * (radius - e * x);
    assert (q + k * x) * e == k * (radius + e * x);
    PositiveFactor(q - k * x, e);
    PositiveFactor(q + k * x, e);
  }

  lemma PositiveFactor(q: real, b: real)
    requires q * b > 0.0 && b > 0.0
    ensures q > 0.0
  {
    if q <= 0.0 {
      ProductSign(-q, b);
    }
  }

  /** Particles within the radius are close along every axis of the grid. */
  lemma WithinIsClose(s: CellSetup, w: Vec, v1: Vec, v2: Vec, r: nat)
    requires s.Valid() && IsLayer(s.box.periodic, w) && ArePlaneDistances(s.box, s.dist) && WithinRadius(s.box, v1, v2, r as real * s.nominal)
    ensures var g := s.DimensionsWith(w);
      var (f1, f2) := (s.Fraction(v1, w), s.Fraction(v2, w));
      && AxisClose(f1.x, f2.x, g.w, s.box.periodic.x, RadiusInCells(r, s.nominal, g.w, s.dist.x + 2.0 * w.x))
      && AxisClose(f1.y, f2.y, g.h, s.box.periodic.y, RadiusInCells(r, s.nominal, g.h, s.dist.y + 2.0 * w.y))
      && (!s.twoD ==> AxisClose(f1.z, f2.z, g.d, s.box.periodic.z, RadiusInCells(r, s.nominal, g.d, s.dist.z + 2.0 * w.z)))
  {
    var img := PlanesClose(s, v1, v2, r as real * s.nominal) by {
      ProductSign(r as real, s.nominal);
    }
    var (b1, b2) := (s.BoxFraction(v1), s.BoxFraction(v2));
    CloseX(s, w, b1, b2, img.x, r);
    CloseY(s, w, b1, b2, img.y, r);
    if !s.twoD {
      CloseZ(s, w, b1, b2, img.z, r);
    }
  }

  lemma CloseX(s: CellSetup, w: Vec, b1: Vec, b2: Vec, m: int, r: nat)
    requires s.Valid() && IsLayer(s.box.periodic, w) && (s.box.periodic.x || m == 0)
    requires PlaneClose(s.dist.x, b1.x, b2.x, m, r as real * s.nominal)
    ensures AxisClose(WithLayer(b1.x, w.x, s.dist.x), WithLayer(b2.x, w.x, s.dist.x), s.DimensionsWith(w).w, s.box.periodic.x,
                      RadiusInCells(r, s.nominal, s.DimensionsWith(w).w, s.dist.x + 2.0 * w.x))
  {
    AxisWithin(b1.x, b2.x, m, w.x, s.dist.x, s.box.periodic.x, s.DimensionsWith(w).w, r, s.nominal);
  }

  lemma CloseY(s: CellSetup, w: Vec, b1: Vec, b2: Vec, m: int, r: nat)
    requires s.Valid() && IsLayer(s.box.periodic, w) && (s.box.periodic.y || m == 0)
    requires PlaneClose(s.dist.y, b1.y, b2.y, m, r as real * s.nominal)
    ensures AxisClose(WithLayer(b1.y, w.y, s.dist.y), WithLayer(b2.y, w.y, s.dist.y), s.DimensionsWith(w).h, s.box.periodic.y,
                      RadiusInCells(r, s.nominal, s.DimensionsWith(w).h, s.dist.y + 2.0 * w.y))
  {
    AxisWithin(b1.y, b2.y, m, w.y, s.dist.y, s.box.periodic.y, s.DimensionsWith(w).h, r, s.nominal);
  }

  lemma CloseZ(s: CellSetup, w: Vec, b1: Vec, b2: Vec, m: int, r: nat)
    requires s.Valid() && IsLayer(s.box.periodic, w) && !s.twoD && (s.box.periodic.z || m == 0)
    requires PlaneClose(s.dist.z, b1.z, b2.z, m, r as real * s.nominal)
    ensures AxisClose(WithLayer(b1.z, w.z, s.dist.z), WithLayer(b2.z, w.z, s.dist.z), s.DimensionsWith(w).d, s.box.periodic.z,
                      RadiusInCells(r, s.nominal, s.DimensionsWith(w).d, s.dist.z + 2.0 * w.z))
  {
    AxisWithin(b1.z, b2.z, m, w.z, s.dist.z, s.box.periodic.z, s.DimensionsWith(w).d, r, s.nominal);
  }

  /** Particles closer than a radius are so along the normal of every face. */
  lemma PlanesClose(s: CellSetup, v1: Vec, v2: Vec, radius: real) returns (img: Image)
    requires s.Valid() && ArePlaneDistances(s.box, s.dist) && radius >= 0.0 && WithinRadius(s.box, v1, v2, radius)
    ensures ImageAllowed(s.box.periodic, img)
    ensures PlaneClose(s.dist.x, s.BoxFraction(v1).x, s.BoxFraction(v2).x, img.x, radius)
    ensures PlaneClose(s.dist.y, s.BoxFraction(v1).y, s.BoxFraction(v2).y, img.y, radius)
    ensures !s.twoD ==> PlaneClose(s.dist.z, s.BoxFraction(v1).z, s.BoxFraction(v2).z, img.z, radius)
  {
    img :| ImageAllowed(s.box.periodic, img) && Closer(v1, s.box.Shift(v2, img), radius);
    PlaneX(s, v1, v2, img, radius);
    PlaneY(s, v1, v2, img, radius);
    if !s.twoD {
      PlaneZ(s, v1, v2, img, radius);
    }
  }

  lemma PlaneX(s: CellSetup, v1: Vec, v2: Vec, img: Image, radius: real)
    requires s.Valid() && ArePlaneDistances(s.box, s.dist) && radius >= 0.0 && Closer(v1, s.box.Shift(v2, img), radius)
    ensures PlaneClose(s.dist.x, s.BoxFraction(v1).x, s.BoxFraction(v2).x, img.x, radius)
  {
    DifferenceX(s.box, v1, v2, img);
    NormalSquares(s.box);
    AlongNormal(NormalX(s.box), Minus(v1, s.box.Shift(v2, img)), s.box.Untilted(v1).x, s.box.Untilted(v2).x, img.x,
                s.box.L().x, s.dist.x, radius);
  }

  lemma PlaneY(s: CellSetup, v1: Vec, v2: Vec, img: Image, radius: real)
    requires s.Valid() && ArePlaneDistances(s.box, s.dist) && radius >= 0.0 && Closer(v1, s.box.Shift(v2, img), radius)
    ensures PlaneClose(s.dist.y, s.BoxFraction(v1).y, s.BoxFraction(v2).y, img.y, radius)
  {
    DifferenceY(s.box, v1, v2, img);
    NormalSquares(s.box);
    AlongNormal(NormalY(s.box), Minus(v1, s.box.Shift(v2, img)), s.box.Untilted(v1).y, s.box.Untilted(v2).y, img.y,
                s.box.L().y, s.dist.y, radius);
  }

  lemma PlaneZ(s: CellSetup, v1: Vec, v2: Vec, img: Image, radius: real)
    requires s.Valid() && ArePlaneDistances(s.box, s.dist) && !s.twoD && radius >= 0.0 && Closer(v1, s.box.Shift(v2, img), radius)
    ensures PlaneClose(s.dist.z, s.BoxFraction(v1).z, s.BoxFraction(v2).z, img.z, radius)
  {
    var (box, d) := (s.box, Minus(v1, s.box.Shift(v2, img)));
    AlongUp(d, box.Untilted(v1).z, box.Untilted(v2).z, img.z, box.L().z, radius);
  }

  lemma AlongUp(d: Vec, a: real, b: real, m: int, l: real, radius: real)
    requires l > 0.0 && radius >= 0.0 && d.z == a - b - m as real * l && Dot(d, d) < Square(radius)
    ensures PlaneClose(l, a / l, b / l, m, radius)
  {
    LengthOut(a, b, m, l);
    SquareSign(d.x);
    SquareSign(d.y);
    SquareBound(d.z, radius);
  }

  lemma NormalSquares(box: Box)
    ensures Dot(NormalX(box), NormalX(box)) == 1.0 + Square(box.xy) + Square(box.xy * box.yz - box.xz)
    ensures Dot(NormalY(box), NormalY(box)) == 1.0 + Square(box.yz)
  {
  }

  lemma AlongNormal(normal: Vec, d: Vec, a: real, b: real, m: int, l: real, dist: real, radius: real)
    requires l > 0.0 && dist > 0.0 && radius >= 0.0 && IsPlaneDistance(dist, Dot(normal, normal), l)
    requires Dot(normal, d) == a - b - m as real * l && Dot(d, d) < Square(radius)
    ensures PlaneClose(dist, a / l, b / l, m, radius)
  {
    LengthOut(a, b, m, l);
    CauchySchwarz(normal, d);
    AxisDistance(dist, l, Dot(normal, normal), a / l - b / l - m as real, Dot(d, d), radius);
  }

  lemma LengthOut(a: real, b: real, m: int, l: real)
    requires l > 0.0
    ensures l * (a / l - b / l - m as real) == a - b - m as real * l
  {
    var (p, q) := (a / l, b / l);
    assert p * l == a && q * l == b;
  }

  /** One of two particles is misplaced along an axis. */
  predicate Lost(f1: Vec, f2: Vec, g: Indexer, periodic: Periodic, r: nat) {
    || AxisLost(f1.x, f2.x, g.w, periodic.x, r) || AxisLost(f1.y, f2.y, g.h, periodic.y, r)
    || AxisLost(f1.z, f2.z, g.d, periodic.z, r)
  }

  /**
  Particles closer than the search radius, through periodic boundaries as well, are in cells that
  list each other, for every triclinic box, every ghost layer and every pair that falls into cells,
  except exactly if along a periodic axis one of them is below the lower end and the other more than
  `r` cells from both ends.
   */
  lemma CloseAreNeighbors(s: CellSetup, w: Vec, v1: Vec, v2: Vec, r: nat)
    requires s.Valid() && IsLayer(s.box.periodic, w) && ArePlaneDistances(s.box, s.dist) && WithinRadius(s.box, v1, v2, r as real * s.nominal)
    requires Binned(s.Fraction(v1, w), s.DimensionsWith(w), s.box.periodic)
    requires Binned(s.Fraction(v2, w), s.DimensionsWith(w), s.box.periodic)
    ensures var (g, rz) := (s.DimensionsWith(w), if s.twoD then 0 else r);
      var (f1, f2) := (s.Fraction(v1, w), s.Fraction(v2, w));
      var (a, b) := (Bin(f1, g, s.box.periodic), Bin(f2, g, s.box.periodic));
      && (g.Index(b) in Neighbors(g, r, rz, a) <==> !Lost(f1, f2, g, s.box.periodic, r))
      && (g.Index(a) in Neighbors(g, r, rz, b) <==> !Lost(f1, f2, g, s.box.periodic, r))
  {
    var (g, rz, p) := (s.DimensionsWith(w), if s.twoD then 0 else r, s.box.periodic);
    var (f1, f2) := (s.Fraction(v1, w), s.Fraction(v2, w));
    var (a, b) := (Bin(f1, g, p), Bin(f2, g, p));
    WithinIsClose(s, w, v1, v2, r);
    SetupAxis(f1.x, f2.x, s.dist.x + 2.0 * w.x, s.nominal, s.multiple, p.x, r);
    SetupAxis(f1.y, f2.y, s.dist.y + 2.0 * w.y, s.nominal, s.multiple, p.y, r);
    if s.twoD {
      NearFirst(0, 1, 0);
    } else {
      SetupAxis(f1.z, f2.z, s.dist.z + 2.0 * w.z, s.nominal, s.multiple, p.z, r);
    }
    NeighborIffNear(g, r, rz, a, b);
    NeighborsAreSymmetric(g, r, rz, a, b);
  }

  lemma SetupAxis(f1: real, f2: real, extent: real, nominal: real, multiple: nat, periodic: bool, r: nat)
    requires extent > 0.0 && nominal > 0.0 && 0 < multiple
    requires var n := CellCount(extent, nominal, multiple);
      && AxisBinned(f1, n, periodic) && AxisBinned(f2, n, periodic)
      && AxisClose(f1, f2, n, periodic, RadiusInCells(r, nominal, n, extent))
    ensures var n := CellCount(extent, nominal, multiple);
      Near(AxisBin(f1, n, periodic), AxisBin(f2, n, periodic), r, n) <==> !AxisLost(f1, f2, n, periodic, r)
  {
    var n := CellCount(extent, nominal, multiple);
    RadiusFits(r, nominal, multiple, extent);
    AxisExact(f1, f2, n, periodic, RadiusInCells(r, nominal, n, extent), r);
  }

  // ----- below the lower end ----------------------------------------------------------------

  /** A position in cell n - r - 1 that is closer than `rho` to `a` but r + 1 cells from the first. */
  lemma BelowMisses(a: real, n: nat, rho: real, r: nat) returns (f: real)
    requires 2 * r + 1 < n && 1 <= r && -1.0 < a <= 0.0 && rho > r as real + a && rho <= r as real
    ensures 0.0 <= f < 1.0 && Apart(a, Scaled(f, n), -1, n, rho) && Scaled(f, n).Floor == n - r - 1
  {
    var lo := if a - rho > -(r as real + 1.0) then a - rho else -(r as real + 1.0);
    var b := (lo + -(r as real)) / 2.0 + n as real;
    f := b / n as real;
    assert Scaled(f, n) == b;
    assert n as real - r as real - 1.0 < b < n as real - r as real;
    UnitFraction(f, b, n as real);
    assert ((-1) * n) as real == -(n as real);
  }

  lemma UnitFraction(f: real, b: real, n: real)
    requires f * n == b && 0.0 <= b < n
    ensures 0.0 <= f < 1.0
  {
    FactorSign(f, n);
    if f >= 1.0 {
      ProductSign(f - 1.0, n);
    }
  }

  /** Wide cells make up for the wrong cell. */
  lemma WideCellsSuffice(f1: real, f2: real, n: nat, rho: real, r: nat)
    requires 2 * r + 1 < n && f1 < 0.0 && AxisBinned(f1, n, true) && AxisBinned(f2, n, true)
    requires AxisClose(f1, f2, n, true, rho) && rho <= r as real + Scaled(f1, n)
    ensures !Misplaced(f1, f2, n, r)
  {
    BelowIsFirstCell(f1, n, true);
    var (a, b) := (Scaled(f1, n), Scaled(f2, n));
    var m: int :| (true || m == 0) && Apart(a, b, m, n, rho);
    TurnsLength(m, n);
  }

  lemma TurnsLength(m: int, n: nat)
    ensures if m >= 0 then (m * n) as real >= 0.0 else (m * n) as real <= -(n as real)
  {
  }

  /**
  The exact limit of the neighbour lists for a particle in the tolerance zone below a periodic box:
  all particles within the radius that fall into cells are in listed cells if and only if the radius
  is zero, the ring is so small that everything is listed, or the cells are wide enough to make up
  for the wrong cell.
   */
  lemma BelowExact(f1: real, n: nat, rho: real, r: nat)
    requires 0 < n && f1 < 0.0 && AxisBinned(f1, n, true) && (n == 1 || rho <= r as real)
    ensures (forall f2 :: AxisBinned(f2, n, true) && AxisClose(f1, f2, n, true, rho) ==>
               Near(AxisBin(f1, n, true), AxisBin(f2, n, true), r, n))
       <==> rho <= 0.0 || n <= 2 * r + 1 || rho <= r as real + Scaled(f1, n)
  {
    BelowIsFirstCell(f1, n, true);
    forall f2 | AxisBinned(f2, n, true)
      ensures Near(AxisBin(f1, n, true), AxisBin(f2, n, true), r, n) <==> !Misplaced(f1, f2, n, r)
    {
      BelowNear(f1, f2, n, r);
    }
    if rho <= 0.0 || n <= 2 * r + 1 {
    } else if rho <= r as real + Scaled(f1, n) {
      forall f2 | AxisBinned(f2, n, true) && AxisClose(f1, f2, n, true, rho) ensures !Misplaced(f1, f2, n, r) {
        WideCellsSuffice(f1, f2, n, rho, r);
      }
    } else {
      var f2 := BelowMisses(Scaled(f1, n), n, rho, r);
      InsideBin(f2, n);
      FloorWithin(Scaled(f2, n), r + 1, n - r);
      assert AxisClose(f1, f2, n, true, rho);
      assert AxisBinned(f2, n, true) && Misplaced(f1, f2, n, r);
    }
  }

  /** With ten cells of exactly the nominal width, such a particle does miss neighbours. */
  lemma BelowHappens() returns (f2: real)
    ensures var f1 := -0.000005;
      && AxisBinned(f1, 10, true) && AxisBinned(f2, 10, true) && AxisClose(f1, f2, 10, true, 1.0)
      && !Near(AxisBin(f1, 10, true), AxisBin(f2, 10, true), 1, 10)
  {
    var f1 := -0.000005;
    assert Scaled(f1, 10) == -0.00005;
    BelowExact(f1, 10, 1.0, 1);
    f2 :| AxisBinned(f2, 10, true) && AxisClose(f1, f2, 10, true, 1.0) && !Near(AxisBin(f1, 10, true), AxisBin(f2, 10, true), 1, 10);
  }

  lemma ResidueOfSmall(x: nat, n: nat)
    requires x < n
    ensures x % n == x
  {
  }

  lemma InsideBin(f: real, n: nat)
    requires 0.0 <= f < 1.0 && 0 < n
    ensures AxisBin(f, n, true) == Scaled(f, n).Floor && AxisBinned(f, n, true)
  {
    ProductSign(f, n as real);
    assert Scaled(f, n) < n as real by {
      StrictProduct(1.0 - f, n as real);
    }
  }

  lemma StrictProduct(a: real, b: real)
    requires a > 0.0 && b > 0.0
    ensures a * b > 0.0
  {
  }
}
