/**
Stencils: for every type the offsets to all cells that may hold particles within its radius. On a
periodic axis an offset that leads around the grid must not be listed twice.
 */
module CellStencil {
  import opened Grid
  import opened BoxDim
  import opened CellAdjacency
  import opened Sequences

  datatype Offset = Offset(x: int, y: int, z: int)

  const ORIGIN := Offset(0, 0, 0)

  function Abs(i: int): nat {
    if i < 0 then -i else i
  }

  function Ceiling(r: real): int {
    -((-r).Floor)
  }

  /** Signed distance along an axis from a cell to the closest point of the cell at offset `i`. */
  function Gap(i: int, width: real): real {
    if i > 0 then (i - 1) as real * width else if i < 0 then (i + 1) as real * width else 0.0
  }

  /** Cells across which a radius reaches. */
  function Reach(radius: real, width: real): int
    requires width > 0.0
  {
    Ceiling(radius / width)
  }

  /** The offset keeps the cell in the middle of the axis inside the grid. */
  predicate InWindow(i: int, n: nat) {
    0 <= (n - 1) / 2 + i < n
  }

  /** The grid, the cell widths and the radius of a type. */
  datatype Setting = Setting(dim: Indexer, width: Vec, periodic: Periodic, radius: real, twoD: bool) {

    ghost predicate Valid() {
      dim.Valid() && width.x > 0.0 && width.y > 0.0 && width.z > 0.0 && radius > 0.0
    }

    /** How far the stencil reaches, in cells. */
    function Size(): Offset
      requires Valid()
    {
      Offset(Reach(radius, width.x), Reach(radius, width.y), if twoD then 0 else Reach(radius, width.z))
    }

    /** Squared distance to the closest point of the cell. */
    function Distance2(o: Offset): real {
      Square(Gap(o.x, width.x)) + Square(Gap(o.y, width.y)) + Square(Gap(o.z, width.z))
    }

    predicate Within(o: Offset) {
      Distance2(o) < Square(radius)
    }

    /** A point of the cell at an offset, with the cell at the origin in the corner of the axes. */
    predicate InCell(o: Offset, v: Vec) {
      AxisIn(o.x, width.x, v.x) && AxisIn(o.y, width.y, v.y) && AxisIn(o.z, width.z, v.z)
    }

    /** Some point of the cell is closer than the radius to some point of the cell at the origin. */
    ghost predicate Near(o: Offset) {
      exists u, v :: InCell(ORIGIN, u) && InCell(o, v) && Apart2(u, v) < Square(radius)
    }

    /** Kept by the double counting guard; along x the source asks whether z is periodic. */
    predicate Kept(o: Offset) {
      && (periodic.z ==> InWindow(o.x, dim.w)) && (periodic.y ==> InWindow(o.y, dim.h))
      && (periodic.z ==> InWindow(o.z, dim.d))
    }

    predicate Listed(o: Offset)
      requires Valid()
    {
      && Abs(o.x) <= Size().x && Abs(o.y) <= Size().y && Abs(o.z) <= Size().z && Kept(o) && Within(o)
    }

    /** An offset that matters: to a cell closer than the radius, and between two cells of the grid where it has ends. */
    ghost predicate Relevant(o: Offset) {
      && Near(o) && (twoD ==> o.z == 0) && (periodic.x || Abs(o.x) < dim.w) && (periodic.y || Abs(o.y) < dim.h)
      && (periodic.z || Abs(o.z) < dim.d)
    }

    /** Both offsets lead to the same cell. */
    ghost predicate Congruent(a: Offset, b: Offset)
      requires dim.Valid()
    {
      && Same(a.x, b.x, dim.w, periodic.x) && Same(a.y, b.y, dim.h, periodic.y) && Same(a.z, b.z, dim.d, periodic.z)
    }
  }

  predicate AxisIn(i: int, width: real, a: real) {
    i as real * width <= a <= (i + 1) as real * width
  }

  /** The squared distance of two points. */
  function Apart2(u: Vec, v: Vec): real {
    Square(v.x - u.x) + Square(v.y - u.y) + Square(v.z - u.z)
  }

  ghost predicate Same(i: int, j: int, n: nat, periodic: bool)
    requires 0 < n
  {
    if periodic then (i - j) % n == 0 else i == j
  }

  // ----- one axis ---------------------------------------------------------------------------

  lemma CeilingBounds(r: real)
    ensures r <= Ceiling(r) as real < r + 1.0
  {
  }

  lemma SquareMonotone(a: real, b: real)
    requires 0.0 <= a && 0.0 <= b
    ensures Square(a) < Square(b) <==> a < b
    ensures Square(a) <= Square(b) <==> a <= b
  {
    if a < b {
      SquareLess(a, b);
    } else if b < a {
      SquareLess(b, a);
    }
  }

  lemma SquareLess(a: real, b: real)
    requires 0.0 <= a < b
    ensures Square(a) < Square(b)
  {
    var (d, s) := (b - a, b + a);
    assert d * s > 0.0;
    SquareDifference(a, b, d, s);
  }

  lemma SquareDifference(a: real, b: real, d: real, s: real)
    requires d == b - a && s == b + a
    ensures d * s == Square(b) - Square(a)
  {
  }

  /** How far apart two cells are along an axis, without the direction. */
  function GapWidth(i: int, width: real): real {
    if i == 0 then 0.0 else (Abs(i) - 1) as real * width
  }

  /** The size of the gap depends on the number of steps alone. */
  lemma GapSize(i: int, width: real)
    requires width > 0.0
    ensures Square(Gap(i, width)) == Square(GapWidth(i, width))
  {
    if i < 0 {
      assert Gap(i, width) == -((Abs(i) - 1) as real * width);
      SquareSign((Abs(i) - 1) as real * width);
    }
  }

  lemma GapGrows(i: int, j: int, width: real)
    requires width > 0.0 && Abs(i) <= Abs(j)
    ensures Square(Gap(i, width)) <= Square(Gap(j, width))
  {
    GapSize(i, width);
    GapSize(j, width);
    GapWidthGrows(i, j, width);
    SquareMonotone(GapWidth(i, width), GapWidth(j, width));
  }

  lemma GapWidthGrows(i: int, j: int, width: real)
    requires width > 0.0 && Abs(i) <= Abs(j)
    ensures 0.0 <= GapWidth(i, width) <= GapWidth(j, width)
  {
    if j != 0 {
      var (a, b) := (if i == 0 then 0.0 else (Abs(i) - 1) as real, (Abs(j) - 1) as real);
      assert 0.0 <= a <= b;
      ScaleOrdered(a, b, width);
      assert GapWidth(i, width) == a * width && GapWidth(j, width) == b * width;
    }
  }

  lemma ScaleOrdered(a: real, b: real, c: real)
    requires 0.0 <= a <= b && c > 0.0
    ensures 0.0 <= a * c <= b * c
  {
  }

  /** Along an axis, a gap is below the radius exactly up to the reach. */
  lemma ReachIsExact(i: int, radius: real, width: real)
    requires radius > 0.0 && width > 0.0
    ensures Square(Gap(i, width)) < Square(radius) <==> Abs(i) <= Reach(radius, width)
    ensures Reach(radius, width) >= 1
  {
    ReachFrom(i, radius, width, radius / width);
  }

  lemma ReachFrom(i: int, radius: real, width: real, q: real)
    requires radius > 0.0 && width > 0.0 && q * width == radius
    ensures Square(Gap(i, width)) < Square(radius) <==> Abs(i) <= Ceiling(q)
    ensures Ceiling(q) >= 1
  {
    PositiveQuotient(q, width, radius);
    CeilingBounds(q);
    GapSize(i, width);
    SquareMonotone(0.0, radius);
    if i != 0 {
      var a := (Abs(i) - 1) as real;
      ScaleOrdered(0.0, a, width);
      SquareMonotone(a * width, radius);
      ScaleCompareTo(a, q, width, radius);
      assert a < q <==> Abs(i) <= Ceiling(q);
    }
  }

  lemma ScaleCompareTo(a: real, q: real, width: real, radius: real)
    requires width > 0.0 && q * width == radius
    ensures a * width < radius <==> a < q
  {
    ScaleCompare(a, q, width);
  }

  lemma PositiveQuotient(q: real, width: real, radius: real)
    requires q * width == radius && radius > 0.0 && width > 0.0
    ensures q > 0.0
  {
    if q <= 0.0 {
    }
  }

  lemma ScaleCompare(a: real, q: real, width: real)
    requires width > 0.0
    ensures a * width < q * width <==> a < q
  {
    if a < q {
      assert (q - a) * width > 0.0;
    } else {
      assert (a - q) * width >= 0.0;
    }
  }

  /** Every offset has one representative in the window, which is no longer. */
  lemma WindowRepresentative(i: int, n: nat) returns (j: int)
    requires 0 < n
    ensures InWindow(j, n) && Abs(j) <= Abs(i) && (i - j) % n == 0
    ensures InWindow(i, n) ==> j == i
  {
    var o := (n - 1) / 2;
    var (q, r) := ((o + i) / n, (o + i) % n);
    assert o + i == q * n + r;
    j := r - o;
    assert i - j == q * n + 0;
    ModIs(i - j, q, 0, n);
    RepresentativeShort(i, j, q, n);
    if InWindow(i, n) {
      ModIs(o + i, 0, o + i, n);
    }
  }

  lemma RepresentativeShort(i: int, j: int, q: int, n: nat)
    requires 0 < n && i == j + q * n && InWindow(j, n)
    ensures Abs(j) <= Abs(i)
  {
    Multiples(q, n);
  }

  lemma Multiples(q: int, n: nat)
    ensures q >= 1 ==> q * n >= n
    ensures q <= -1 ==> q * n + n <= 0
  {
    if q <= -1 {
      assert (-q - 1) * n >= 0;
    }
  }

  /** Two offsets in the window that lead to the same cell are the same. */
  lemma WindowUnique(i: int, j: int, n: nat)
    requires 0 < n && InWindow(i, n) && InWindow(j, n) && (i - j) % n == 0
    ensures i == j
  {
    var q := (i - j) / n;
    assert i - j == q * n;
    Multiples(q, n);
  }

  /** The gap is the least distance of points of the two cells. */
  lemma GapIsLeast(i: int, width: real, a: real, b: real)
    requires width > 0.0 && AxisIn(0, width, a) && AxisIn(i, width, b)
    ensures Square(Gap(i, width)) <= Square(b - a)
  {
    if i > 0 {
      LeastUp(i, width, a, b);
    } else if i < 0 {
      LeastDown(i, width, a, b);
    } else {
      SquareSign(b - a);
    }
  }

  lemma LeastUp(i: int, width: real, a: real, b: real)
    requires width > 0.0 && a <= width && i as real * width <= b && i > 0
    ensures Square((i - 1) as real * width) <= Square(b - a)
  {
    OneLess(i, width);
    LeastAbove((i - 1) as real, width, b - a);
  }

  lemma LeastDown(i: int, width: real, a: real, b: real)
    requires width > 0.0 && 0.0 <= a && b <= (i + 1) as real * width && i < 0
    ensures Square((i + 1) as real * width) <= Square(b - a)
  {
    var j := (-i - 1) as real;
    Negated((i + 1) as real, j, width);
    LeastAbove(j, width, a - b);
    SquareSign(j * width);
    SquareSign(a - b);
    assert b - a == -(a - b);
  }

  lemma LeastAbove(j: real, width: real, apart: real)
    requires j >= 0.0 && width > 0.0 && apart >= j * width
    ensures Square(j * width) <= Square(apart)
  {
    ScaleOrdered(0.0, j, width);
    SquareMonotone(j * width, apart);
  }

  lemma OneLess(i: int, width: real)
    ensures (i - 1) as real * width == i as real * width - width
  {
    var j := i as real;
    assert (i - 1) as real == j - 1.0;
    assert (j - 1.0) * width == j * width - width;
  }

  lemma Negated(i: real, j: real, width: real)
    requires i == -j
    ensures i * width == -(j * width)
  {
  }

  /** Points at that distance. */
  lemma GapIsAttained(i: int, width: real) returns (a: real, b: real)
    requires width > 0.0
    ensures AxisIn(0, width, a) && AxisIn(i, width, b) && Square(b - a) == Square(Gap(i, width))
  {
    OneLess(i + 1, width);
    if i > 0 {
      OneLess(i, width);
      a, b := width, i as real * width;
    } else if i < 0 {
      a, b := 0.0, (i + 1) as real * width;
    } else {
      a, b := 0.0, 0.0;
    }
  }

  // ----- all axes ---------------------------------------------------------------------------

  /** The computed distance is the least one of all pairs of points. */
  lemma DistanceIsLeast(s: Setting, o: Offset, u: Vec, v: Vec)
    requires s.Valid() && s.InCell(ORIGIN, u) && s.InCell(o, v)
    ensures s.Distance2(o) <= Apart2(u, v)
  {
    GapIsLeast(o.x, s.width.x, u.x, v.x);
    GapIsLeast(o.y, s.width.y, u.y, v.y);
    GapIsLeast(o.z, s.width.z, u.z, v.z);
  }

  lemma DistanceIsAttained(s: Setting, o: Offset) returns (u: Vec, v: Vec)
    requires s.Valid()
    ensures s.InCell(ORIGIN, u) && s.InCell(o, v) && Apart2(u, v) == s.Distance2(o)
  {
    var x, x' := GapIsAttained(o.x, s.width.x);
    var y, y' := GapIsAttained(o.y, s.width.y);
    var z, z' := GapIsAttained(o.z, s.width.z);
    u, v := Vec(x, y, z), Vec(x', y', z');
  }

  /** The test of the stencil is about the closest points. */
  lemma WithinIsNear(s: Setting, o: Offset)
    requires s.Valid()
    ensures s.Within(o) <==> s.Near(o)
  {
    var a, b := DistanceIsAttained(s, o);
    if u, v :| s.InCell(ORIGIN, u) && s.InCell(o, v) && Apart2(u, v) < Square(s.radius) {
      DistanceIsLeast(s, o, u, v);
    }
  }

  /** What is within the radius is within reach along every axis. */
  lemma WithinReach(s: Setting, o: Offset)
    requires s.Valid() && s.Within(o) && (s.twoD ==> o.z == 0)
    ensures Abs(o.x) <= s.Size().x && Abs(o.y) <= s.Size().y && Abs(o.z) <= s.Size().z
  {
    SquareSign(Gap(o.x, s.width.x));
    SquareSign(Gap(o.y, s.width.y));
    SquareSign(Gap(o.z, s.width.z));
    ReachIsExact(o.x, s.radius, s.width.x);
    ReachIsExact(o.y, s.radius, s.width.y);
    ReachIsExact(o.z, s.radius, s.width.z);
  }

  /** Shorter offsets are closer. */
  lemma ShorterIsWithin(s: Setting, o: Offset, p: Offset)
    requires s.Valid() && s.Within(o) && Abs(p.x) <= Abs(o.x) && Abs(p.y) <= Abs(o.y) && Abs(p.z) <= Abs(o.z)
    ensures s.Within(p)
  {
    GapGrows(p.x, o.x, s.width.x);
    GapGrows(p.y, o.y, s.width.y);
    GapGrows(p.z, o.z, s.width.z);
  }

  /** Offsets along x within reach are within the radius. */
  lemma AlongX(s: Setting, i: int)
    requires s.Valid() && Abs(i) <= s.Size().x
    ensures s.Within(Offset(i, 0, 0))
  {
    ReachIsExact(i, s.radius, s.width.x);
    assert Square(0.0) == 0.0;
  }

  /** The listed offset leads to the same cell. */
  ghost predicate Covers(s: Setting, o: Offset, p: Offset)
    requires s.Valid()
  {
    s.Listed(p) && s.Congruent(o, p)
  }

  /** Every relevant offset is covered by exactly one listed offset. */
  ghost predicate CoversOnce(s: Setting)
    requires s.Valid()
  {
    forall o :: s.Relevant(o) ==>
      (exists p :: Covers(s, o, p)) && forall p, q :: Covers(s, o, p) && Covers(s, o, q) ==> p == q
  }

  /** The guard along x is right, or not needed. */
  ghost predicate GuardRight(s: Setting)
    requires s.Valid()
  {
    s.periodic.x == s.periodic.z || s.Size().x <= (s.dim.w - 1) / 2 || (!s.periodic.x && s.dim.w == 1)
  }

  lemma AxisRepresentative(i: int, n: nat, periodic: bool) returns (j: int)
    requires 0 < n
    ensures Abs(j) <= Abs(i) && Same(i, j, n, periodic) && (periodic ==> InWindow(j, n))
  {
    if periodic {
      j := WindowRepresentative(i, n);
    } else {
      j := i;
    }
  }

  lemma RepresentativeX(s: Setting, i: int) returns (j: int)
    requires s.Valid() && GuardRight(s) && Abs(i) <= s.Size().x && (s.periodic.x || Abs(i) < s.dim.w)
    ensures Abs(j) <= Abs(i) && Same(i, j, s.dim.w, s.periodic.x) && (s.periodic.z ==> InWindow(j, s.dim.w))
  {
    if s.periodic.x && s.periodic.z {
      j := WindowRepresentative(i, s.dim.w);
    } else {
      j := i;
    }
  }

  lemma Covered(s: Setting, o: Offset)
    requires s.Valid() && GuardRight(s) && s.Relevant(o)
    ensures exists p :: Covers(s, o, p)
  {
    WithinIsNear(s, o);
    WithinReach(s, o);
    var x := RepresentativeX(s, o.x);
    var y := AxisRepresentative(o.y, s.dim.h, s.periodic.y);
    var z := AxisRepresentative(o.z, s.dim.d, s.periodic.z);
    ShorterIsWithin(s, o, Offset(x, y, z));
    assert Covers(s, o, Offset(x, y, z));
  }

  /** Both lead to the same cell as a third. */
  lemma SameAsThird(i: int, j: int, k: int, n: nat)
    requires 0 < n && (k - i) % n == 0 && (k - j) % n == 0
    ensures (i - j) % n == 0
  {
    var (p, q) := ((k - i) / n, (k - j) / n);
    assert k - i == p * n && k - j == q * n;
    assert i - j == (q - p) * n + 0;
    ModIs(i - j, q - p, 0, n);
  }

  lemma AxisUnique(i: int, j: int, k: int, n: nat, periodic: bool)
    requires 0 < n && Same(k, i, n, periodic) && Same(k, j, n, periodic) && (periodic ==> InWindow(i, n) && InWindow(j, n))
    ensures i == j
  {
    if periodic {
      SameAsThird(i, j, k, n);
      WindowUnique(i, j, n);
    }
  }

  lemma ShortUnique(i: int, j: int, n: nat, size: int)
    requires 0 < n && Abs(i) <= size && Abs(j) <= size && size <= (n - 1) / 2 && (i - j) % n == 0
    ensures i == j
  {
    WindowUnique(i, j, n);
  }

  lemma CoveredOnce(s: Setting, o: Offset, p: Offset, q: Offset)
    requires s.Valid() && GuardRight(s) && s.Relevant(o) && Covers(s, o, p) && Covers(s, o, q)
    ensures p == q
  {
    AxisUnique(p.y, q.y, o.y, s.dim.h, s.periodic.y);
    AxisUnique(p.z, q.z, o.z, s.dim.d, s.periodic.z);
    if s.periodic.x {
      SameAsThird(p.x, q.x, o.x, s.dim.w);
      if s.periodic.z {
        WindowUnique(p.x, q.x, s.dim.w);
      } else {
        ShortUnique(p.x, q.x, s.dim.w, s.Size().x);
      }
    }
  }

  /** Without the guard a long stencil lists the same cell twice. */
  lemma TwiceListed(s: Setting)
    requires s.Valid() && s.periodic.x && !s.periodic.z && s.Size().x > (s.dim.w - 1) / 2
    ensures var (o, q) := (Offset(s.Size().x, 0, 0), Offset(s.Size().x - s.dim.w, 0, 0));
      s.Relevant(o) && Covers(s, o, o) && Covers(s, o, q) && o != q
  {
    var (i, n) := (s.Size().x, s.dim.w);
    AlongX(s, i);
    WithinIsNear(s, Offset(i, 0, 0));
    AlongX(s, i - n);
    ModIs(i - (i - n), 1, 0, n);
    ModIs(0, 0, 0, n);
    ModIs(0, 0, 0, s.dim.h);
    ModIs(0, 0, 0, s.dim.d);
    ReachIsExact(0, s.radius, s.width.y);
    ReachIsExact(0, s.radius, s.width.z);
  }

  /** With a guard that does not belong there, a cell is left out. */
  lemma LeftOut(s: Setting)
    requires s.Valid() && !s.periodic.x && s.periodic.z && s.Size().x > (s.dim.w - 1) / 2 && s.dim.w > 1
    ensures var o := Offset(-((s.dim.w - 1) / 2 + 1), 0, 0); s.Relevant(o) && forall p :: !Covers(s, o, p)
  {
    AlongX(s, -((s.dim.w - 1) / 2 + 1));
    WithinIsNear(s, Offset(-((s.dim.w - 1) / 2 + 1), 0, 0));
  }

  /** Stencils cover every cell within the radius exactly once if and only if the guard along x is right. */
  lemma StencilIsExact(s: Setting)
    requires s.Valid()
    ensures CoversOnce(s) <==> GuardRight(s)
    ensures forall o :: s.Listed(o) ==> s.Near(o)
  {
    forall o | s.Listed(o) ensures s.Near(o) {
      WithinIsNear(s, o);
    }
    if GuardRight(s) {
      forall o | s.Relevant(o)
        ensures (exists p :: Covers(s, o, p)) && forall p, q :: Covers(s, o, p) && Covers(s, o, q) ==> p == q
      {
        Covered(s, o);
        forall p, q | Covers(s, o, p) && Covers(s, o, q) ensures p == q {
          CoveredOnce(s, o, p, q);
        }
      }
    } else if s.periodic.x {
      TwiceListed(s);
    } else {
      LeftOut(s);
    }
  }

  // ----- building ---------------------------------------------------------------------------

  /** Offsets are visited with x running fastest. */
  ghost predicate Before(o: Offset, x: int, y: int, z: int) {
    o.z < z || (o.z == z && (o.y < y || (o.y == y && o.x < x)))
  }

  /** The origin first, then offsets in the order in which they are visited. */
  ghost predicate InOrder(list: seq<Offset>) {
    && |list| > 0 && list[0] == ORIGIN && Distinct(list)
    && forall i, j :: 1 <= i < j < |list| ==> Before(list[i], list[j].x, list[j].y, list[j].z)
  }

  /** The origin and all listed offsets visited so far. */
  ghost predicate Collected(s: Setting, list: seq<Offset>, x: int, y: int, z: int)
    requires s.Valid()
  {
    InOrder(list) && forall o :: o in list <==> o == ORIGIN || (s.Listed(o) && Before(o, x, y, z))
  }

  lemma CollectedSkips(s: Setting, list: seq<Offset>, x: int, y: int, z: int, x': int, y': int, z': int)
    requires s.Valid() && Collected(s, list, x, y, z)
    requires forall o :: s.Listed(o) ==> (Before(o, x, y, z) <==> Before(o, x', y', z'))
    ensures Collected(s, list, x', y', z')
  {
  }

  lemma CollectedAdds(s: Setting, list: seq<Offset>, o: Offset)
    requires s.Valid() && Collected(s, list, o.x, o.y, o.z)
    ensures Collected(s, if s.Listed(o) && o != ORIGIN then list + [o] else list, o.x + 1, o.y, o.z)
  {
    if s.Listed(o) && o != ORIGIN {
      var more := list + [o];
      assert o !in list;
      forall p ensures p in more <==> p == ORIGIN || (s.Listed(p) && Before(p, o.x + 1, o.y, o.z)) {
        assert p in more <==> p in list || p == o;
      }
      forall i, j | 1 <= i < j < |more| ensures Before(more[i], more[j].x, more[j].y, more[j].z) {
        assert list[i] in list && list[i] != list[0];
      }
    }
  }

  /** With every offset the squared distance is stored. */
  ghost predicate Measured(s: Setting, list: seq<Offset>, far: seq<real>) {
    |far| == |list| && forall k :: 0 <= k < |list| ==> far[k] == s.Distance2(list[k])
  }

  /** The stencil of one type. */
  method BuildStencil(s: Setting) returns (list: seq<Offset>, far: seq<real>)
    requires s.Valid()
    ensures InOrder(list) && forall o :: o in list <==> s.Listed(o)
    ensures |list| <= MaxEntries(s.Size()) && Measured(s, list, far)
  {
    var size := s.Size();
    ReachIsExact(0, s.radius, s.width.x);
    ReachIsExact(0, s.radius, s.width.y);
    ReachIsExact(0, s.radius, s.width.z);
    list, far := [ORIGIN], [0.0];
    OriginIsClosest(s);
    for z := -size.z to size.z + 1
      invariant Collected(s, list, -size.x, -size.y, z) && Measured(s, list, far)
    {
      if s.periodic.z && !InWindow(z, s.dim.d) {
        CollectedSkips(s, list, -size.x, -size.y, z, -size.x, -size.y, z + 1);
      } else {
        list, far := BuildPlane(s, list, far, z);
      }
    }
    OriginListed(s);
    ListFits(s, list);
  }

  lemma OriginIsClosest(s: Setting)
    ensures s.Distance2(ORIGIN) == 0.0
  {
    assert Square(0.0) == 0.0;
  }

  method BuildPlane(s: Setting, start: seq<Offset>, startFar: seq<real>, z: int) returns (list: seq<Offset>, far: seq<real>)
    requires Measured(s, start, startFar)
    requires s.Valid() && Collected(s, start, -s.Size().x, -s.Size().y, z) && (s.periodic.z ==> InWindow(z, s.dim.d))
    requires s.Size().x >= 0 && s.Size().y >= 0 && Abs(z) <= s.Size().z
    ensures Collected(s, list, -s.Size().x, -s.Size().y, z + 1) && Measured(s, list, far)
  {
    var size := s.Size();
    list, far := start, startFar;
    for y := -size.y to size.y + 1
      invariant Collected(s, list, -size.x, y, z) && Measured(s, list, far)
    {
      if s.periodic.y && !InWindow(y, s.dim.h) {
        CollectedSkips(s, list, -size.x, y, z, -size.x, y + 1, z);
      } else {
        list, far := BuildRow(s, list, far, y, z);
      }
    }
    CollectedSkips(s, list, -size.x, size.y + 1, z, -size.x, -size.y, z + 1);
  }

  method BuildRow(s: Setting, start: seq<Offset>, startFar: seq<real>, y: int, z: int) returns (list: seq<Offset>, far: seq<real>)
    requires Measured(s, start, startFar)
    requires s.Valid() && Collected(s, start, -s.Size().x, y, z) && s.Size().x >= 0
    requires (s.periodic.z ==> InWindow(z, s.dim.d)) && (s.periodic.y ==> InWindow(y, s.dim.h))
    requires Abs(y) <= s.Size().y && Abs(z) <= s.Size().z
    ensures Collected(s, list, -s.Size().x, y + 1, z) && Measured(s, list, far)
  {
    var size := s.Size();
    list, far := start, startFar;
    for x := -size.x to size.x + 1
      invariant Collected(s, list, x, y, z) && Measured(s, list, far)
    {
      list, far := Consider(s, list, far, Offset(x, y, z));
    }
    CollectedSkips(s, list, size.x + 1, y, z, -size.x, y + 1, z);
  }

  /** Append an offset unless the guard skips it, it is the origin, or its cell is too far away. */
  method Consider(s: Setting, start: seq<Offset>, startFar: seq<real>, o: Offset) returns (list: seq<Offset>, far: seq<real>)
    requires Measured(s, start, startFar)
    requires s.Valid() && Collected(s, start, o.x, o.y, o.z)
    requires (s.periodic.z ==> InWindow(o.z, s.dim.d)) && (s.periodic.y ==> InWindow(o.y, s.dim.h))
    requires Abs(o.x) <= s.Size().x && Abs(o.y) <= s.Size().y && Abs(o.z) <= s.Size().z
    ensures Collected(s, list, o.x + 1, o.y, o.z) && Measured(s, list, far)
  {
    CollectedAdds(s, start, o);
    var keep, d2 := Keeps(s, o);
    list, far := start, startFar;
    if keep {
      list, far := start + [o], startFar + [d2];
    }
  }

  method Keeps(s: Setting, o: Offset) returns (keep: bool, d2: real)
    requires s.Valid() && (s.periodic.z ==> InWindow(o.z, s.dim.d)) && (s.periodic.y ==> InWindow(o.y, s.dim.h))
    requires Abs(o.x) <= s.Size().x && Abs(o.y) <= s.Size().y && Abs(o.z) <= s.Size().z
    ensures (keep <==> s.Listed(o) && o != ORIGIN) && (keep ==> d2 == s.Distance2(o))
  {
    if s.periodic.z && !InWindow(o.x, s.dim.w) {
      return false, 0.0;
    }
    if o.x == 0 && o.y == 0 && o.z == 0 {
      return false, 0.0;
    }
    d2 := SquaredGap(s, o);
    keep := d2 < Square(s.radius);
  }

  /** The distance to the closest point in the cell, squared. */
  method SquaredGap(s: Setting, o: Offset) returns (d2: real)
    ensures d2 == s.Distance2(o)
  {
    var x := AxisGap(o.x, s.width.x);
    var y := AxisGap(o.y, s.width.y);
    var z := AxisGap(o.z, s.width.z);
    d2 := x * x + y * y + z * z;
  }

  method AxisGap(i: int, width: real) returns (d: real)
    ensures d == Gap(i, width)
  {
    d := 0.0;
    if i > 0 {
      d := (i - 1) as real * width;
    } else if i < 0 {
      d := (i + 1) as real * width;
    }
  }

  lemma OriginListed(s: Setting)
    requires s.Valid()
    ensures s.Listed(ORIGIN)
  {
    AlongX(s, 0);
  }

  /** Room for all offsets within reach. */
  function MaxEntries(size: Offset): int {
    (2 * size.x + 1) * (2 * size.y + 1) * (2 * size.z + 1)
  }

  /** The number of an offset among all within reach. */
  ghost function Number(size: Offset, o: Offset): nat
    requires Abs(o.x) <= size.x && Abs(o.y) <= size.y && Abs(o.z) <= size.z
  {
    Reached(size).Index(Cell(o.x + size.x, o.y + size.y, o.z + size.z))
  }

  ghost function Reached(size: Offset): Indexer
    requires size.x >= 0 && size.y >= 0 && size.z >= 0
  {
    Indexer(2 * size.x + 1, 2 * size.y + 1, 2 * size.z + 1)
  }

  ghost predicate InReach(size: Offset, list: seq<Offset>) {
    forall i :: 0 <= i < |list| ==> Abs(list[i].x) <= size.x && Abs(list[i].y) <= size.y && Abs(list[i].z) <= size.z
  }

  /** Distinct offsets have distinct numbers, so there are no more of them than numbers. */
  lemma {:induction false} DistinctFits(size: Offset, list: seq<Offset>) returns (numbers: set<nat>)
    requires size.x >= 0 && size.y >= 0 && size.z >= 0 && Distinct(list) && InReach(size, list)
    ensures |numbers| == |list| && forall n :: n in numbers <==> exists i :: 0 <= i < |list| && n == Number(size, list[i])
  {
    if list == [] {
      numbers := {};
    } else {
      var k := |list| - 1;
      var rest := DistinctFits(size, list[..k]);
      var last := Number(size, list[k]);
      forall i | 0 <= i < k ensures Number(size, list[i]) != last {
        if Number(size, list[i]) == last {
          NumberInjective(size, list[i], list[k]);
        }
      }
      numbers := rest + {last};
      AddOne(rest, last);
      forall n ensures n in numbers <==> exists i :: 0 <= i < |list| && n == Number(size, list[i]) {
        if n in rest {
          var i :| 0 <= i < k && n == Number(size, list[..k][i]);
          assert list[..k][i] == list[i];
        }
        if i :| 0 <= i < |list| && n == Number(size, list[i]) {
          assert i < k ==> list[..k][i] == list[i];
        }
      }
    }
  }

  lemma NumberInjective(size: Offset, o: Offset, p: Offset)
    requires Abs(o.x) <= size.x && Abs(o.y) <= size.y && Abs(o.z) <= size.z
    requires Abs(p.x) <= size.x && Abs(p.y) <= size.y && Abs(p.z) <= size.z
    requires Number(size, o) == Number(size, p)
    ensures o == p
  {
    IndexInjective(Reached(size), Cell(o.x + size.x, o.y + size.y, o.z + size.z), Cell(p.x + size.x, p.y + size.y, p.z + size.z));
  }

  lemma ListFits(s: Setting, list: seq<Offset>)
    requires s.Valid() && Distinct(list) && (forall o :: o in list ==> s.Listed(o))
    requires s.Size().x >= 0 && s.Size().y >= 0 && s.Size().z >= 0
    ensures |list| <= MaxEntries(s.Size())
  {
    var size := s.Size();
    forall i | 0 <= i < |list| ensures Abs(list[i].x) <= size.x && Abs(list[i].y) <= size.y && Abs(list[i].z) <= size.z {
      assert s.Listed(list[i]);
    }
    var numbers := DistinctFits(size, list);
    var g := Reached(size);
    NaturalsCount(g.Size());
    forall n | n in numbers ensures n < g.Size() {
      var i :| 0 <= i < |list| && n == Number(size, list[i]);
      IndexBelowSize(g, Cell(list[i].x + size.x, list[i].y + size.y, list[i].z + size.z));
    }
    SubsetSize(numbers, Naturals(g.Size()));
  }

  // ----- all types --------------------------------------------------------------------------

  lemma MaxEntriesGrow(a: Offset, b: Offset)
    requires 0 <= a.x <= b.x && 0 <= a.y <= b.y && 0 <= a.z <= b.z
    ensures MaxEntries(a) <= MaxEntries(b)
  {
    var (p, q) := ((2 * a.x + 1) * (2 * a.y + 1), (2 * b.x + 1) * (2 * b.y + 1));
    ProductOrdered(2 * a.x + 1, 2 * b.x + 1, 2 * a.y + 1, 2 * b.y + 1);
    ProductOrdered(p, q, 2 * a.z + 1, 2 * b.z + 1);
  }

  lemma ProductOrdered(a: int, b: int, c: int, d: int)
    requires 0 <= a <= b && 0 <= c <= d
    ensures 0 <= a * c <= b * d
  {
    assert b * d - a * c == b * (d - c) + (b - a) * c;
  }

  lemma ReachGrows(r: real, r': real, width: real)
    requires 0.0 < r <= r' && width > 0.0
    ensures 1 <= Reach(r, width) <= Reach(r', width)
  {
    ReachIsExact(Reach(r, width), r, width);
    ReachIsExact(Reach(r, width), r', width);
    SquareMonotone(r, r');
  }

  /** The stencil of a type: nothing for a type that does not interact, all listed offsets otherwise. */
  ghost predicate StencilOf(s: Setting, radius: real, list: seq<Offset>, far: seq<real>)
    requires s.(radius := 1.0).Valid()
  {
    && Measured(s, list, far)
    && if radius <= 0.0 then list == []
       else InOrder(list) && forall o :: o in list <==> s.(radius := radius).Listed(o)
  }

  /** The table of stencils: one row of the same length for every type. */
  class StencilTable {
    const types: nat
    var requested: bool
    var rowLength: nat
    var elements: nat
    var stencils: seq<seq<Offset>>
    var distances: seq<seq<real>>

    /** The first buffer has no rows yet. */
    constructor (types: nat)
      ensures this.types == types && requested && Valid() && stencils == seq(types, _ => []) && distances == seq(types, _ => [])
    {
      this.types := types;
      requested, rowLength, elements := true, 0, types;
      stencils, distances := seq(types, _ => []), seq(types, _ => []);
    }

    ghost predicate Valid()
      reads this
    {
      && (elements == types * rowLength || (rowLength == 0 && elements == types))
      && |stencils| == |distances| == types && forall t :: 0 <= t < types ==> |stencils[t]| <= rowLength
    }

    /** The largest radius of all types. */
    static method LargestRadius(radii: seq<real>) returns (r: real)
      requires |radii| > 0
      ensures r in radii && forall t :: 0 <= t < |radii| ==> radii[t] <= r
    {
      r := radii[0];
      for t := 1 to |radii|
        invariant r in radii && forall u :: 0 <= u < t ==> radii[u] <= r
      {
        if r < radii[t] {
          r := radii[t];
        }
      }
    }

    /** Rebuild all stencils; types that do not interact have none. */
    method Compute(s: Setting, radii: seq<real>)
      requires Valid() && s.(radius := 1.0).Valid() && |radii| == types && 1 <= types
      modifies this
      ensures Valid() && !requested
      ensures !old(requested) ==> stencils == old(stencils) && distances == old(distances)
      ensures old(requested) ==> forall t :: 0 <= t < types ==> StencilOf(s, radii[t], stencils[t], distances[t])
    {
      if !requested {
        return;
      }
      requested := false;
      var largest := LargestRadius(radii);
      if largest < 0.0 {
        stencils, distances := seq(types, _ => []), seq(types, _ => []);
        return;
      }
      if largest > 0.0 {
        Reallocate(s.(radius := largest));
      }
      stencils, distances := BuildAll(s, radii, largest, rowLength);
    }

    static method BuildAll(s: Setting, radii: seq<real>, ghost largest: real, ghost room: nat)
      returns (list: seq<seq<Offset>>, far: seq<seq<real>>)
      requires s.(radius := 1.0).Valid() && forall t :: 0 <= t < |radii| ==> radii[t] <= largest
      requires largest > 0.0 ==> MaxEntries(s.(radius := largest).Size()) <= room
      ensures |list| == |far| == |radii|
      ensures forall t :: 0 <= t < |radii| ==> StencilOf(s, radii[t], list[t], far[t]) && |list[t]| <= room
    {
      list, far := [], [];
      for t := 0 to |radii|
        invariant |list| == |far| == t
        invariant forall u :: 0 <= u < t ==> StencilOf(s, radii[u], list[u], far[u]) && |list[u]| <= room
      {
        var row: seq<Offset>, rowFar: seq<real> := [], [];
        if radii[t] > 0.0 {
          row, rowFar := BuildStencil(s.(radius := radii[t]));
          SameDistances(s, radii[t], row, rowFar);
          RowFits(s, radii[t], largest);
        }
        list, far := list + [row], far + [rowFar];
      }
    }

    /** Make the rows longer if the largest stencil needs it. */
    method Reallocate(s: Setting)
      requires s.Valid() && 1 <= types && (elements == types * rowLength || (rowLength == 0 && elements == types))
      modifies `rowLength, `elements
      ensures elements == types * rowLength && MaxEntries(s.Size()) <= rowLength
    {
      ReachGrows(s.radius, s.radius, s.width.x);
      ReachGrows(s.radius, s.radius, s.width.y);
      ReachGrows(s.radius, s.radius, s.width.z);
      MaxEntriesGrow(Offset(1, 1, 0), s.Size());
      var largest := MaxEntries(s.Size());
      RowsCompare(types, largest, rowLength);
      if largest * types > elements {
        rowLength, elements := largest, largest * types;
      }
    }
  }

  /** Distances do not depend on the radius. */
  lemma SameDistances(s: Setting, radius: real, list: seq<Offset>, far: seq<real>)
    requires Measured(s.(radius := radius), list, far)
    ensures Measured(s, list, far)
  {
    forall k | 0 <= k < |list| ensures far[k] == s.Distance2(list[k]) {
      assert s.(radius := radius).Distance2(list[k]) == s.Distance2(list[k]);
    }
  }

  lemma RowsCompare(types: nat, a: nat, b: nat)
    requires 1 <= types && 9 <= a
    ensures a * types > types * b <==> a > b
    ensures a * types > types && a * types == types * a
  {
    if a > b {
      assert (a - b) * types > 0;
    } else {
      assert (b - a) * types >= 0;
    }
    assert (a - 1) * types > 0;
  }

  lemma RowFits(s: Setting, radius: real, largest: real)
    requires s.(radius := 1.0).Valid() && 0.0 < radius <= largest
    ensures MaxEntries(s.(radius := radius).Size()) <= MaxEntries(s.(radius := largest).Size())
  {
    ReachGrows(radius, largest, s.width.x);
    ReachGrows(radius, largest, s.width.y);
    ReachGrows(radius, largest, s.width.z);
    MaxEntriesGrow(s.(radius := radius).Size(), s.(radius := largest).Size());
  }
}
