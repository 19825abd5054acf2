/**
Choosing the domain grid: the search for the factorisation of the number of ranks with the smallest
surface between domains, and the split of that grid into equal blocks of ranks that share a node.
 */
module GridSearch {
  import opened Grid
  import opened BoxDim

  // ----- the order of the search ------------------------------------------------------------

  /** Factors are tried in lexicographic order; those before (x, y, z) were seen. */
  ghost predicate Seen(c: Cell, x: nat, y: nat, z: nat) {
    c.x < x || (c.x == x && (c.y < y || (c.y == y && c.z < z)))
  }

  ghost predicate IsFactorisation(c: Cell, n: nat) {
    1 <= c.x && 1 <= c.y && 1 <= c.z && c.x * c.y * c.z == n
  }

  lemma ProductStep(a: nat, b: nat)
    ensures a * (b + 1) == a * b + a
  {
  }

  lemma ProductGrows(a: nat, b: nat, c: nat)
    requires 1 <= a && b <= c
    ensures a * b <= a * c && b <= a * b
  {
  }

  /** What follows when a loop over the third factor ends. */
  lemma ThirdEnds(c: Cell, n: nat, x: nat, y: nat, z: nat)
    requires IsFactorisation(c, n) && x * y * z > n && Seen(c, x, y + 1, 1)
    ensures Seen(c, x, y, z)
  {
    if c.x == x && c.y == y && c.z >= z {
      ProductGrows(x * y, z, c.z);
    }
  }

  lemma FactorsBounded(c: Cell, n: nat)
    requires IsFactorisation(c, n)
    ensures c.x * c.y <= n && c.x <= n && c.x * c.y >= 1
  {
    ProductGrows(c.x, 1, c.y);
    ProductGrows(c.x * c.y, 1, c.z);
  }

  lemma SecondEnds(c: Cell, n: nat, x: nat, y: nat)
    requires IsFactorisation(c, n) && x * y > n && Seen(c, x + 1, 1, 1)
    ensures Seen(c, x, y, 1)
  {
    FactorsBounded(c, n);
    if c.x == x && c.y >= y {
      ProductGrows(x, y, c.y);
    }
  }

  // ----- the grid of all ranks --------------------------------------------------------------

  /** A search: the number of ranks, the box lengths and the requested grid, 0 standing for any. */
  datatype Request = Request(ranks: nat, L: Vec, x: nat, y: nat, z: nat) {

    ghost predicate Valid() {
      1 <= ranks && L.x > 0.0 && L.y > 0.0 && L.z >= 0.0
    }

    predicate Is2D() {
      L.z == 0.0
    }

    predicate Default() {
      x == 0 && y == 0 && z == 0
    }

    /** The surface between domains, a length in two dimensions. */
    function Area(c: Cell): real {
      if Is2D() then L.x * (c.y as real - 1.0) + L.y * (c.x as real - 1.0)
      else L.x * L.y * (c.z as real - 1.0) + L.x * L.z * (c.y as real - 1.0) + L.y * L.z * (c.x as real - 1.0)
    }

    function StartArea(): real {
      if Is2D() then L.x * (ranks as real - 1.0) else L.x * L.z * (ranks as real - 1.0)
    }

    function Guess(): Cell {
      if Is2D() then Cell(1, ranks, 1) else Cell(1, 1, ranks)
    }

    /** A factorisation as requested; in two dimensions there is one layer. */
    ghost predicate Fits(c: Cell) {
      && IsFactorisation(c, ranks) && (x == 0 || c.x == x) && (y == 0 || c.y == y) && (z == 0 || c.z == z)
      && (Is2D() ==> c.z <= 1)
    }

    ghost predicate Minimal(c: Cell) {
      Fits(c) && forall other :: Fits(other) ==> Area(c) <= Area(other)
    }

    /** Some grid improves on the start value. */
    ghost predicate Improvable() {
      exists c :: Fits(c) && Area(c) < StartArea()
    }
  }

  /** The best grid among those seen; a default search starts with its guess. */
  ghost predicate Progress(q: Request, found: bool, best: Cell, area: real, x: nat, y: nat, z: nat) {
    && (q.Default() ==> found)
    && (forall c :: q.Fits(c) && Seen(c, x, y, z) ==> found && area <= q.Area(c))
    && (found ==>
          || (q.Fits(best) && area == q.Area(best) && (q.Default() ==> area < q.StartArea()))
          || (q.Default() && best == q.Guess() && area == q.StartArea()))
  }

  lemma ProgressSkips(q: Request, found: bool, best: Cell, area: real, x: nat, y: nat, z: nat, x': nat, y': nat, z': nat)
    requires Progress(q, found, best, area, x, y, z)
    requires forall c :: q.Fits(c) && Seen(c, x', y', z') ==> Seen(c, x, y, z)
    ensures Progress(q, found, best, area, x', y', z')
  {
  }

  lemma ProgressThirdEnds(q: Request, found: bool, best: Cell, area: real, x: nat, y: nat, z: nat)
    requires Progress(q, found, best, area, x, y, z) && x * y * z > q.ranks
    ensures Progress(q, found, best, area, x, y + 1, 1)
  {
    forall c | q.Fits(c) && Seen(c, x, y + 1, 1) ensures Seen(c, x, y, z) {
      ThirdEnds(c, q.ranks, x, y, z);
    }
    ProgressSkips(q, found, best, area, x, y, z, x, y + 1, 1);
  }

  lemma ProgressSecondEnds(q: Request, found: bool, best: Cell, area: real, x: nat, y: nat)
    requires Progress(q, found, best, area, x, y, 1) && x * y > q.ranks
    ensures Progress(q, found, best, area, x + 1, 1, 1)
  {
    forall c | q.Fits(c) && Seen(c, x + 1, 1, 1) ensures Seen(c, x, y, 1) {
      SecondEnds(c, q.ranks, x, y);
    }
    ProgressSkips(q, found, best, area, x, y, 1, x + 1, 1, 1);
  }

  lemma AllSeen(q: Request, found: bool, best: Cell, area: real)
    requires Progress(q, found, best, area, q.ranks + 1, 1, 1)
    ensures forall c :: q.Fits(c) ==> found && area <= q.Area(c)
  {
    forall c | q.Fits(c) ensures Seen(c, q.ranks + 1, 1, 1) {
      FactorsBounded(c, q.ranks);
    }
  }

  lemma GuessFits(q: Request)
    requires q.Valid() && q.Default()
    ensures q.Fits(q.Guess()) && q.Fits(Cell(1, q.ranks, 1)) && q.Area(Cell(1, q.ranks, 1)) == q.StartArea()
  {
  }

  lemma Cancel(a: real, b: real, c: real)
    requires a > 0.0
    ensures a * b <= a * c <==> b <= c
  {
    if b <= c {
      assert a * (c - b) >= 0.0;
    } else {
      assert a * (b - c) > 0.0;
    }
  }

  /** In three dimensions the guess is no worse than the start value if and only if Ly <= Lz. */
  lemma GuessArea(q: Request)
    requires q.Valid() && !q.Is2D()
    ensures q.Area(q.Guess()) <= q.StartArea() <==> q.ranks == 1 || q.L.y <= q.L.z
  {
    var n := q.ranks as real - 1.0;
    assert q.Area(q.Guess()) == q.L.x * q.L.y * n;
    if q.ranks > 1 {
      assert q.L.x * q.L.y * n == (q.L.x * n) * q.L.y;
      assert q.L.x * q.L.z * n == (q.L.x * n) * q.L.z;
      assert q.L.x * n > 0.0;
      Cancel(q.L.x * n, q.L.y, q.L.z);
    }
  }

  /** What a finished search has found. */
  lemma SearchResult(q: Request, found: bool, best: Cell, area: real)
    requires q.Valid() && Progress(q, found, best, area, q.ranks + 1, 1, 1)
    ensures found <==> exists c :: q.Fits(c)
    ensures found ==> q.Fits(best)
    ensures found && (q.Is2D() || !q.Default()) ==> q.Minimal(best)
    ensures q.Default() && !q.Is2D() ==>
      (q.Minimal(best) <==> q.Improvable() || q.ranks == 1 || q.L.y <= q.L.z) && (!q.Improvable() ==> best == q.Guess())
  {
    AllSeen(q, found, best, area);
    if q.Default() {
      GuessFits(q);
      if !q.Is2D() {
        GuessArea(q);
        if !q.Improvable() {
          assert !q.Fits(best) || q.Area(best) >= q.StartArea();
        }
      }
    }
  }

  // ----- what the surface is ----------------------------------------------------------------

  /** The surface of a box, in two dimensions its circumference. */
  function Surface(a: Vec, flat: bool): real {
    if flat then 2.0 * (a.x + a.y) else 2.0 * (a.x * a.y + a.y * a.z + a.z * a.x)
  }

  /** The extents of a domain. */
  function DomainOf(q: Request, c: Cell): Vec
    requires IsFactorisation(c, q.ranks) && 1 <= q.ranks
  {
    Vec(q.L.x / c.x as real, q.L.y / c.y as real, q.L.z / c.z as real)
  }

  /** The searched area is what all domains have in surface beyond that of the box, counted once for the two sides. */
  lemma AreaIsBetweenDomains(q: Request, c: Cell)
    requires q.Valid() && q.Fits(c)
    ensures 2.0 * q.Area(c) == q.ranks as real * Surface(DomainOf(q, c), q.Is2D()) - Surface(q.L, q.Is2D())
  {
    var (x, y, z) := (c.x as real, c.y as real, c.z as real);
    var d := DomainOf(q, c);
    assert d.x * x == q.L.x && d.y * y == q.L.y && d.z * z == q.L.z;
    RealProduct(c, q.ranks);
    if q.Is2D() {
      assert z == 1.0;
      Extents2D(d, x, y, q.L, q.ranks as real);
    } else {
      Extents(d, x, y, z, q.L, q.ranks as real);
    }
  }

  lemma RealProduct(c: Cell, n: nat)
    requires c.x * c.y * c.z == n
    ensures c.x as real * c.y as real * c.z as real == n as real
  {
    assert c.x as real * c.y as real == (c.x * c.y) as real;
    assert (c.x * c.y) as real * c.z as real == (c.x * c.y * c.z) as real;
  }

  lemma Extents2D(d: Vec, x: real, y: real, l: Vec, n: real)
    requires d.x * x == l.x && d.y * y == l.y && x * y == n
    ensures n * (2.0 * (d.x + d.y)) == 2.0 * (l.x * y + l.y * x)
  {
    assert n * d.x == (d.x * x) * y && n * d.y == (d.y * y) * x;
  }

  lemma Extents(d: Vec, x: real, y: real, z: real, l: Vec, n: real)
    requires d.x * x == l.x && d.y * y == l.y && d.z * z == l.z && x * y * z == n
    ensures n * (2.0 * (d.x * d.y + d.y * d.z + d.z * d.x)) == 2.0 * (l.x * l.y * z + l.y * l.z * x + l.z * l.x * y)
  {
    Pair(d.x, d.y, x, y, z, l.x, l.y, n);
    Pair(d.y, d.z, y, z, x, l.y, l.z, n);
    Pair(d.z, d.x, z, x, y, l.z, l.x, n);
  }

  lemma Pair(a: real, b: real, x: real, y: real, z: real, la: real, lb: real, n: real)
    requires a * x == la && b * y == lb && x * y * z == n
    ensures n * (a * b) == la * lb * z
  {
    assert n * (a * b) == (a * x) * (b * y) * z;
  }

  /** A longer axis has no fewer domains than a shorter one. */
  ghost predicate FollowsBox(q: Request, c: Cell) {
    && Follows(q.L.x, q.L.y, c.x, c.y)
    && (!q.Is2D() ==> Follows(q.L.y, q.L.z, c.y, c.z) && Follows(q.L.z, q.L.x, c.z, c.x))
  }

  ghost predicate Follows(a: real, b: real, m: nat, n: nat) {
    (a > b ==> m >= n) && (b > a ==> n >= m)
  }

  /** Without a request, the best grid follows the box. */
  lemma BestFollowsBox(q: Request, c: Cell)
    requires q.Valid() && q.Default() && q.Minimal(c)
    ensures FollowsBox(q, c)
  {
    SwapXY(q, c);
    if !q.Is2D() {
      SwapYZ(q, c);
      SwapZX(q, c);
    }
  }

  lemma SwapXY(q: Request, c: Cell)
    requires q.Valid() && q.Default() && q.Minimal(c)
    ensures Follows(q.L.x, q.L.y, c.x, c.y)
  {
    var other := Cell(c.y, c.x, c.z);
    assert q.Fits(other);
    var (l, m) := (q.L.x - q.L.y, c.y as real - c.x as real);
    if q.Is2D() {
      assert q.Area(c) - q.Area(other) == l * m;
    } else {
      assert q.Area(c) - q.Area(other) == q.L.z * (l * m);
    }
    Order(q.L.z, l, m, q.Is2D());
  }

  lemma SwapYZ(q: Request, c: Cell)
    requires q.Valid() && q.Default() && q.Minimal(c) && !q.Is2D()
    ensures Follows(q.L.y, q.L.z, c.y, c.z)
  {
    var other := Cell(c.x, c.z, c.y);
    Reorder(c.x, c.y, c.z);
    assert q.Fits(other);
    var (l, m) := (q.L.y - q.L.z, c.z as real - c.y as real);
    assert q.Area(c) - q.Area(other) == q.L.x * (l * m);
    Order(q.L.x, l, m, false);
  }

  lemma SwapZX(q: Request, c: Cell)
    requires q.Valid() && q.Default() && q.Minimal(c) && !q.Is2D()
    ensures Follows(q.L.z, q.L.x, c.z, c.x)
  {
    var other := Cell(c.z, c.y, c.x);
    Reorder(c.x, c.y, c.z);
    assert q.Fits(other);
    var (l, m) := (q.L.z - q.L.x, c.x as real - c.z as real);
    assert q.Area(c) - q.Area(other) == q.L.y * (l * m);
    Order(q.L.y, l, m, false);
  }

  lemma Reorder(x: nat, y: nat, z: nat)
    ensures x * z * y == x * y * z && z * y * x == x * y * z
  {
  }

  /** A product that is not positive: the factors differ in sign. */
  lemma Order(s: real, l: real, m: real, flat: bool)
    requires if flat then l * m <= 0.0 else s > 0.0 && s * (l * m) <= 0.0
    ensures (l > 0.0 ==> m <= 0.0) && (l < 0.0 ==> m >= 0.0)
  {
    EqualSigns(s, l * m);
    EqualSigns(l, m);
  }

  lemma EqualSigns(a: real, b: real)
    ensures a > 0.0 && b > 0.0 ==> a * b > 0.0
    ensures a < 0.0 && b < 0.0 ==> a * b > 0.0
  {
    assert a * b == (-a) * (-b);
  }

  /** The innermost test of the search. */
  method Consider(q: Request, found: bool, best: Cell, area: real, c: Cell) returns (found': bool, best': Cell, area': real)
    requires Progress(q, found, best, area, c.x, c.y, c.z) && 1 <= c.x && 1 <= c.y && 1 <= c.z
    requires (q.x == 0 || c.x == q.x) && (q.y == 0 || c.y == q.y)
    ensures Progress(q, found', best', area', c.x, c.y, c.z + 1)
  {
    found', best', area' := found, best, area;
    if (q.z != 0 && c.z != q.z) || c.x * c.y * c.z != q.ranks || (q.Is2D() && c.z > 1) {
      return;
    }
    if q.Area(c) < area || !found {
      found', best', area' := true, c, q.Area(c);
    }
  }

  /** Find the grid with the smallest surface. */
  method FindDecomposition(q: Request) returns (found: bool, best: Cell)
    requires q.Valid()
    ensures found <==> exists c :: q.Fits(c)
    ensures found ==> q.Fits(best)
    ensures found && (q.Is2D() || !q.Default()) ==> q.Minimal(best)
    ensures q.Default() && !q.Is2D() ==>
      (q.Minimal(best) <==> q.Improvable() || q.ranks == 1 || q.L.y <= q.L.z) && (!q.Improvable() ==> best == q.Guess())
    ensures q.Default() && (q.Is2D() || q.ranks == 1 || q.L.y <= q.L.z) ==> FollowsBox(q, best)
  {
    var area := q.StartArea();
    found, best := q.Default(), q.Guess();
    var x := 1;
    while x <= q.ranks
      invariant 1 <= x <= q.ranks + 1 && Progress(q, found, best, area, x, 1, 1)
    {
      if q.x == 0 || x == q.x {
        found, best, area := SearchSecond(q, found, best, area, x);
      }
      x := x + 1;
    }
    SearchResult(q, found, best, area);
    if q.Default() && q.Minimal(best) {
      BestFollowsBox(q, best);
    }
  }

  method SearchSecond(q: Request, found: bool, best: Cell, area: real, x: nat) returns (found': bool, best': Cell, area': real)
    requires Progress(q, found, best, area, x, 1, 1) && 1 <= x && (q.x == 0 || x == q.x)
    ensures Progress(q, found', best', area', x + 1, 1, 1)
  {
    found', best', area' := found, best, area;
    var y := 1;
    while x * y <= q.ranks
      invariant 1 <= y && Progress(q, found', best', area', x, y, 1)
      decreases q.ranks - x * y
    {
      if q.y == 0 || y == q.y {
        found', best', area' := SearchThird(q, found', best', area', x, y);
      } else {
        ProgressSkips(q, found', best', area', x, y, 1, x, y + 1, 1);
      }
      y := y + 1;
    }
    ProgressSecondEnds(q, found', best', area', x, y);
  }

  method SearchThird(q: Request, found: bool, best: Cell, area: real, x: nat, y: nat) returns (found': bool, best': Cell, area': real)
    requires Progress(q, found, best, area, x, y, 1) && 1 <= x && 1 <= y && (q.x == 0 || x == q.x) && (q.y == 0 || y == q.y)
    ensures Progress(q, found', best', area', x, y + 1, 1)
  {
    found', best', area' := found, best, area;
    ProductGrows(x, 1, y);
    var z := 1;
    while x * y * z <= q.ranks
      invariant 1 <= z && Progress(q, found', best', area', x, y, z)
      decreases q.ranks - x * y * z
    {
      found', best', area' := Consider(q, found', best', area', Cell(x, y, z));
      z := z + 1;
    }
    ProgressThirdEnds(q, found', best', area', x, y, z);
  }

  /**
  A default search in three dimensions starts from the area of (1, n, 1) but from the grid (1, 1, n).
  In a box that is long in y the former is the best, is never strictly improved on, and the search
  returns the latter.
   */
  lemma ElongatedBoxMissed()
    ensures var q := Request(2, Vec(1.0, 10.0, 1.0), 0, 0, 0);
      && q.Valid() && q.Default() && !q.Is2D() && !q.Improvable()
      && q.Minimal(Cell(1, 2, 1)) && !q.Minimal(q.Guess())
  {
    var q := Request(2, Vec(1.0, 10.0, 1.0), 0, 0, 0);
    assert q.Fits(Cell(1, 2, 1)) && q.Area(Cell(1, 2, 1)) == 1.0;
    assert q.Fits(q.Guess()) && q.Area(q.Guess()) == 10.0;
    forall c | q.Fits(c) ensures q.Area(c) >= 1.0 {
      if c.x == 1 && c.y == 1 {
        assert c.z == 2;
      } else if c.x == 1 {
        ProductGrows(c.y, 1, c.z);
      } else {
        FactorsBounded(c, 2);
      }
    }
  }

  // ----- blocks of ranks on a node ----------------------------------------------------------

  ghost predicate Divides(a: nat, b: nat) {
    1 <= a && b % a == 0
  }

  /** A block of `m` ranks whose sides divide the sides of the grid. */
  ghost predicate Splits(m: nat, grid: Cell, c: Cell) {
    IsFactorisation(c, m) && Divides(c.x, grid.x) && Divides(c.y, grid.y) && Divides(c.z, grid.z)
  }

  lemma DividesByFactor(a: nat, b: nat, k: int)
    requires 1 <= a && b == a * k
    ensures Divides(a, b)
  {
    ModOfMultiple(a, k);
  }

  lemma ModOfMultiple(a: nat, k: int)
    requires 1 <= a
    ensures (a * k) % a == 0
  {
    var (q, r) := ((a * k) / a, (a * k) % a);
    assert a * k == a * q + r;
    MultipleInRange(a, k - q, r);
  }

  /** The only multiple of `a` in [0, a) is 0. */
  lemma MultipleInRange(a: int, k: int, r: int)
    requires a * k == r && 0 <= r < a
    ensures r == 0
  {
    if k >= 1 {
    } else if k <= -1 {
    }
  }

  /** The Euclidean algorithm with its certificate. */
  lemma Bezout(a: nat, b: nat) returns (g: nat, u: int, v: int)
    requires 1 <= a
    ensures 1 <= g && Divides(g, a) && Divides(g, b) && u * a + v * b == g
    decreases b
  {
    if b == 0 {
      g, u, v := a, 1, 0;
      DividesByFactor(a, a, 1);
    } else {
      var u', v';
      g, u', v' := Bezout(b, a % b);
      var q := a / b;
      assert a == b * q + a % b;
      u, v := v', u' - v' * q;
      BezoutStep(a, b, q, a % b, u', v');
      var (s, t) := (b / g, (a % b) / g);
      assert b == g * s && a % b == g * t;
      assert a == g * (s * q + t) by {
        MulAssociates(g, s, q);
      }
      DividesByFactor(g, a, s * q + t);
    }
  }

  lemma MulAssociates(g: int, s: int, q: int)
    ensures g * s * q == g * (s * q)
  {
  }

  lemma BezoutStep(a: int, b: int, q: int, r: int, u: int, v: int)
    requires a == b * q + r
    ensures v * a + (u - v * q) * b == u * b + v * r
  {
    assert v * a == v * (b * q) + v * r;
    assert (u - v * q) * b == u * b - v * q * b;
    assert v * (b * q) == v * q * b;
  }

  /** A divisor of a product splits into divisors of its factors. */
  lemma DivisorSplits(m: nat, x: nat, y: nat) returns (a: nat, b: nat)
    requires Divides(m, x * y)
    ensures a * b == m && Divides(a, x) && Divides(b, y)
  {
    var g, u, v := Bezout(m, x);
    a, b := g, m / g;
    assert m == g * b;
    assert b >= 1;
    var k := (x * y) / m;
    assert x * y == m * k;
    DivisorCofactor(g, b, m, x, y, u, v, k);
    DividesByFactor(b, y, u * y + v * k);
  }

  lemma DivisorCofactor(g: nat, b: nat, m: nat, x: nat, y: nat, u: int, v: int, k: int)
    requires 1 <= g && m == g * b && u * m + v * x == g && x * y == m * k
    ensures y == b * (u * y + v * k)
  {
    calc {
      g * y;
      (u * m + v * x) * y;
      u * m * y + v * x * y;
      { MulAssociates(v, x, y); }
      u * m * y + v * (m * k);
      { assert u * m * y == m * (u * y); assert v * (m * k) == m * (v * k); }
      m * (u * y + v * k);
      { MulAssociates(g, b, u * y + v * k); }
      g * (b * (u * y + v * k));
    }
    CancelFactor(g, y, b * (u * y + v * k));
  }

  lemma CancelFactor(g: int, a: int, b: int)
    requires g >= 1 && g * a == g * b
    ensures a == b
  {
    assert g * (a - b) == 0;
  }

  /** The block always exists if the number of ranks per node divides the number of domains. */
  lemma BlockExists(m: nat, grid: Cell)
    requires Divides(m, grid.x * grid.y * grid.z)
    ensures exists c :: Splits(m, grid, c)
  {
    var ab, c := DivisorSplits(m, grid.x * grid.y, grid.z);
    var a, b := DivisorSplits(ab, grid.x, grid.y);
    assert Splits(m, grid, Cell(a, b, c));
  }

  ghost predicate NotAfter(c: Cell, d: Cell) {
    c == d || Seen(c, d.x, d.y, d.z)
  }

  /** The last block seen, or the guess. */
  ghost predicate BlockProgress(m: nat, grid: Cell, best: Cell, x: nat, y: nat, z: nat) {
    && (best == Cell(1, 1, m) || (Splits(m, grid, best) && Seen(best, x, y, z)))
    && forall c :: Splits(m, grid, c) && Seen(c, x, y, z) ==> Splits(m, grid, best) && NotAfter(c, best)
  }

  lemma BlockSkips(m: nat, grid: Cell, best: Cell, x: nat, y: nat, z: nat, x': nat, y': nat, z': nat)
    requires BlockProgress(m, grid, best, x, y, z)
    requires forall c :: Splits(m, grid, c) && Seen(c, x', y', z') ==> Seen(c, x, y, z)
    requires forall c :: Seen(c, x, y, z) ==> Seen(c, x', y', z')
    ensures BlockProgress(m, grid, best, x', y', z')
  {
  }

  lemma BlockThirdEnds(m: nat, grid: Cell, best: Cell, x: nat, y: nat, z: nat)
    requires BlockProgress(m, grid, best, x, y, z) && x * y * z > m
    ensures BlockProgress(m, grid, best, x, y + 1, 1)
  {
    forall c | Splits(m, grid, c) && Seen(c, x, y + 1, 1) ensures Seen(c, x, y, z) {
      ThirdEnds(c, m, x, y, z);
    }
    BlockSkips(m, grid, best, x, y, z, x, y + 1, 1);
  }

  lemma BlockSecondEnds(m: nat, grid: Cell, best: Cell, x: nat, y: nat)
    requires BlockProgress(m, grid, best, x, y, 1) && x * y > m
    ensures BlockProgress(m, grid, best, x + 1, 1, 1)
  {
    forall c | Splits(m, grid, c) && Seen(c, x + 1, 1, 1) ensures Seen(c, x, y, 1) {
      SecondEnds(c, m, x, y);
    }
    BlockSkips(m, grid, best, x, y, 1, x + 1, 1, 1);
  }

  lemma BlockFound(m: nat, grid: Cell, best: Cell)
    requires BlockProgress(m, grid, best, m + 1, 1, 1)
    ensures forall c :: Splits(m, grid, c) ==> Splits(m, grid, best) && NotAfter(c, best)
  {
    forall c | Splits(m, grid, c) ensures Seen(c, m + 1, 1, 1) {
      FactorsBounded(c, m);
    }
  }

  /**
  Split the grid into blocks of `m` ranks: the last block in search order that divides the grid. It
  exists whenever `m` divides the number of domains, as it does when all nodes hold `m` ranks.
   */
  method Subdivide(m: nat, grid: Cell) returns (best: Cell)
    requires 1 <= m
    ensures forall c :: Splits(m, grid, c) ==> Splits(m, grid, best) && NotAfter(c, best)
    ensures Divides(m, grid.x * grid.y * grid.z) ==> Splits(m, grid, best)
    ensures best == Cell(1, 1, m) || Splits(m, grid, best)
  {
    best := Cell(1, 1, m);
    var x := 1;
    while x <= m
      invariant 1 <= x <= m + 1 && BlockProgress(m, grid, best, x, 1, 1)
    {
      best := SubdivideSecond(m, grid, best, x);
      x := x + 1;
    }
    BlockFound(m, grid, best);
    if Divides(m, grid.x * grid.y * grid.z) {
      BlockExists(m, grid);
    }
  }

  method SubdivideSecond(m: nat, grid: Cell, start: Cell, x: nat) returns (best: Cell)
    requires 1 <= x && BlockProgress(m, grid, start, x, 1, 1)
    ensures BlockProgress(m, grid, best, x + 1, 1, 1)
  {
    best := start;
    var y := 1;
    while x * y <= m
      invariant 1 <= y && BlockProgress(m, grid, best, x, y, 1)
      decreases m - x * y
    {
      best := SubdivideThird(m, grid, best, x, y);
      ProductStep(x, y);
      y := y + 1;
    }
    BlockSecondEnds(m, grid, best, x, y);
  }

  method SubdivideThird(m: nat, grid: Cell, start: Cell, x: nat, y: nat) returns (best: Cell)
    requires 1 <= x && 1 <= y && BlockProgress(m, grid, start, x, y, 1)
    ensures BlockProgress(m, grid, best, x, y + 1, 1)
  {
    best := start;
    ProductGrows(x, 1, y);
    var z := 1;
    while x * y * z <= m
      invariant 1 <= z && BlockProgress(m, grid, best, x, y, z)
      decreases m - x * y * z
    {
      if x * y * z == m && grid.x % x == 0 && grid.y % y == 0 && grid.z % z == 0 {
        best := Cell(x, y, z);
      }
      ProductStep(x * y, z);
      z := z + 1;
    }
    BlockThirdEnds(m, grid, best, x, y, z);
  }
}
