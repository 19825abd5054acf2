/**
The W x H x D torus of ranks on which every communication step runs: the row-major
cell indexer, the map between cells and ranks, and the six next-neighbour directions.
 */
module Grid {

  const DIRECTIONS := 6

  type Direction = d: nat | d < DIRECTIONS

  /** Position of a domain in the grid. */
  datatype Cell = Cell(x: nat, y: nat, z: nat)

  /** Row-major mapping of a 3D index onto a 1D index. */
  datatype Indexer = Indexer(w: nat, h: nat, d: nat) {

    ghost predicate Valid() {
      0 < w && 0 < h && 0 < d
    }

    function Size(): nat {
      w * h * d
    }

    predicate Contains(c: Cell) {
      c.x < w && c.y < h && c.z < d
    }

    function Row(c: Cell): nat {
      c.z * h + c.y
    }

    function Index(c: Cell): nat {
      Row(c) * w + c.x
    }

    /** The inverse of Index, computed by division as the source does. */
    function Triple(idx: nat): (c: Cell)
      requires Valid() && idx < Size()
      ensures Contains(c) && Index(c) == idx
    {
      PlaneIsPositive(this);
      var z := idx / (h * w);
      var y := (idx % (h * w)) / w;
      TripleInRange(this, idx, h * w, z, y);
      Cell(idx - z * h * w - y * w, y, z)
    }
  }

  lemma DivRange(n: nat, m: nat, k: nat)
    requires 0 < m && n < k * m
    ensures n / m < k && n == (n / m) * m + n % m && 0 <= n % m < m
  {
    if n / m >= k {
      MulMonotone(k, n / m, m);
    }
  }

  lemma MulMonotone(a: nat, b: nat, c: nat)
    requires a <= b
    ensures a * c <= b * c
  {
  }

  lemma PlaneIsPositive(g: Indexer)
    requires g.Valid()
    ensures 0 < g.h * g.w
  {
    MulMonotone(1, g.h, g.w);
  }

  lemma TripleInRange(g: Indexer, idx: nat, plane: nat, z: int, y: int)
    requires g.Valid() && idx < g.Size() && plane == g.h * g.w && 0 < plane && z == idx / plane && y == (idx % plane) / g.w
    ensures 0 <= z && 0 <= y && 0 <= idx - z * g.h * g.w - y * g.w
    ensures var c := Cell(idx - z * g.h * g.w - y * g.w, y, z); g.Contains(c) && g.Index(c) == idx
  {
    MulRegroup(g.w, g.h, g.d);
    DivRange(idx, plane, g.d);
    DivRange(idx % plane, g.w, g.h);
    MulSplit(z, g.h, y, g.w);
  }

  lemma MulRegroup(a: nat, b: nat, c: nat)
    ensures a * b * c == c * (b * a)
  {
  }

  lemma MulSplit(z: nat, h: nat, y: nat, w: nat)
    ensures z * h * w == z * (h * w)
    ensures (z * h + y) * w == z * (h * w) + y * w
  {
  }

  /** Two numbers written as `q * m + r` with a small remainder agree only if both parts do. */
  lemma DivUnique(q1: nat, r1: nat, q2: nat, r2: nat, m: nat)
    requires r1 < m && r2 < m && q1 * m + r1 == q2 * m + r2
    ensures q1 == q2 && r1 == r2
  {
    if q1 < q2 {
      MulMonotone(q1 + 1, q2, m);
    } else if q2 < q1 {
      MulMonotone(q2 + 1, q1, m);
    }
  }

  lemma IndexBelowSize(g: Indexer, c: Cell)
    requires g.Valid() && g.Contains(c)
    ensures g.Index(c) < g.Size()
  {
    MulMonotone(c.z + 1, g.d, g.h);
    assert (c.z + 1) * g.h == c.z * g.h + g.h;
    assert g.d * g.h * g.w == g.Size();
    MulMonotone(c.z * g.h + c.y + 1, g.d * g.h, g.w);
    assert (c.z * g.h + c.y + 1) * g.w == (c.z * g.h + c.y) * g.w + g.w;
  }

  /** Index is injective on the grid. */
  lemma IndexInjective(g: Indexer, a: Cell, b: Cell)
    requires g.Valid() && g.Contains(a) && g.Contains(b) && g.Index(a) == g.Index(b)
    ensures a == b
  {
    DivUnique(g.Row(a), a.x, g.Row(b), b.x, g.w);
    SameRow(g, a, b);
  }

  lemma SameRow(g: Indexer, a: Cell, b: Cell)
    requires g.Contains(a) && g.Contains(b) && g.Row(a) == g.Row(b)
    ensures a.y == b.y && a.z == b.z
  {
    DivUnique(a.z, a.y, b.z, b.y, g.h);
  }

  /** Cells are numbered along x first, then along y, then along z. */
  ghost predicate Precedes(a: Cell, b: Cell) {
    a.z < b.z || (a.z == b.z && (a.y < b.y || (a.y == b.y && a.x < b.x)))
  }

  lemma IndexOrder(g: Indexer, a: Cell, b: Cell)
    requires g.Valid() && g.Contains(a) && g.Contains(b)
    ensures g.Index(a) < g.Index(b) <==> Precedes(a, b)
  {
    DivOrder(a.z, a.y, b.z, b.y, g.h);
    DivOrder(g.Row(a), a.x, g.Row(b), b.x, g.w);
  }

  lemma DivOrder(q1: nat, r1: nat, q2: nat, r2: nat, m: nat)
    requires r1 < m && r2 < m
    ensures q1 * m + r1 < q2 * m + r2 <==> q1 < q2 || (q1 == q2 && r1 < r2)
    ensures q1 * m + r1 == q2 * m + r2 <==> q1 == q2 && r1 == r2
  {
    if q1 < q2 {
      MulMonotone(q1 + 1, q2, m);
    } else if q2 < q1 {
      MulMonotone(q2 + 1, q1, m);
    }
  }

  /** Triple undoes Index. */
  lemma TripleOfIndex(g: Indexer, c: Cell)
    requires g.Valid() && g.Contains(c)
    ensures g.Index(c) < g.Size() && g.Triple(g.Index(c)) == c
  {
    IndexBelowSize(g, c);
    IndexInjective(g, g.Triple(g.Index(c)), c);
  }

  /** The domain decomposition: the grid and the two rank tables. */
  datatype Decomposition = Decomposition(grid: Indexer, cartRanks: seq<nat>, cartRanksInv: seq<nat>) {

    /** The two tables are mutually inverse permutations of the rank numbers. */
    ghost predicate Valid() {
      && grid.Valid()
      && |cartRanks| == |cartRanksInv| == grid.Size()
      && (forall i :: 0 <= i < |cartRanks| ==> cartRanks[i] < |cartRanks| && cartRanksInv[cartRanks[i]] == i)
      && (forall r :: 0 <= r < |cartRanks| ==> cartRanksInv[r] < |cartRanks| && cartRanks[cartRanksInv[r]] == r)
    }

    function Ranks(): nat {
      |cartRanks|
    }

    /** The grid position of a rank, by reverse look-up. */
    function Position(rank: nat): (c: Cell)
      requires Valid() && rank < Ranks()
      ensures grid.Contains(c)
    {
      grid.Triple(cartRanksInv[rank])
    }

    function RankAt(c: Cell): (rank: nat)
      requires Valid() && grid.Contains(c)
      ensures rank < Ranks()
    {
      IndexBelowSize(grid, c);
      cartRanks[grid.Index(c)]
    }

    /** Communication happens only along axes with more than one domain. */
    predicate IsCommunicating(dir: Direction) {
      if dir < 2 then grid.w != 1 else if dir < 4 then grid.h != 1 else grid.d != 1
    }

    /** The neighbour in one of the six directions, wrapping across the boundaries. */
    function NeighborRank(rank: nat, dir: Direction): (r: nat)
      requires Valid() && rank < Ranks()
      ensures r < Ranks()
    {
      RankAt(Hop(grid, Position(rank), dir))
    }
  }

  /** One step along an axis of length `len`: forward or backward, wrapping. */
  function Wrapped(i: int, len: nat): int {
    if i < 0 then i + len else if i == len then i - len else i
  }

  /** The cell next to `c`: 0 east, 1 west, 2 north, 3 south, 4 up, 5 down. */
  function Hop(g: Indexer, c: Cell, dir: Direction): (r: Cell)
    requires g.Valid() && g.Contains(c)
    ensures g.Contains(r)
  {
    match dir
    case 0 => c.(x := Wrapped(c.x + 1, g.w))
    case 1 => c.(x := Wrapped(c.x - 1, g.w))
    case 2 => c.(y := Wrapped(c.y + 1, g.h))
    case 3 => c.(y := Wrapped(c.y - 1, g.h))
    case 4 => c.(z := Wrapped(c.z + 1, g.d))
    case _ => c.(z := Wrapped(c.z - 1, g.d))
  }

  /** The direction a rank receives from while it sends towards `dir`. */
  function Opposite(dir: Direction): (o: Direction)
    ensures o != dir && o / 2 == dir / 2
    ensures (if o % 2 == 0 then o + 1 else o - 1) == dir
  {
    if dir % 2 == 0 then dir + 1 else dir - 1
  }

  /** Positions and ranks are in bijection. */
  lemma RankAtPosition(t: Decomposition, rank: nat)
    requires t.Valid() && rank < t.Ranks()
    ensures t.RankAt(t.Position(rank)) == rank
  {
  }

  lemma PositionOfRankAt(t: Decomposition, c: Cell)
    requires t.Valid() && t.grid.Contains(c)
    ensures t.Position(t.RankAt(c)) == c
  {
    TripleOfIndex(t.grid, c);
  }

  lemma HopOpposite(g: Indexer, c: Cell, dir: Direction)
    requires g.Valid() && g.Contains(c)
    ensures Hop(g, Hop(g, c, dir), Opposite(dir)) == c
  {
  }

  lemma HopsCommute(g: Indexer, c: Cell, a: Direction, b: Direction)
    requires g.Valid() && g.Contains(c) && a / 2 != b / 2
    ensures Hop(g, Hop(g, c, a), b) == Hop(g, Hop(g, c, b), a)
  {
  }

  /**
  Opposite directions are mutually inverse permutations of the ranks, so the rank a message
  is sent to expects it from exactly its sender.
   */
  lemma NeighborOpposite(t: Decomposition, rank: nat, dir: Direction)
    requires t.Valid() && rank < t.Ranks()
    ensures t.NeighborRank(t.NeighborRank(rank, dir), Opposite(dir)) == rank
  {
    PositionOfRankAt(t, Hop(t.grid, t.Position(rank), dir));
    HopOpposite(t.grid, t.Position(rank), dir);
    RankAtPosition(t, rank);
  }

  lemma NeighborsCommute(t: Decomposition, rank: nat, a: Direction, b: Direction)
    requires t.Valid() && rank < t.Ranks() && a / 2 != b / 2
    ensures t.NeighborRank(t.NeighborRank(rank, a), b) == t.NeighborRank(t.NeighborRank(rank, b), a)
  {
    PositionOfRankAt(t, Hop(t.grid, t.Position(rank), a));
    PositionOfRankAt(t, Hop(t.grid, t.Position(rank), b));
    HopsCommute(t.grid, t.Position(rank), a, b);
  }

  /** A communicating direction never leads a rank back to itself. */
  lemma NeighborIsOther(t: Decomposition, rank: nat, dir: Direction)
    requires t.Valid() && rank < t.Ranks() && t.IsCommunicating(dir)
    ensures t.NeighborRank(rank, dir) != rank
  {
    PositionOfRankAt(t, Hop(t.grid, t.Position(rank), dir));
  }
}
