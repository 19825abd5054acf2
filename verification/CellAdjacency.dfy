/**
The neighbours of a cell: all cells within a radius along every axis, wrapping around the grid,
each listed once.
 */
module CellAdjacency {
  import opened Grid
  import opened Sequences

  // ----- one axis ---------------------------------------------------------------------------

  /** Remainder as in the source: it has the sign of the dividend. */
  function TruncatedMod(n: int, m: nat): int
    requires 0 < m
  {
    if n >= 0 then n % m else -((-n) % m)
  }

  lemma RemainderUnique(q1: int, r1: int, q2: int, r2: int, m: int)
    requires 0 <= r1 < m && 0 <= r2 < m && q1 * m + r1 == q2 * m + r2
    ensures q1 == q2 && r1 == r2
  {
    var d := q1 - q2;
    assert d * m == r2 - r1;
    if d >= 1 {
    } else if d <= -1 {
    }
  }

  lemma ModIs(n: int, q: int, r: int, m: nat)
    requires 0 <= r < m && n == q * m + r
    ensures n % m == r
  {
    RemainderUnique(n / m, n % m, q, r, m);
  }

  /** A negative remainder moved up by `m` is the residue in [0, m). */
  lemma TruncatedIsResidue(n: int, m: nat)
    requires 0 < m
    ensures var t := TruncatedMod(n, m); (if t < 0 then t + m else t) == n % m
  {
    if n < 0 {
      var (q, r) := ((-n) / m, (-n) % m);
      assert -n == q * m + r;
      if r == 0 {
        assert n == (-q) * m + 0;
        ModIs(n, -q, 0, m);
      } else {
        assert n == (-q - 1) * m + (m - r);
        ModIs(n, -q - 1, m - r, m);
      }
    }
  }

  /** Bring a cell coordinate back into the grid. */
  method WrapIndex(n: int, m: nat) returns (w: nat)
    requires 0 < m
    ensures w == n % m && w < m
  {
    TruncatedIsResidue(n, m);
    var t := TruncatedMod(n, m);
    if t < 0 {
      t := t + m;
    }
    w := t;
  }

  /** Two cells of a ring are at most `r` steps apart, one way or the other. */
  ghost predicate Near(i: int, j: int, r: nat, m: nat)
    requires 0 < m
  {
    (j - i) % m <= r || (i - j) % m <= r
  }

  /** The residues of i, i + 1, ..., i + n - 1. */
  ghost function Window(i: int, n: nat, m: nat): set<nat>
    requires 0 < m
  {
    if n == 0 then {} else Window(i, n - 1, m) + {(i + (n - 1)) % m}
  }

  lemma {:induction false} WindowMember(i: int, n: nat, m: nat, j: int)
    requires 0 < m && 0 <= j < m
    ensures j in Window(i, n, m) <==> (j - i) % m < n
    ensures Window(i, n, m) <= Naturals(m)
  {
    NaturalsCount(m);
    if n > 0 {
      WindowMember(i, n - 1, m, j);
      ShiftedResidue(i, n - 1, j, m);
    }
  }

  /** Stepping from `i` first reaches `j` after (j - i) % m steps. */
  lemma ShiftedResidue(i: int, s: nat, j: int, m: nat)
    requires 0 < m && 0 <= j < m
    ensures s < m ==> ((i + s) % m == j <==> (j - i) % m == s)
    ensures s >= m ==> (j - i) % m < s
  {
    var (q, d) := ((j - i) / m, (j - i) % m);
    assert j - i == q * m + d;
    if s < m {
      if d == s {
        assert i + s == (-q) * m + j;
        ModIs(i + s, -q, j, m);
      }
      if (i + s) % m == j {
        var p := (i + s) / m;
        assert i + s == p * m + j;
        assert j - i == (-p) * m + s;
        ModIs(j - i, -p, s, m);
      }
    }
  }

  lemma AddOne(s: set<nat>, x: nat)
    ensures |s + {x}| == if x in s then |s| else |s| + 1
  {
    if x in s {
      assert s + {x} == s;
    }
  }

  lemma RemoveOne(s: set<nat>, x: nat)
    requires x in s
    ensures |s| == |s - {x}| + 1
  {
    AddOne(s - {x}, x);
    assert s - {x} + {x} == s;
  }

  /** A window grows until it has gone around. */
  lemma WindowNext(i: int, n: nat, m: nat)
    requires 0 < m
    ensures (i + n) % m in Window(i, n, m) <==> n >= m
  {
    var next := (i + n) % m;
    WindowMember(i, n, m, next);
    ShiftedResidue(i, n, next, m);
  }

  lemma {:induction false} WindowSize(i: int, n: nat, m: nat)
    requires 0 < m
    ensures |Window(i, n, m)| == if n <= m then n else m
  {
    if n > 0 {
      WindowSize(i, n - 1, m);
      WindowNext(i, n - 1, m);
      AddOne(Window(i, n - 1, m), (i + (n - 1)) % m);
    }
  }

  /** A window of 2r + 1 cells around `i` holds the cells at most `r` steps away. */
  lemma WindowIsNear(i: int, r: nat, m: nat, j: int)
    requires 0 < m && 0 <= j < m
    ensures j in Window(i - r, 2 * r + 1, m) <==> Near(i, j, r, m)
  {
    WindowMember(i - r, 2 * r + 1, m, j);
    var (q, d) := ((j - i) / m, (j - i) % m);
    assert j - i == q * m + d;
    Opposed(i, j, m, q, d);
    // (j - (i - r)) % m is d + r or d + r - m, or everything is near
    if d + r < m {
      ModIs(j - (i - r), q, d + r, m);
    } else if r < m {
      assert j - (i - r) == (q + 1) * m + (d + r - m);
      ModIs(j - (i - r), q + 1, d + r - m, m);
    }
  }

  /** The cells of a ring at most `r` steps away from `i`. */
  ghost function NearSet(i: int, r: nat, m: nat): set<nat>
    requires 0 < m
  {
    set j | j in Naturals(m) && Near(i, j, r, m)
  }

  lemma NearSetIsWindow(i: int, r: nat, m: nat)
    requires 0 < m
    ensures NearSet(i, r, m) == Window(i - r, 2 * r + 1, m)
  {
    NaturalsCount(m);
    WindowMember(i - r, 2 * r + 1, m, 0);
    forall j: nat | j < m ensures j in NearSet(i, r, m) <==> j in Window(i - r, 2 * r + 1, m) {
      WindowIsNear(i, r, m, j);
    }
  }

  lemma Opposed(i: int, j: int, m: nat, q: int, d: int)
    requires 0 < m && j - i == q * m + d && 0 <= d < m
    ensures (i - j) % m == if d == 0 then 0 else m - d
  {
    if d == 0 {
      assert i - j == (-q) * m + 0;
      ModIs(i - j, -q, 0, m);
    } else {
      assert i - j == (-q - 1) * m + (m - d);
      ModIs(i - j, -q - 1, m - d, m);
    }
  }

  // ----- three axes -------------------------------------------------------------------------

  /** The cells with coordinates in the given sets. */
  ghost function RowCells(g: Indexer, xs: set<nat>, y: nat, z: nat): set<nat> {
    set x | x in xs :: g.Index(Cell(x, y, z))
  }

  lemma {:induction false} RowSize(g: Indexer, xs: set<nat>, y: nat, z: nat)
    requires g.Valid() && y < g.h && z < g.d && forall x :: x in xs ==> x < g.w
    ensures |RowCells(g, xs, y, z)| == |xs|
  {
    if xs == {} {
      assert RowCells(g, xs, y, z) == {};
    } else {
      var x :| x in xs;
      RowSize(g, xs - {x}, y, z);
      var rest := RowCells(g, xs - {x}, y, z);
      forall x' | x' in xs - {x} ensures g.Index(Cell(x', y, z)) != g.Index(Cell(x, y, z)) {
      }
      assert RowCells(g, xs, y, z) == rest + {g.Index(Cell(x, y, z))};
    }
  }

  ghost function PlaneCells(g: Indexer, xs: set<nat>, ys: set<nat>, z: nat): set<nat> {
    set x, y | x in xs && y in ys :: g.Index(Cell(x, y, z))
  }

  ghost function BlockCells(g: Indexer, xs: set<nat>, ys: set<nat>, zs: set<nat>): set<nat> {
    set x, y, z | x in xs && y in ys && z in zs :: g.Index(Cell(x, y, z))
  }

  ghost predicate Below(s: set<nat>, n: nat) {
    forall x :: x in s ==> x < n
  }

  lemma CardinalOfSplit(a: set<nat>, b: set<nat>, whole: set<nat>)
    requires whole == a + b && a !! b
    ensures |whole| == |a| + |b|
  {
  }

  lemma RowsDisjoint(g: Indexer, xs: set<nat>, ys: set<nat>, y: nat, z: nat)
    requires g.Valid() && Below(xs, g.w) && Below(ys, g.h) && y < g.h && z < g.d && y !in ys
    ensures PlaneCells(g, xs, ys, z) !! RowCells(g, xs, y, z)
  {
    forall x, y', x' | x in xs && y' in ys && x' in xs ensures g.Index(Cell(x, y', z)) != g.Index(Cell(x', y, z)) {
      if g.Index(Cell(x, y', z)) == g.Index(Cell(x', y, z)) {
        IndexInjective(g, Cell(x, y', z), Cell(x', y, z));
      }
    }
  }

  lemma ProductStep(size: nat, a: nat, b: nat, rest: nat)
    requires b == rest + 1 && size == a * rest + a
    ensures size == a * b
  {
  }

  lemma PlaneSplit(g: Indexer, xs: set<nat>, ys: set<nat>, y: nat, z: nat)
    requires y in ys
    ensures PlaneCells(g, xs, ys, z) == PlaneCells(g, xs, ys - {y}, z) + RowCells(g, xs, y, z)
  {
  }

  lemma BlockSplit(g: Indexer, xs: set<nat>, ys: set<nat>, zs: set<nat>, z: nat)
    requires z in zs
    ensures BlockCells(g, xs, ys, zs) == BlockCells(g, xs, ys, zs - {z}) + PlaneCells(g, xs, ys, z)
  {
  }

  lemma {:induction false} PlaneSize(g: Indexer, xs: set<nat>, ys: set<nat>, z: nat)
    requires g.Valid() && Below(xs, g.w) && Below(ys, g.h) && z < g.d
    ensures |PlaneCells(g, xs, ys, z)| == |xs| * |ys|
  {
    if ys == {} {
      assert PlaneCells(g, xs, ys, z) == {};
    } else {
      var y :| y in ys;
      PlaneSize(g, xs, ys - {y}, z);
      RowSize(g, xs, y, z);
      RowsDisjoint(g, xs, ys - {y}, y, z);
      PlaneSplit(g, xs, ys, y, z);
      CardinalOfSplit(PlaneCells(g, xs, ys - {y}, z), RowCells(g, xs, y, z), PlaneCells(g, xs, ys, z));
      RemoveOne(ys, y);
      ProductStep(|PlaneCells(g, xs, ys, z)|, |xs|, |ys|, |ys - {y}|);
    }
  }

  lemma PlanesDisjoint(g: Indexer, xs: set<nat>, ys: set<nat>, zs: set<nat>, z: nat)
    requires g.Valid() && Below(xs, g.w) && Below(ys, g.h) && Below(zs, g.d) && z < g.d && z !in zs
    ensures BlockCells(g, xs, ys, zs) !! PlaneCells(g, xs, ys, z)
  {
    forall x, y, z', x', y' | x in xs && y in ys && z' in zs && x' in xs && y' in ys
      ensures g.Index(Cell(x, y, z')) != g.Index(Cell(x', y', z))
    {
      if g.Index(Cell(x, y, z')) == g.Index(Cell(x', y', z)) {
        IndexInjective(g, Cell(x, y, z'), Cell(x', y', z));
      }
    }
  }

  lemma {:induction false} BlockSize(g: Indexer, xs: set<nat>, ys: set<nat>, zs: set<nat>)
    requires g.Valid() && Below(xs, g.w) && Below(ys, g.h) && Below(zs, g.d)
    ensures |BlockCells(g, xs, ys, zs)| == |xs| * |ys| * |zs|
  {
    if zs == {} {
      assert BlockCells(g, xs, ys, zs) == {};
    } else {
      var z :| z in zs;
      BlockSize(g, xs, ys, zs - {z});
      PlaneSize(g, xs, ys, z);
      PlanesDisjoint(g, xs, ys, zs - {z}, z);
      BlockSplit(g, xs, ys, zs, z);
      CardinalOfSplit(BlockCells(g, xs, ys, zs - {z}), PlaneCells(g, xs, ys, z), BlockCells(g, xs, ys, zs));
      RemoveOne(zs, z);
      ProductStep(|BlockCells(g, xs, ys, zs)|, |xs| * |ys|, |zs|, |zs - {z}|);
    }
  }

  // ----- neighbour lists --------------------------------------------------------------------

  /** The cells within `r` steps along x and y and within `rz` steps along z. */
  ghost function Neighbors(g: Indexer, r: nat, rz: nat, c: Cell): set<nat>
    requires g.Valid()
  {
    BlockCells(g, NearSet(c.x, r, g.w), NearSet(c.y, r, g.h), NearSet(c.z, rz, g.d))
  }

  /** Neighbours are the cells near along every axis. */
  lemma NeighborIffNear(g: Indexer, r: nat, rz: nat, a: Cell, b: Cell)
    requires g.Valid() && g.Contains(b)
    ensures g.Index(b) in Neighbors(g, r, rz, a) <==> Near(a.x, b.x, r, g.w) && Near(a.y, b.y, r, g.h) && Near(a.z, b.z, rz, g.d)
  {
    NaturalsCount(g.w);
    NaturalsCount(g.h);
    NaturalsCount(g.d);
    BlockMember(g, NearSet(a.x, r, g.w), NearSet(a.y, r, g.h), NearSet(a.z, rz, g.d), b);
  }

  lemma BlockMember(g: Indexer, xs: set<nat>, ys: set<nat>, zs: set<nat>, b: Cell)
    requires g.Valid() && g.Contains(b) && Below(xs, g.w) && Below(ys, g.h) && Below(zs, g.d)
    ensures g.Index(b) in BlockCells(g, xs, ys, zs) <==> b.x in xs && b.y in ys && b.z in zs
  {
    if g.Index(b) in BlockCells(g, xs, ys, zs) {
      var x, y, z :| x in xs && y in ys && z in zs && g.Index(Cell(x, y, z)) == g.Index(b);
      IndexInjective(g, Cell(x, y, z), b);
    }
    if b.x in xs && b.y in ys && b.z in zs {
      assert b == Cell(b.x, b.y, b.z);
    }
  }

  /** Being a neighbour is mutual. */
  lemma NeighborsAreSymmetric(g: Indexer, r: nat, rz: nat, a: Cell, b: Cell)
    requires g.Valid() && g.Contains(a) && g.Contains(b)
    ensures g.Index(b) in Neighbors(g, r, rz, a) <==> g.Index(a) in Neighbors(g, r, rz, b)
  {
    NeighborIffNear(g, r, rz, a, b);
    NeighborIffNear(g, r, rz, b, a);
  }

  function Min(a: nat, b: nat): nat {
    if a > b then b else a
  }

  /** The length allocated for every neighbour list; in two dimensions the z axis does not count. */
  function AdjacencyLength(g: Indexer, r: nat, twoD: bool): nat {
    var plane := Min(g.w, 2 * r + 1) * Min(g.h, 2 * r + 1);
    if twoD then plane else plane * Min(g.d, 2 * r + 1)
  }

  lemma NearSetSize(i: int, r: nat, m: nat)
    requires 0 < m
    ensures |NearSet(i, r, m)| == Min(m, 2 * r + 1) && Below(NearSet(i, r, m), m)
  {
    NaturalsCount(m);
    NearSetIsWindow(i, r, m);
    WindowSize(i - r, 2 * r + 1, m);
  }

  lemma NeighborsPerAxis(g: Indexer, r: nat, rz: nat, c: Cell)
    requires g.Valid()
    ensures |Neighbors(g, r, rz, c)| == Min(g.w, 2 * r + 1) * Min(g.h, 2 * r + 1) * Min(g.d, 2 * rz + 1)
  {
    NearSetSize(c.x, r, g.w);
    NearSetSize(c.y, r, g.h);
    NearSetSize(c.z, rz, g.d);
    var (xs, ys, zs) := (NearSet(c.x, r, g.w), NearSet(c.y, r, g.h), NearSet(c.z, rz, g.d));
    BlockSize(g, xs, ys, zs);
    ProductOf(|Neighbors(g, r, rz, c)|, |xs|, |ys|, |zs|, Min(g.w, 2 * r + 1), Min(g.h, 2 * r + 1), Min(g.d, 2 * rz + 1));
  }

  lemma ProductOf(size: nat, a: nat, b: nat, c: nat, a': nat, b': nat, c': nat)
    requires size == a * b * c && a == a' && b == b' && c == c'
    ensures size == a' * b' * c'
  {
  }

  /** Every cell has exactly as many neighbours as were allocated. */
  lemma NeighborCount(g: Indexer, r: nat, twoD: bool, c: Cell)
    requires g.Valid() && (twoD ==> g.d == 1)
    ensures |Neighbors(g, r, if twoD then 0 else r, c)| == AdjacencyLength(g, r, twoD)
  {
    if twoD {
      NeighborsPerAxis(g, r, 0, c);
      TimesOne(Min(g.w, 2 * r + 1) * Min(g.h, 2 * r + 1), Min(g.d, 1));
    } else {
      NeighborsPerAxis(g, r, r, c);
    }
  }

  lemma TimesOne(p: nat, m: nat)
    requires m == 1
    ensures p * m == p
  {
  }

  /** Sort a list and drop duplicates. */
  method SortUnique(s: seq<nat>) returns (r: seq<nat>)
    ensures Increasing(r) && Members(r) == Members(s)
  {
    r := [];
    for i := 0 to |s|
      invariant Increasing(r) && Members(r) == Members(s[..i])
    {
      r := Insert(r, s[i]);
      assert s[..i + 1] == s[..i] + [s[i]];
      assert Members(s[..i + 1]) == Members(s[..i]) + {s[i]};
    }
    assert s[..|s|] == s;
  }

  method Insert(s: seq<nat>, x: nat) returns (r: seq<nat>)
    requires Increasing(s)
    ensures Increasing(r) && Members(r) == Members(s) + {x}
  {
    var k := 0;
    while k < |s| && s[k] < x
      invariant 0 <= k <= |s| && forall j :: 0 <= j < k ==> s[j] < x
    {
      k := k + 1;
    }
    if k < |s| && s[k] == x {
      r := s;
    } else {
      InsertKeeps(s, x, k);
      r := s[..k] + [x] + s[k..];
    }
  }

  lemma InsertKeeps(s: seq<nat>, x: nat, k: nat)
    requires k <= |s| && Increasing(s) && (forall j :: 0 <= j < k ==> s[j] < x) && (k < |s| ==> x < s[k])
    ensures Increasing(s[..k] + [x] + s[k..]) && Members(s[..k] + [x] + s[k..]) == Members(s) + {x}
  {
    InsertIncreases(s, x, k);
    InsertMembers(s, x, k);
  }

  lemma InsertIncreases(s: seq<nat>, x: nat, k: nat)
    requires k <= |s| && Increasing(s) && (forall j :: 0 <= j < k ==> s[j] < x) && (k < |s| ==> x < s[k])
    ensures Increasing(s[..k] + [x] + s[k..])
  {
    var t := s[..k] + [x] + s[k..];
    forall i, j | 0 <= i < j < |t| ensures t[i] < t[j] {
      assert t[i] == if i < k then s[i] else if i == k then x else s[i - 1];
      assert t[j] == if j < k then s[j] else if j == k then x else s[j - 1];
    }
  }

  lemma InsertMembers(s: seq<nat>, x: nat, k: nat)
    requires k <= |s|
    ensures Members(s[..k] + [x] + s[k..]) == Members(s) + {x}
  {
    MembersAppend(s[..k], [x]);
    MembersAppend(s[..k] + [x], s[k..]);
    MembersAppend(s[..k], s[k..]);
    assert s == s[..k] + s[k..];
  }

  lemma RowAdds(g: Indexer, xs: set<nat>, x: nat, y: nat, z: nat)
    ensures RowCells(g, xs + {x}, y, z) == RowCells(g, xs, y, z) + {g.Index(Cell(x, y, z))}
  {
  }

  lemma PlaneAdds(g: Indexer, xs: set<nat>, ys: set<nat>, y: nat, z: nat)
    ensures PlaneCells(g, xs, ys + {y}, z) == PlaneCells(g, xs, ys, z) + RowCells(g, xs, y, z)
  {
  }

  lemma BlockAdds(g: Indexer, xs: set<nat>, ys: set<nat>, zs: set<nat>, z: nat)
    ensures BlockCells(g, xs, ys, zs + {z}) == BlockCells(g, xs, ys, zs) + PlaneCells(g, xs, ys, z)
  {
  }

  lemma BlockNext(g: Indexer, xs: set<nat>, ys: set<nat>, i: int, n: nat, next: nat, z: nat, adj: seq<nat>, plane: seq<nat>)
    requires g.Valid() && z == (i + n) % g.d && next == n + 1
    requires Members(adj) == BlockCells(g, xs, ys, Window(i, n, g.d)) && Members(plane) == PlaneCells(g, xs, ys, z)
    ensures Members(adj + plane) == BlockCells(g, xs, ys, Window(i, next, g.d))
  {
    assert Window(i, next, g.d) == Window(i, n, g.d) + {z};
    BlockAdds(g, xs, ys, Window(i, n, g.d), z);
    MembersAppend(adj, plane);
  }

  lemma MembersAppend(a: seq<nat>, b: seq<nat>)
    ensures Members(a + b) == Members(a) + Members(b)
  {
  }

  /** Collect a row of neighbours, duplicates included. */
  method CollectRow(g: Indexer, r: nat, i: nat, wrapj: nat, wrapk: nat) returns (adj: seq<nat>)
    requires g.Valid()
    ensures Members(adj) == RowCells(g, NearSet(i, r, g.w), wrapj, wrapk)
  {
    adj := [];
    assert RowCells(g, {}, wrapj, wrapk) == {};
    for n := 0 to 2 * r + 1
      invariant Members(adj) == RowCells(g, Window(i - r, n, g.w), wrapj, wrapk)
    {
      var wrapi := WrapIndex(i - r + n, g.w);
      RowAdds(g, Window(i - r, n, g.w), wrapi, wrapj, wrapk);
      MembersAppend(adj, [g.Index(Cell(wrapi, wrapj, wrapk))]);
      adj := adj + [g.Index(Cell(wrapi, wrapj, wrapk))];
    }
    NearSetIsWindow(i, r, g.w);
  }

  method CollectPlane(g: Indexer, r: nat, i: nat, j: nat, wrapk: nat) returns (adj: seq<nat>)
    requires g.Valid()
    ensures Members(adj) == PlaneCells(g, NearSet(i, r, g.w), NearSet(j, r, g.h), wrapk)
  {
    adj := [];
    ghost var xs := NearSet(i, r, g.w);
    assert PlaneCells(g, xs, {}, wrapk) == {};
    for n := 0 to 2 * r + 1
      invariant Members(adj) == PlaneCells(g, xs, Window(j - r, n, g.h), wrapk)
    {
      var wrapj := WrapIndex(j - r + n, g.h);
      var row := CollectRow(g, r, i, wrapj, wrapk);
      PlaneAdds(g, xs, Window(j - r, n, g.h), wrapj, wrapk);
      MembersAppend(adj, row);
      adj := adj + row;
    }
    NearSetIsWindow(j, r, g.h);
  }

  /** Collect all neighbours of a cell, duplicates included. */
  method CollectNeighbors(g: Indexer, r: nat, rz: nat, c: Cell) returns (adj: seq<nat>)
    requires g.Valid()
    ensures Members(adj) == Neighbors(g, r, rz, c)
  {
    adj := [];
    ghost var (xs, ys) := (NearSet(c.x, r, g.w), NearSet(c.y, r, g.h));
    assert BlockCells(g, xs, ys, {}) == {};
    for n := 0 to 2 * rz + 1
      invariant Members(adj) == BlockCells(g, xs, ys, Window(c.z - rz, n, g.d))
    {
      var wrapk := WrapIndex(c.z - rz + n, g.d);
      var plane := CollectPlane(g, r, c.x, c.y, wrapk);
      BlockNext(g, xs, ys, c.z - rz, n, n + 1, wrapk, adj, plane);
      adj := adj + plane;
    }
    NearSetIsWindow(c.z, rz, g.d);
  }

  // ----- the table --------------------------------------------------------------------------

  /** A row of the table lists the neighbours of its cell in increasing order, each once. */
  ghost predicate RowRight(g: Indexer, r: nat, rz: nat, row: seq<nat>, cell: nat)
    requires g.Valid() && cell < g.Size()
  {
    Increasing(row) && Members(row) == Neighbors(g, r, rz, g.Triple(cell))
  }

  ghost function Row(table: array2<nat>, cell: nat): seq<nat>
    requires cell < table.Length0
    reads table
  {
    seq(table.Length1, j requires 0 <= j < table.Length1 reads table => table[cell, j])
  }

  /** The first `n` cells have their lists. */
  ghost predicate RowsRight(table: array2<nat>, g: Indexer, r: nat, rz: nat, n: nat)
    reads table
  {
    g.Valid() && n <= g.Size() <= table.Length0 && forall cell :: 0 <= cell < n ==> RowRight(g, r, rz, Row(table, cell), cell)
  }

  /** Cells are numbered with the first coordinate running fastest. */
  lemma NextCell(g: Indexer, j: nat, k: nat)
    ensures g.Index(Cell(g.w, j, k)) == g.Index(Cell(0, j + 1, k))
    ensures g.Index(Cell(0, g.h, k)) == g.Index(Cell(0, 0, k + 1))
    ensures g.Index(Cell(0, 0, g.d)) == g.Size()
  {
    assert (k * g.h + j) * g.w + g.w == (k * g.h + j + 1) * g.w;
    assert k * g.h + g.h == (k + 1) * g.h;
    assert g.d * g.h * g.w == g.w * g.h * g.d;
  }

  /** The table of neighbour lists. */
  class AdjacencyTable {
    var cellAdj: array2<nat>

    /** Room for every list at its exact length. */
    constructor (g: Indexer, r: nat, twoD: bool)
      ensures fresh(cellAdj) && cellAdj.Length0 == g.Size() && cellAdj.Length1 == AdjacencyLength(g, r, twoD)
    {
      cellAdj := new nat[g.Size(), AdjacencyLength(g, r, twoD)];
    }

    /** Fill the list of one cell. */
    method FillCell(g: Indexer, r: nat, twoD: bool, c: Cell)
      requires g.Valid() && (twoD ==> g.d == 1) && g.Contains(c) && cellAdj.Length1 == AdjacencyLength(g, r, twoD)
      requires RowsRight(cellAdj, g, r, if twoD then 0 else r, g.Index(c))
      modifies cellAdj
      ensures RowsRight(cellAdj, g, r, if twoD then 0 else r, g.Index(c) + 1)
    {
      var rz := if twoD then 0 else r;
      var current := g.Index(c);
      var adj := CollectNeighbors(g, r, rz, c);
      adj := SortUnique(adj);
      IncreasingCount(adj);
      NeighborCount(g, r, twoD, c);
      TripleOfIndex(g, c);
      for j := 0 to |adj|
        invariant forall i :: 0 <= i < j ==> cellAdj[current, i] == adj[i]
        invariant forall cell, i :: 0 <= cell < current && 0 <= i < cellAdj.Length1 ==> cellAdj[cell, i] == old(cellAdj[cell, i])
      {
        cellAdj[current, j] := adj[j];
      }
      assert Row(cellAdj, current) == adj;
      forall cell | 0 <= cell < current ensures Row(cellAdj, cell) == old(Row(cellAdj, cell)) {
      }
    }

    /** Fill all lists. */
    method InitializeCellAdj(g: Indexer, r: nat, twoD: bool)
      requires g.Valid() && (twoD ==> g.d == 1)
      requires cellAdj.Length0 == g.Size() && cellAdj.Length1 == AdjacencyLength(g, r, twoD)
      modifies cellAdj
      ensures RowsRight(cellAdj, g, r, if twoD then 0 else r, g.Size())
    {
      for k := 0 to g.d
        invariant RowsRight(cellAdj, g, r, if twoD then 0 else r, g.Index(Cell(0, 0, k)))
      {
        for j := 0 to g.h
          invariant RowsRight(cellAdj, g, r, if twoD then 0 else r, g.Index(Cell(0, j, k)))
        {
          for i := 0 to g.w
            invariant RowsRight(cellAdj, g, r, if twoD then 0 else r, g.Index(Cell(i, j, k)))
          {
            FillCell(g, r, twoD, Cell(i, j, k));
          }
          NextCell(g, j, k);
        }
        NextCell(g, 0, k);
      }
      NextCell(g, 0, 0);
    }
  }
}
