/**
The rank tables. Ranks are mapped to the grid in sequence or, when all nodes hold the same number of
ranks, so that the ranks of a node make up a block of the grid.
 */
module TwoLevel {
  import opened Grid
  import opened GridSearch
  import opened Sequences

  /** A grid cut into equal blocks: the grid of blocks and the grid inside a block. */
  datatype Blocks = Blocks(grid: Indexer, nodes: Indexer, block: Indexer) {

    ghost predicate Valid() {
      && grid.Valid() && nodes.Valid() && block.Valid()
      && grid.w == nodes.w * block.w && grid.h == nodes.h * block.h && grid.d == nodes.d * block.d
    }

    /** Nodes are visited with the last coordinate running fastest. */
    function NodeOrder(): Indexer {
      Indexer(nodes.d, nodes.h, nodes.w)
    }

    function NodeNumber(n: Cell): nat {
      NodeOrder().Index(Cell(n.z, n.y, n.x))
    }

    /** The cell of the whole grid at position `b` of block `n`. */
    function Global(n: Cell, b: Cell): Cell {
      Cell(n.x * block.w + b.x, n.y * block.h + b.y, n.z * block.d + b.z)
    }

    predicate Contains(n: Cell, b: Cell) {
      nodes.Contains(n) && block.Contains(b)
    }
  }

  lemma OffsetInRange(n: nat, b: nat, nodes: nat, size: nat)
    requires n < nodes && b < size
    ensures n * size + b < nodes * size
  {
    MulMonotone(n + 1, nodes, size);
  }

  lemma GlobalInGrid(l: Blocks, n: Cell, b: Cell)
    requires l.Valid() && l.Contains(n, b)
    ensures l.grid.Contains(l.Global(n, b)) && l.grid.Index(l.Global(n, b)) < l.grid.Size()
  {
    OffsetInRange(n.x, b.x, l.nodes.w, l.block.w);
    OffsetInRange(n.y, b.y, l.nodes.h, l.block.h);
    OffsetInRange(n.z, b.z, l.nodes.d, l.block.d);
    IndexBelowSize(l.grid, l.Global(n, b));
  }

  /** Different positions are different cells. */
  lemma GlobalInjective(l: Blocks, n: Cell, b: Cell, n': Cell, b': Cell)
    requires l.Valid() && l.Contains(n, b) && l.Contains(n', b')
    requires l.grid.Index(l.Global(n, b)) == l.grid.Index(l.Global(n', b'))
    ensures n == n' && b == b'
  {
    GlobalInGrid(l, n, b);
    GlobalInGrid(l, n', b');
    IndexInjective(l.grid, l.Global(n, b), l.Global(n', b'));
    DivUnique(n.x, b.x, n'.x, b'.x, l.block.w);
    DivUnique(n.y, b.y, n'.y, b'.y, l.block.h);
    DivUnique(n.z, b.z, n'.z, b'.z, l.block.d);
  }

  /** Every cell lies in a block. */
  lemma GlobalSurjective(l: Blocks, c: Cell) returns (n: Cell, b: Cell)
    requires l.Valid() && l.grid.Contains(c)
    ensures l.Contains(n, b) && l.Global(n, b) == c
  {
    DivRange(c.x, l.block.w, l.nodes.w);
    DivRange(c.y, l.block.h, l.nodes.h);
    DivRange(c.z, l.block.d, l.nodes.d);
    n := Cell(c.x / l.block.w, c.y / l.block.h, c.z / l.block.d);
    b := Cell(c.x % l.block.w, c.y % l.block.h, c.z % l.block.d);
  }

  // ----- ranks on nodes ---------------------------------------------------------------------

  /** The ranks of every node; each rank below `ranks` lives on one node. */
  ghost predicate OnNodes(ranksOf: seq<seq<nat>>, ranks: nat) {
    && (forall k, i :: 0 <= k < |ranksOf| && 0 <= i < |ranksOf[k]| ==> ranksOf[k][i] < ranks)
    && (forall k, i, k', i' :: Clash(ranksOf, k, i, k', i') ==> k == k' && i == i')
    && (forall r :: 0 <= r < ranks ==> Hosted(ranksOf, r))
  }

  /** The same rank stands at both places. */
  ghost predicate Clash(ranksOf: seq<seq<nat>>, k: int, i: int, k': int, i': int) {
    && 0 <= k < |ranksOf| && 0 <= i < |ranksOf[k]| && 0 <= k' < |ranksOf| && 0 <= i' < |ranksOf[k']|
    && ranksOf[k][i] == ranksOf[k'][i']
  }

  ghost predicate Hosted(ranksOf: seq<seq<nat>>, r: nat) {
    exists k, i :: 0 <= k < |ranksOf| && 0 <= i < |ranksOf[k]| && ranksOf[k][i] == r
  }

  ghost predicate FitsBlocks(l: Blocks, ranksOf: seq<seq<nat>>) {
    && l.Valid() && |ranksOf| == l.nodes.Size() && OnNodes(ranksOf, l.grid.Size())
    && forall k :: 0 <= k < |ranksOf| ==> |ranksOf[k]| == l.block.Size()
  }

  lemma NodeInRange(l: Blocks, n: Cell, b: Cell)
    requires l.Valid() && l.Contains(n, b)
    ensures l.NodeNumber(n) < l.nodes.Size() && l.block.Index(b) < l.block.Size()
  {
    IndexBelowSize(l.NodeOrder(), Cell(n.z, n.y, n.x));
    IndexBelowSize(l.block, b);
    MulRegroup(l.nodes.d, l.nodes.h, l.nodes.w);
    assert l.NodeOrder().Size() == l.nodes.Size();
  }

  /** The rank placed at position `b` of block `n`. */
  function RankOf(l: Blocks, ranksOf: seq<seq<nat>>, n: Cell, b: Cell): (r: nat)
    requires FitsBlocks(l, ranksOf) && l.Contains(n, b)
    ensures r < l.grid.Size()
  {
    NodeInRange(l, n, b);
    ranksOf[l.NodeNumber(n)][l.block.Index(b)]
  }

  lemma RankInjective(l: Blocks, ranksOf: seq<seq<nat>>, n: Cell, b: Cell, n': Cell, b': Cell)
    requires FitsBlocks(l, ranksOf) && l.Contains(n, b) && l.Contains(n', b')
    requires RankOf(l, ranksOf, n, b) == RankOf(l, ranksOf, n', b')
    ensures n == n' && b == b'
  {
    NodeInRange(l, n, b);
    NodeInRange(l, n', b');
    assert Clash(ranksOf, l.NodeNumber(n), l.block.Index(b), l.NodeNumber(n'), l.block.Index(b'));
    IndexInjective(l.NodeOrder(), Cell(n.z, n.y, n.x), Cell(n'.z, n'.y, n'.x));
    IndexInjective(l.block, b, b');
  }

  lemma RankSurjective(l: Blocks, ranksOf: seq<seq<nat>>, r: nat) returns (n: Cell, b: Cell)
    requires FitsBlocks(l, ranksOf) && r < l.grid.Size()
    ensures l.Contains(n, b) && RankOf(l, ranksOf, n, b) == r
  {
    assert Hosted(ranksOf, r);
    var k, i :| 0 <= k < |ranksOf| && 0 <= i < |ranksOf[k]| && ranksOf[k][i] == r;
    MulRegroup(l.nodes.d, l.nodes.h, l.nodes.w);
    assert l.NodeOrder().Size() == l.nodes.Size();
    var t := l.NodeOrder().Triple(k);
    n := Cell(t.z, t.y, t.x);
    b := l.block.Triple(i);
  }

  // ----- filling the tables -----------------------------------------------------------------

  /** Both tables know position `b` of block `n`. */
  ghost predicate Placed(l: Blocks, ranksOf: seq<seq<nat>>, cart: seq<nat>, inv: seq<nat>, n: Cell, b: Cell)
    requires FitsBlocks(l, ranksOf) && l.Contains(n, b) && |cart| == |inv| == l.grid.Size()
  {
    GlobalInGrid(l, n, b);
    var (g, r) := (l.grid.Index(l.Global(n, b)), RankOf(l, ranksOf, n, b));
    cart[g] == r && inv[r] == g
  }

  /** Blocks are filled one after the other. */
  ghost predicate Before(n: Cell, b: Cell, node: Cell, at: Cell) {
    Seen(n, node.x, node.y, node.z) || (n == node && Seen(b, at.x, at.y, at.z))
  }

  /** All positions before position `at` of block `node` are placed. */
  ghost predicate PlacedBefore(l: Blocks, ranksOf: seq<seq<nat>>, cart: seq<nat>, inv: seq<nat>, node: Cell, at: Cell) {
    && FitsBlocks(l, ranksOf) && |cart| == |inv| == l.grid.Size()
    && forall n, b {:trigger Placed(l, ranksOf, cart, inv, n, b)} ::
         l.Contains(n, b) && Before(n, b, node, at)
         ==> Placed(l, ranksOf, cart, inv, n, b)
  }

  /** Placing one position disturbs no other. */
  lemma PlaceOne(l: Blocks, ranksOf: seq<seq<nat>>, cart: seq<nat>, inv: seq<nat>, node: Cell, at: Cell)
    requires PlacedBefore(l, ranksOf, cart, inv, node, at) && l.Contains(node, at)
    ensures l.grid.Index(l.Global(node, at)) < l.grid.Size()
    ensures var (g, r) := (l.grid.Index(l.Global(node, at)), RankOf(l, ranksOf, node, at));
      PlacedBefore(l, ranksOf, cart[g := r], inv[r := g], node, Cell(at.x, at.y, at.z + 1))
  {
    GlobalInGrid(l, node, at);
    var (g, r) := (l.grid.Index(l.Global(node, at)), RankOf(l, ranksOf, node, at));
    var (cart', inv') := (cart[g := r], inv[r := g]);
    forall n, b | l.Contains(n, b) && Before(n, b, node, Cell(at.x, at.y, at.z + 1))
      ensures Placed(l, ranksOf, cart', inv', n, b)
    {
      if n == node && b == at {
      } else {
        KeptPlaced(l, ranksOf, cart, inv, node, at, n, b);
      }
    }
  }

  lemma KeptPlaced(l: Blocks, ranksOf: seq<seq<nat>>, cart: seq<nat>, inv: seq<nat>, node: Cell, at: Cell, n: Cell, b: Cell)
    requires PlacedBefore(l, ranksOf, cart, inv, node, at) && l.Contains(node, at) && l.Contains(n, b)
    requires n != node || b != at
    requires Placed(l, ranksOf, cart, inv, n, b)
    requires l.grid.Index(l.Global(node, at)) < l.grid.Size()
    ensures Placed(l, ranksOf, cart[l.grid.Index(l.Global(node, at)) := RankOf(l, ranksOf, node, at)],
                   inv[RankOf(l, ranksOf, node, at) := l.grid.Index(l.Global(node, at))], n, b)
  {
    GlobalInGrid(l, n, b);
    if l.grid.Index(l.Global(n, b)) == l.grid.Index(l.Global(node, at)) {
      GlobalInjective(l, n, b, node, at);
    }
    if RankOf(l, ranksOf, n, b) == RankOf(l, ranksOf, node, at) {
      RankInjective(l, ranksOf, n, b, node, at);
    }
  }

  lemma PlacedSkips(l: Blocks, ranksOf: seq<seq<nat>>, cart: seq<nat>, inv: seq<nat>, node: Cell, at: Cell, node': Cell, at': Cell)
    requires PlacedBefore(l, ranksOf, cart, inv, node, at)
    requires forall n, b :: l.Contains(n, b) && Before(n, b, node', at') ==> Before(n, b, node, at)
    ensures PlacedBefore(l, ranksOf, cart, inv, node', at')
  {
  }

  /** Tables that know all positions are mutually inverse. */
  lemma AllPlacedIsValid(l: Blocks, ranksOf: seq<seq<nat>>, cart: seq<nat>, inv: seq<nat>)
    requires PlacedBefore(l, ranksOf, cart, inv, Cell(l.nodes.w, 0, 0), Cell(0, 0, 0))
    ensures Decomposition(l.grid, cart, inv).Valid()
  {
    forall i | 0 <= i < |cart| ensures cart[i] < |cart| && inv[cart[i]] == i {
      var n, b := GlobalSurjective(l, l.grid.Triple(i));
      assert Placed(l, ranksOf, cart, inv, n, b);
    }
    forall r | 0 <= r < |cart| ensures inv[r] < |cart| && cart[inv[r]] == r {
      var n, b := RankSurjective(l, ranksOf, r);
      assert Placed(l, ranksOf, cart, inv, n, b);
      GlobalInGrid(l, n, b);
    }
  }

  // ----- counting ranks ---------------------------------------------------------------------

  lemma NextRow(d: nat, row: nat)
    ensures row * d + d == (row + 1) * d
  {
  }

  /** The ranks on the first `k` nodes. */
  ghost function RanksOn(ranksOf: seq<seq<nat>>, k: nat): set<nat>
    requires k <= |ranksOf|
  {
    if k == 0 then {} else RanksOn(ranksOf, k - 1) + Members(ranksOf[k - 1])
  }

  lemma {:induction false} RanksOnMember(ranksOf: seq<seq<nat>>, k: nat, r: nat)
    requires k <= |ranksOf|
    ensures r in RanksOn(ranksOf, k) <==> exists j :: 0 <= j < k && r in ranksOf[j]
  {
    if k > 0 {
      RanksOnMember(ranksOf, k - 1, r);
    }
  }

  /** No rank of a node is on an earlier one. */
  lemma NodesDisjoint(ranksOf: seq<seq<nat>>, ranks: nat, k: nat)
    requires k < |ranksOf| && OnNodes(ranksOf, ranks)
    ensures RanksOn(ranksOf, k) !! Members(ranksOf[k]) && Distinct(ranksOf[k])
  {
    var s := ranksOf[k];
    forall i, j | 0 <= i < j < |s| ensures s[i] != s[j] {
      assert Clash(ranksOf, k, i, k, j) <==> s[i] == s[j];
    }
    forall r | r in RanksOn(ranksOf, k) ensures r !in Members(s) {
      RanksOnMember(ranksOf, k, r);
      var j :| 0 <= j < k && r in ranksOf[j];
      var i :| 0 <= i < |ranksOf[j]| && ranksOf[j][i] == r;
      forall i' | 0 <= i' < |s| ensures s[i'] != r {
        assert Clash(ranksOf, j, i, k, i') <==> s[i'] == r;
      }
    }
  }

  lemma CountNext(ranksOf: seq<seq<nat>>, ranks: nat, m: nat, k: nat, next: nat)
    requires next == k + 1 <= |ranksOf| && OnNodes(ranksOf, ranks) && |ranksOf[k]| == m
    ensures |RanksOn(ranksOf, next)| == |RanksOn(ranksOf, k)| + m
  {
    RanksOnNext(ranksOf, ranks, k);
  }

  lemma RanksOnNext(ranksOf: seq<seq<nat>>, ranks: nat, k: nat)
    requires k < |ranksOf| && OnNodes(ranksOf, ranks)
    ensures |RanksOn(ranksOf, k + 1)| == |RanksOn(ranksOf, k)| + |ranksOf[k]|
  {
    NodesDisjoint(ranksOf, ranks, k);
    DistinctCount(ranksOf[k]);
  }

  /** Nodes with `m` distinct ranks each hold `m` ranks per node in total. */
  lemma {:induction false} RanksOnCount(ranksOf: seq<seq<nat>>, ranks: nat, m: nat, k: nat)
    requires k <= |ranksOf| && OnNodes(ranksOf, ranks) && forall j :: 0 <= j < |ranksOf| ==> |ranksOf[j]| == m
    ensures |RanksOn(ranksOf, k)| == k * m
  {
    if k > 0 {
      var j: nat := k - 1;
      RanksOnCount(ranksOf, ranks, m, j);
      CountNext(ranksOf, ranks, m, j, k);
      AddRow(|RanksOn(ranksOf, j)|, |RanksOn(ranksOf, k)|, m, j, k);
    }
  }

  lemma AddRow(before: nat, after: nat, m: nat, j: nat, k: nat)
    requires before == j * m && after == before + m && k == j + 1
    ensures after == k * m
  {
    NextRow(m, j);
  }

  /** The number of ranks is the number of nodes times the ranks per node. */
  lemma RanksPerNode(ranksOf: seq<seq<nat>>, ranks: nat, m: nat)
    requires OnNodes(ranksOf, ranks) && forall j :: 0 <= j < |ranksOf| ==> |ranksOf[j]| == m
    ensures ranks == |ranksOf| * m
  {
    RanksOnCount(ranksOf, ranks, m, |ranksOf|);
    NaturalsCount(ranks);
    forall r: nat ensures r in RanksOn(ranksOf, |ranksOf|) <==> r in Naturals(ranks) {
      RanksOnMember(ranksOf, |ranksOf|, r);
      assert r < ranks ==> Hosted(ranksOf, r);
    }
    assert RanksOn(ranksOf, |ranksOf|) == Naturals(ranks);
  }

  lemma ExactQuotient(n: nat, a: nat, m: nat)
    requires n == a * m && 1 <= n
    ensures 1 <= a && n / a == m
  {
    DivUnique(n / a, n % a, m, 0, a);
  }

  /** Exact division of all three sides leaves a grid of blocks, one per node. */
  lemma BlocksFit(grid: Cell, block: Cell, m: nat, nodes: nat)
    requires Splits(m, grid, block) && grid.x * grid.y * grid.z == nodes * m && 1 <= nodes && 1 <= m
    ensures var (x, y, z) := (grid.x / block.x, grid.y / block.y, grid.z / block.z);
      && grid.x == x * block.x && grid.y == y * block.y && grid.z == z * block.z && x * y * z == nodes
  {
    var (x, y, z) := (grid.x / block.x, grid.y / block.y, grid.z / block.z);
    assert grid.x == x * block.x && grid.y == y * block.y && grid.z == z * block.z;
    MulShuffle(x, y, z, block.x, block.y, block.z);
    CancelFactor(m, x * y * z, nodes);
  }

  lemma MulShuffle(x: int, y: int, z: int, a: int, b: int, c: int)
    ensures (x * a) * (y * b) * (z * c) == (a * b * c) * (x * y * z)
  {
    assert (x * a) * (y * b) == (a * b) * (x * y) by {
      assert (x * a) * (y * b) == x * (a * (y * b));
      assert a * (y * b) == y * (a * b);
      assert x * (y * (a * b)) == (x * y) * (a * b);
    }
    var (p, q) := (a * b, x * y);
    assert (p * q) * (z * c) == p * (q * (z * c));
    assert q * (z * c) == c * (q * z);
    assert p * (c * (q * z)) == (p * c) * (q * z);
  }

  /** Is every node host to the same number of ranks? */
  method IsUniform(ranksOf: seq<seq<nat>>) returns (uniform: bool, most: nat)
    requires forall k :: 0 <= k < |ranksOf| ==> 1 <= |ranksOf[k]|
    ensures uniform <==> forall k :: 0 <= k < |ranksOf| ==> |ranksOf[k]| == most
    ensures ranksOf != [] ==> 1 <= most && exists k :: 0 <= k < |ranksOf| && |ranksOf[k]| == most
    ensures forall k :: 0 <= k < |ranksOf| ==> |ranksOf[k]| <= most
  {
    uniform, most := true, 0;
    for k := 0 to |ranksOf|
      invariant k == 0 ==> most == 0
      invariant forall j :: 0 <= j < k ==> 1 <= |ranksOf[j]| <= most
      invariant uniform <==> forall j :: 0 <= j < k ==> |ranksOf[j]| == most
      invariant 0 < k ==> exists j :: 0 <= j < k && |ranksOf[j]| == most
    {
      var n := |ranksOf[k]|;
      if most != 0 && n != most {
        uniform := false;
      }
      if n > most {
        most := n;
      }
    }
  }

  class RankTables {
    var cartRanks: array<nat>
    var cartRanksInv: array<nat>

    constructor (ranks: nat)
      ensures fresh(cartRanks) && fresh(cartRanksInv) && cartRanks != cartRanksInv
      ensures cartRanks.Length == cartRanksInv.Length == ranks
    {
      cartRanks, cartRanksInv := new nat[ranks](_ => 0), new nat[ranks](_ => 0);
    }

    /** Map the grid in sequential order to ranks. */
    method FillSequential(grid: Indexer)
      requires grid.Valid() && cartRanks != cartRanksInv && cartRanks.Length == cartRanksInv.Length == grid.Size()
      modifies cartRanks, cartRanksInv
      ensures Decomposition(grid, cartRanks[..], cartRanksInv[..]).Valid()
      ensures forall i :: 0 <= i < cartRanks.Length ==> cartRanks[i] == i
    {
      for i := 0 to cartRanks.Length
        invariant forall j :: 0 <= j < i ==> cartRanks[j] == j && cartRanksInv[j] == j
      {
        cartRanks[i] := i;
        cartRanksInv[i] := i;
      }
    }

    /** Place the ranks of one node in its block. */
    method FillNode(l: Blocks, ghost ranksOf: seq<seq<nat>>, nodeRanks: seq<nat>, node: Cell)
      requires cartRanks != cartRanksInv && PlacedBefore(l, ranksOf, cartRanks[..], cartRanksInv[..], node, Cell(0, 0, 0))
      requires l.nodes.Contains(node) && l.NodeNumber(node) < |ranksOf| && nodeRanks == ranksOf[l.NodeNumber(node)]
      modifies cartRanks, cartRanksInv
      ensures PlacedBefore(l, ranksOf, cartRanks[..], cartRanksInv[..], Cell(node.x, node.y, node.z + 1), Cell(0, 0, 0))
    {
      for x := 0 to l.block.w
        invariant PlacedBefore(l, ranksOf, cartRanks[..], cartRanksInv[..], node, Cell(x, 0, 0))
      {
        for y := 0 to l.block.h
          invariant PlacedBefore(l, ranksOf, cartRanks[..], cartRanksInv[..], node, Cell(x, y, 0))
        {
          FillRow(l, ranksOf, nodeRanks, node, x, y);
          PlacedSkips(l, ranksOf, cartRanks[..], cartRanksInv[..], node, Cell(x, y, l.block.d), node, Cell(x, y + 1, 0));
        }
        PlacedSkips(l, ranksOf, cartRanks[..], cartRanksInv[..], node, Cell(x, l.block.h, 0), node, Cell(x + 1, 0, 0));
      }
      PlacedSkips(l, ranksOf, cartRanks[..], cartRanksInv[..], node, Cell(l.block.w, 0, 0),
                  Cell(node.x, node.y, node.z + 1), Cell(0, 0, 0));
    }

    method FillRow(l: Blocks, ghost ranksOf: seq<seq<nat>>, nodeRanks: seq<nat>, node: Cell, x: nat, y: nat)
      requires cartRanks != cartRanksInv && PlacedBefore(l, ranksOf, cartRanks[..], cartRanksInv[..], node, Cell(x, y, 0))
      requires l.nodes.Contains(node) && l.NodeNumber(node) < |ranksOf| && nodeRanks == ranksOf[l.NodeNumber(node)]
      requires x < l.block.w && y < l.block.h
      modifies cartRanks, cartRanksInv
      ensures PlacedBefore(l, ranksOf, cartRanks[..], cartRanksInv[..], node, Cell(x, y, l.block.d))
    {
      for z := 0 to l.block.d
        invariant PlacedBefore(l, ranksOf, cartRanks[..], cartRanksInv[..], node, Cell(x, y, z))
      {
        var at := Cell(x, y, z);
        NodeInRange(l, node, at);
        PlaceOne(l, ranksOf, cartRanks[..], cartRanksInv[..], node, at);
        ghost var (cart, inv) := (cartRanks[..], cartRanksInv[..]);
        var local := l.block.Index(at);
        var global := l.grid.Index(l.Global(node, at));
        cartRanks[global] := nodeRanks[local];
        cartRanksInv[nodeRanks[local]] := global;
        assert cartRanks[..] == cart[global := nodeRanks[local]];
        assert cartRanksInv[..] == inv[nodeRanks[local] := global];
      }
    }

    /** Fill both tables block by block. */
    method FillBlocks(l: Blocks, ranksOf: seq<seq<nat>>)
      requires FitsBlocks(l, ranksOf) && cartRanks != cartRanksInv
      requires cartRanks.Length == cartRanksInv.Length == l.grid.Size()
      modifies cartRanks, cartRanksInv
      ensures Decomposition(l.grid, cartRanks[..], cartRanksInv[..]).Valid()
      ensures PlacedBefore(l, ranksOf, cartRanks[..], cartRanksInv[..], Cell(l.nodes.w, 0, 0), Cell(0, 0, 0))
    {
      var next := 0;
      for x := 0 to l.nodes.w
        invariant next == l.NodeNumber(Cell(x, 0, 0))
        invariant PlacedBefore(l, ranksOf, cartRanks[..], cartRanksInv[..], Cell(x, 0, 0), Cell(0, 0, 0))
      {
        for y := 0 to l.nodes.h
          invariant next == l.NodeNumber(Cell(x, y, 0))
          invariant PlacedBefore(l, ranksOf, cartRanks[..], cartRanksInv[..], Cell(x, y, 0), Cell(0, 0, 0))
        {
          next := FillNodes(l, ranksOf, x, y, next);
        }
        PlacedSkips(l, ranksOf, cartRanks[..], cartRanksInv[..], Cell(x, l.nodes.h, 0), Cell(0, 0, 0), Cell(x + 1, 0, 0), Cell(0, 0, 0));
      }
      AllPlacedIsValid(l, ranksOf, cartRanks[..], cartRanksInv[..]);
    }

    method FillNodes(l: Blocks, ranksOf: seq<seq<nat>>, x: nat, y: nat, first: nat) returns (next: nat)
      requires FitsBlocks(l, ranksOf) && cartRanks != cartRanksInv && x < l.nodes.w && y < l.nodes.h
      requires PlacedBefore(l, ranksOf, cartRanks[..], cartRanksInv[..], Cell(x, y, 0), Cell(0, 0, 0))
      requires first == l.NodeNumber(Cell(x, y, 0))
      modifies cartRanks, cartRanksInv
      ensures next == l.NodeNumber(Cell(x, y + 1, 0))
      ensures PlacedBefore(l, ranksOf, cartRanks[..], cartRanksInv[..], Cell(x, y + 1, 0), Cell(0, 0, 0))
    {
      next := first;
      for z := 0 to l.nodes.d
        invariant next == l.NodeNumber(Cell(x, y, z))
        invariant PlacedBefore(l, ranksOf, cartRanks[..], cartRanksInv[..], Cell(x, y, z), Cell(0, 0, 0))
      {
        NodeInRange(l, Cell(x, y, z), Cell(0, 0, 0));
        FillNode(l, ranksOf, ranksOf[next], Cell(x, y, z));
        next := next + 1;
      }
      PlacedSkips(l, ranksOf, cartRanks[..], cartRanksInv[..], Cell(x, y, l.nodes.d), Cell(0, 0, 0), Cell(x, y + 1, 0), Cell(0, 0, 0));
      NextRow(l.nodes.d, x * l.nodes.h + y);
    }
  }

  /** The blocks of a grid hold the ranks of one node each. */
  ghost predicate BlockPerNode(d: Decomposition, ranksOf: seq<seq<nat>>) {
    exists l: Blocks :: l.grid == d.grid
      && PlacedBefore(l, ranksOf, d.cartRanks, d.cartRanksInv, Cell(l.nodes.w, 0, 0), Cell(0, 0, 0))
  }

  /** Some node holds both ranks. */
  ghost predicate SameNode(ranksOf: seq<seq<nat>>, r: nat, q: nat) {
    exists k :: 0 <= k < |ranksOf| && r in ranksOf[k] && q in ranksOf[k]
  }

  /** Two cells are in the same block of the given size. */
  ghost predicate SameBlock(block: Indexer, a: Cell, b: Cell)
    requires block.Valid()
  {
    a.x / block.w == b.x / block.w && a.y / block.h == b.y / block.h && a.z / block.d == b.z / block.d
  }

  /** Domains are on the same node if and only if they are in the same block. */
  ghost predicate NodesAreBlocks(d: Decomposition, ranksOf: seq<seq<nat>>, block: Indexer)
    requires d.Valid()
  {
    block.Valid() && forall a, b :: d.grid.Contains(a) && d.grid.Contains(b) ==>
      (SameNode(ranksOf, d.RankAt(a), d.RankAt(b)) <==> SameBlock(block, a, b))
  }

  lemma BlocksOfNodes(d: Decomposition, ranksOf: seq<seq<nat>>) returns (block: Indexer)
    requires d.Valid() && BlockPerNode(d, ranksOf)
    ensures NodesAreBlocks(d, ranksOf, block)
  {
    var l: Blocks :| l.grid == d.grid && PlacedBefore(l, ranksOf, d.cartRanks, d.cartRanksInv, Cell(l.nodes.w, 0, 0), Cell(0, 0, 0));
    block := l.block;
    forall a, b | d.grid.Contains(a) && d.grid.Contains(b)
      ensures SameNode(ranksOf, d.RankAt(a), d.RankAt(b)) <==> SameBlock(block, a, b)
    {
      var n, i := PlaceOf(l, ranksOf, d, a);
      var m, j := PlaceOf(l, ranksOf, d, b);
      SameNodeIff(l, ranksOf, n, i, m, j);
    }
  }

  /** The block and the position in it that a cell is at, and its rank. */
  lemma PlaceOf(l: Blocks, ranksOf: seq<seq<nat>>, d: Decomposition, c: Cell) returns (n: Cell, b: Cell)
    requires d.Valid() && d.grid == l.grid && d.grid.Contains(c)
    requires PlacedBefore(l, ranksOf, d.cartRanks, d.cartRanksInv, Cell(l.nodes.w, 0, 0), Cell(0, 0, 0))
    ensures l.Contains(n, b) && n == Cell(c.x / l.block.w, c.y / l.block.h, c.z / l.block.d)
    ensures d.RankAt(c) == RankOf(l, ranksOf, n, b)
  {
    n, b := GlobalSurjective(l, c);
    QuotientOf(c.x, n.x, b.x, l.block.w);
    QuotientOf(c.y, n.y, b.y, l.block.h);
    QuotientOf(c.z, n.z, b.z, l.block.d);
    assert Placed(l, ranksOf, d.cartRanks, d.cartRanksInv, n, b);
  }

  lemma QuotientOf(c: nat, n: nat, b: nat, size: nat)
    requires b < size && c == n * size + b
    ensures c / size == n
  {
    DivRange(c, size, c + 1);
    DivUnique(n, b, c / size, c % size, size);
  }

  lemma SameNodeIff(l: Blocks, ranksOf: seq<seq<nat>>, n: Cell, i: Cell, m: Cell, j: Cell)
    requires FitsBlocks(l, ranksOf) && l.Contains(n, i) && l.Contains(m, j)
    ensures SameNode(ranksOf, RankOf(l, ranksOf, n, i), RankOf(l, ranksOf, m, j)) <==> n == m
  {
    NodeInRange(l, n, i);
    NodeInRange(l, m, j);
    var (r, q) := (RankOf(l, ranksOf, n, i), RankOf(l, ranksOf, m, j));
    if k :| 0 <= k < |ranksOf| && r in ranksOf[k] && q in ranksOf[k] {
      var u, v :| 0 <= u < |ranksOf[k]| && ranksOf[k][u] == r && 0 <= v < |ranksOf[k]| && ranksOf[k][v] == q;
      assert Clash(ranksOf, k, u, l.NodeNumber(n), l.block.Index(i)) && Clash(ranksOf, k, v, l.NodeNumber(m), l.block.Index(j));
      IndexInjective(l.NodeOrder(), Cell(n.z, n.y, n.x), Cell(m.z, m.y, m.x));
    }
    if n == m {
      assert r in ranksOf[l.NodeNumber(n)] && q in ranksOf[l.NodeNumber(n)];
    }
  }

  /** Tables for `|ranksOf|` nodes with `m` ranks each. */
  method TwoLevelTables(c: Cell, ranksOf: seq<seq<nat>>, m: nat) returns (d: Decomposition)
    requires 1 <= c.x && 1 <= c.y && 1 <= c.z && 1 <= m && OnNodes(ranksOf, c.x * c.y * c.z)
    requires forall k :: 0 <= k < |ranksOf| ==> |ranksOf[k]| == m
    ensures d.grid == Indexer(c.x, c.y, c.z) && d.Valid() && BlockPerNode(d, ranksOf)
  {
    var grid := Indexer(c.x, c.y, c.z);
    RanksPerNode(ranksOf, grid.Size(), m);
    DividesByFactor(m, grid.Size(), |ranksOf|);
    FactorsBounded(c, grid.Size());
    ExactQuotient(grid.Size(), |ranksOf|, m);
    var block := Subdivide(grid.Size() / |ranksOf|, c);
    BlocksFit(c, block, m, |ranksOf|);
    var l := Blocks(grid, Indexer(c.x / block.x, c.y / block.y, c.z / block.z), Indexer(block.x, block.y, block.z));
    var tables := new RankTables(grid.Size());
    tables.FillBlocks(l, ranksOf);
    d := Decomposition(grid, tables.cartRanks[..], tables.cartRanksInv[..]);
  }

  /**
  Choose the grid and fill the rank tables. Fails exactly if no factorisation fits the request. With
  two levels, every block of the grid holds the ranks of one node.
   */
  method InitializeDomainGrid(q: Request, twoLevel: bool, ranksOf: seq<seq<nat>>) returns (ok: bool, d: Decomposition)
    requires q.Valid() && OnNodes(ranksOf, q.ranks) && forall k :: 0 <= k < |ranksOf| ==> 1 <= |ranksOf[k]|
    ensures ok <==> exists c :: q.Fits(c)
    ensures ok ==> d.Valid() && q.Fits(Cell(d.grid.w, d.grid.h, d.grid.d))
    ensures ok && twoLevel && q.Default() && (forall k :: 0 <= k < |ranksOf| ==> |ranksOf[k]| == |ranksOf[0]|) ==>
      BlockPerNode(d, ranksOf) && exists block :: NodesAreBlocks(d, ranksOf, block)
  {
    var uniform, m := IsUniform(ranksOf);
    var found, c := FindDecomposition(q);
    ok, d := found, Decomposition(Indexer(0, 0, 0), [], []);
    assert Hosted(ranksOf, 0);
    if found {
      if twoLevel && uniform && q.Default() {
        d := TwoLevelTables(c, ranksOf, m);
        ghost var block := BlocksOfNodes(d, ranksOf);
      } else {
        var grid := Indexer(c.x, c.y, c.z);
        var tables := new RankTables(q.ranks);
        tables.FillSequential(grid);
        d := Decomposition(grid, tables.cartRanks[..], tables.cartRanksInv[..]);
      }
    }
  }
}
