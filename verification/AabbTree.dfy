/**
The AABB tree: a binary tree of bounding boxes in one array, built by recursive in-place
partitioning and queried without a stack. Nodes lie in preorder; the skip count of a node is
the size of the tree below it.
 */
module AabbTree {
  import opened BoxDim
  import opened Aabb
  import opened Sequences

  const NODE_CAPACITY := 16
  const INVALID_NODE: nat := 0xffffffff

  datatype Node = Node(box: AABB, left: nat, right: nat, parent: nat, skip: nat, particles: seq<nat>, tags: seq<nat>) {
    predicate IsLeaf() {
      left == INVALID_NODE
    }
  }

  const EMPTY_BOX := AABB(Vec(0.0, 0.0, 0.0), Vec(0.0, 0.0, 0.0), 0)
  const NEW_NODE := Node(EMPTY_BOX, INVALID_NODE, INVALID_NODE, INVALID_NODE, 0, [], [])

  // ----- layout -----------------------------------------------------------------------------

  /**
  The nodes in [i, end) are the subtree of node `i` in preorder: the left child follows its
  parent, the right child follows the left subtree.
   */
  ghost predicate Layout(nodes: seq<Node>, i: nat, end: nat, parent: nat)
    decreases end - i
  {
    && i < end <= |nodes| && nodes[i].parent == parent
    && if nodes[i].IsLeaf() then end == i + 1
       else
         && nodes[i].left == i + 1 && i + 1 < nodes[i].right < end
         && Layout(nodes, i + 1, nodes[i].right, i) && Layout(nodes, nodes[i].right, end, i)
  }

  /** A layout depends on its own nodes only. */
  lemma {:induction false} LayoutFrame(a: seq<Node>, b: seq<Node>, i: nat, end: nat, parent: nat)
    requires Layout(a, i, end, parent) && end <= |b|
    requires forall k :: i <= k < end ==>
      a[k].left == b[k].left && a[k].right == b[k].right && a[k].parent == b[k].parent
    ensures Layout(b, i, end, parent)
    decreases end - i
  {
    if !a[i].IsLeaf() {
      LayoutFrame(a, b, i + 1, a[i].right, i);
      LayoutFrame(a, b, a[i].right, end, i);
    }
  }

  /** The particles of the leaves in [i, end), in order. */
  function LeafParticles(nodes: seq<Node>, i: nat, end: nat): seq<nat>
    requires i <= end <= |nodes|
    decreases end - i
  {
    if i == end then []
    else LeafParticles(nodes, i, end - 1) + if nodes[end - 1].IsLeaf() then nodes[end - 1].particles else []
  }

  lemma {:induction false} LeafParticlesSplit(nodes: seq<Node>, i: nat, mid: nat, end: nat)
    requires i <= mid <= end <= |nodes|
    ensures LeafParticles(nodes, i, end) == LeafParticles(nodes, i, mid) + LeafParticles(nodes, mid, end)
    decreases end - mid
  {
    if mid < end {
      LeafParticlesSplit(nodes, i, mid, end - 1);
    }
  }

  lemma {:induction false} LeafParticlesFrame(a: seq<Node>, b: seq<Node>, i: nat, end: nat)
    requires i <= end <= |a| && end <= |b|
    requires forall k :: i <= k < end ==> a[k].left == b[k].left && a[k].particles == b[k].particles
    ensures LeafParticles(a, i, end) == LeafParticles(b, i, end)
    decreases end - i
  {
    if i < end {
      LeafParticlesFrame(a, b, i, end - 1);
    }
  }

  /** The box of an internal node has the corners of its merged children. */
  ghost predicate MergedAt(nodes: seq<Node>, k: nat)
    requires k < |nodes|
  {
    && nodes[k].left < |nodes| && nodes[k].right < |nodes|
    && SameCorners(nodes[k].box, Merge(nodes[nodes[k].left].box, nodes[nodes[k].right].box))
  }

  ghost predicate BoxesMerged(nodes: seq<Node>, i: nat, end: nat) {
    end <= |nodes| && forall k {:trigger MergedAt(nodes, k)} :: i <= k < end && !nodes[k].IsLeaf() ==> MergedAt(nodes, k)
  }

  // ----- rearranging a range ----------------------------------------------------------------

  /** How often `x` occurs in [lo, hi). */
  function Count(s: seq<nat>, lo: nat, hi: nat, x: nat): nat
    requires lo <= hi <= |s|
    decreases hi - lo
  {
    if lo == hi then 0 else Count(s, lo, hi - 1, x) + if s[hi - 1] == x then 1 else 0
  }

  lemma {:induction false} CountSplit(s: seq<nat>, lo: nat, mid: nat, hi: nat, x: nat)
    requires lo <= mid <= hi <= |s|
    ensures Count(s, lo, hi, x) == Count(s, lo, mid, x) + Count(s, mid, hi, x)
    decreases hi - mid
  {
    if mid < hi {
      CountSplit(s, lo, mid, hi - 1, x);
    }
  }

  lemma {:induction false} CountFrame(a: seq<nat>, b: seq<nat>, lo: nat, hi: nat, x: nat)
    requires lo <= hi <= |a| && hi <= |b| && forall i :: lo <= i < hi ==> a[i] == b[i]
    ensures Count(a, lo, hi, x) == Count(b, lo, hi, x)
    decreases hi - lo
  {
    if lo < hi {
      CountFrame(a, b, lo, hi - 1, x);
    }
  }

  lemma {:induction false} CountUpdate(s: seq<nat>, lo: nat, hi: nat, i: nat, v: nat, x: nat)
    requires lo <= i < hi <= |s|
    ensures Count(s[i := v], lo, hi, x) + (if s[i] == x then 1 else 0) == Count(s, lo, hi, x) + (if v == x then 1 else 0)
    decreases hi - lo
  {
    if i == hi - 1 {
      CountFrame(s, s[i := v], lo, hi - 1, x);
    } else {
      CountUpdate(s, lo, hi - 1, i, v, x);
    }
  }

  /** The elements in [lo, hi). */
  function Slice(s: seq<nat>, lo: nat, hi: nat): (r: seq<nat>)
    requires lo <= hi <= |s|
    ensures |r| == hi - lo
    decreases hi - lo
  {
    if lo == hi then [] else Slice(s, lo, hi - 1) + [s[hi - 1]]
  }

  lemma {:induction false} SliceSplit(s: seq<nat>, lo: nat, mid: nat, hi: nat)
    requires lo <= mid <= hi <= |s|
    ensures Slice(s, lo, hi) == Slice(s, lo, mid) + Slice(s, mid, hi)
    decreases hi - mid
  {
    if mid < hi {
      SliceSplit(s, lo, mid, hi - 1);
    }
  }

  lemma {:induction false} SliceFrame(a: seq<nat>, b: seq<nat>, lo: nat, hi: nat)
    requires lo <= hi <= |a| && hi <= |b| && forall i :: lo <= i < hi ==> a[i] == b[i]
    ensures Slice(a, lo, hi) == Slice(b, lo, hi)
    decreases hi - lo
  {
    if lo < hi {
      SliceFrame(a, b, lo, hi - 1);
    }
  }

  lemma {:induction false} CountMember(s: seq<nat>, lo: nat, hi: nat, x: nat)
    requires lo <= hi <= |s|
    ensures Count(s, lo, hi, x) > 0 <==> x in Slice(s, lo, hi)
    decreases hi - lo
  {
    if lo < hi {
      CountMember(s, lo, hi - 1, x);
    }
  }

  /** `b` is `a` with the elements in [lo, hi) permuted. */
  ghost predicate Rearranged(a: seq<nat>, b: seq<nat>, lo: nat, hi: nat) {
    && |a| == |b| && lo <= hi <= |a|
    && (forall i :: 0 <= i < |a| && (i < lo || hi <= i) ==> b[i] == a[i])
    && forall x :: Count(b, lo, hi, x) == Count(a, lo, hi, x)
  }

  lemma RearrangedTransitive(a: seq<nat>, b: seq<nat>, c: seq<nat>, lo: nat, hi: nat)
    requires Rearranged(a, b, lo, hi) && Rearranged(b, c, lo, hi)
    ensures Rearranged(a, c, lo, hi)
  {
  }

  /** Permuting a smaller range is permuting the larger one. */
  lemma RearrangedWider(a: seq<nat>, b: seq<nat>, lo: nat, hi: nat, lo': nat, hi': nat)
    requires Rearranged(a, b, lo, hi) && lo' <= lo && hi <= hi' <= |a|
    ensures Rearranged(a, b, lo', hi')
  {
    forall x ensures Count(b, lo', hi', x) == Count(a, lo', hi', x) {
      CountFrame(a, b, lo', lo, x);
      CountFrame(a, b, hi, hi', x);
      CountSplit(a, lo', lo, hi', x);
      CountSplit(b, lo', lo, hi', x);
      CountSplit(a, lo, hi, hi', x);
      CountSplit(b, lo, hi, hi', x);
    }
  }

  lemma SwapRearranges(a: seq<nat>, lo: nat, hi: nat, i: nat, j: nat)
    requires lo <= i < hi <= |a| && lo <= j < hi
    ensures Rearranged(a, a[i := a[j]][j := a[i]], lo, hi)
  {
    forall x ensures Count(a[i := a[j]][j := a[i]], lo, hi, x) == Count(a, lo, hi, x) {
      CountUpdate(a, lo, hi, i, a[j], x);
      CountUpdate(a[i := a[j]], lo, hi, j, a[i], x);
    }
  }

  lemma RearrangedElements(a: seq<nat>, b: seq<nat>, lo: nat, hi: nat)
    requires Rearranged(a, b, lo, hi)
    ensures Members(Slice(a, lo, hi)) == Members(Slice(b, lo, hi))
  {
    forall x: nat ensures x in Slice(a, lo, hi) <==> x in Slice(b, lo, hi) {
      CountMember(a, lo, hi, x);
      CountMember(b, lo, hi, x);
    }
  }

  // ----- building ---------------------------------------------------------------------------

  /** The two arrays of a build: position `k` holds the box of particle `idx[k]`. */
  ghost predicate LockStep(boxes: seq<AABB>, aabbs: seq<AABB>, idx: seq<nat>) {
    && |aabbs| == |idx| == |boxes|
    && forall k :: 0 <= k < |idx| ==> idx[k] < |boxes| && aabbs[k] == boxes[idx[k]]
  }

  /** A leaf as a build makes it: 1 to 16 particles, each with the tag of its box. */
  ghost predicate LeafBuilt(node: Node, boxes: seq<AABB>) {
    && 1 <= |node.particles| <= NODE_CAPACITY && |node.tags| == |node.particles|
    && forall j :: 0 <= j < |node.tags| ==> node.particles[j] < |boxes| && node.tags[j] == boxes[node.particles[j]].tag
  }

  /** The particles below node `k`, following the links to its children. */
  ghost function Below(nodes: seq<Node>, k: nat): set<nat>
    requires k < |nodes|
    decreases |nodes| - k
  {
    if nodes[k].IsLeaf() then Members(nodes[k].particles)
    else if k < nodes[k].left < |nodes| && k < nodes[k].right < |nodes| then
      Below(nodes, nodes[k].left) + Below(nodes, nodes[k].right)
    else {}
  }

  /** The box of every node is the hull of the particles below it. */
  ghost predicate NodeBuilt(nodes: seq<Node>, k: nat, boxes: seq<AABB>)
    requires k < |nodes|
  {
    && nodes[k].skip == 0 && (nodes[k].IsLeaf() ==> LeafBuilt(nodes[k], boxes))
    && IsHull(boxes, Below(nodes, k), nodes[k].box)
  }

  ghost predicate AllBuilt(nodes: seq<Node>, i: nat, end: nat, boxes: seq<AABB>) {
    end <= |nodes| && forall k {:trigger NodeBuilt(nodes, k, boxes)} :: i <= k < end ==> NodeBuilt(nodes, k, boxes)
  }

  /** The nodes in [i, end) are a tree as a build makes it. */
  ghost predicate Built(nodes: seq<Node>, i: nat, end: nat, parent: nat, boxes: seq<AABB>) {
    Layout(nodes, i, end, parent) && AllBuilt(nodes, i, end, boxes)
  }

  /** Node `k` of [first, end) is a leaf that holds the particle. */
  ghost predicate Holds(nodes: seq<Node>, first: nat, end: nat, k: nat, p: nat) {
    first <= k < end <= |nodes| && nodes[k].IsLeaf() && p in nodes[k].particles
  }

  /** The reverse mapping leads every particle of [first, end) to a leaf there that holds it. */
  ghost predicate Mapped(nodes: seq<Node>, mapping: seq<nat>, first: nat, end: nat)
    requires first <= end <= |nodes|
  {
    forall p :: p in LeafParticles(nodes, first, end) ==> p < |mapping| && Holds(nodes, first, end, mapping[p], p)
  }

  /** What changed in the mapping leads to leaves of [first, end). */
  ghost predicate Remapped(nodes: seq<Node>, before: seq<nat>, after: seq<nat>, first: nat, end: nat) {
    && |before| == |after|
    && forall p :: 0 <= p < |after| ==> after[p] == before[p] || Holds(nodes, first, end, after[p], p)
  }

  /** What is below a node depends on its subtree only. */
  lemma {:induction false} BelowFrame(a: seq<Node>, b: seq<Node>, i: nat, end: nat, parent: nat, k: nat)
    requires Layout(a, i, end, parent) && end <= |b| && i <= k < end
    requires forall j :: i <= j < end ==> a[j].left == b[j].left && a[j].right == b[j].right && a[j].particles == b[j].particles
    ensures Below(a, k) == Below(b, k)
    decreases end - i
  {
    if k == i {
      if !a[i].IsLeaf() {
        BelowFrame(a, b, i + 1, a[i].right, i, i + 1);
        BelowFrame(a, b, a[i].right, end, i, a[i].right);
      }
    } else if k < a[i].right {
      BelowFrame(a, b, i + 1, a[i].right, i, k);
    } else {
      BelowFrame(a, b, a[i].right, end, i, k);
    }
  }

  /** In preorder, the particles below a node are those of the leaves in its range. */
  lemma {:induction false} BelowIsRange(nodes: seq<Node>, i: nat, end: nat, parent: nat)
    requires Layout(nodes, i, end, parent)
    ensures Below(nodes, i) == Members(LeafParticles(nodes, i, end))
    decreases end - i
  {
    if nodes[i].IsLeaf() {
      assert LeafParticles(nodes, i, i) == [];
      assert LeafParticles(nodes, i, i + 1) == nodes[i].particles;
    } else {
      BelowIsRange(nodes, i + 1, nodes[i].right, i);
      BelowIsRange(nodes, nodes[i].right, end, i);
      JoinParticles(nodes, i, end);
      LeafParticlesSplit(nodes, i + 1, nodes[i].right, end);
    }
  }

  lemma JoinParticles(nodes: seq<Node>, my: nat, end: nat)
    requires my < end <= |nodes| && !nodes[my].IsLeaf()
    ensures LeafParticles(nodes, my, end) == LeafParticles(nodes, my + 1, end)
  {
    LeafParticlesSplit(nodes, my, my + 1, end);
    assert LeafParticles(nodes, my, my + 1) == [];
  }

  /** A built tree depends on its own nodes only. */
  lemma BuiltFrame(a: seq<Node>, b: seq<Node>, i: nat, end: nat, parent: nat, boxes: seq<AABB>)
    requires Built(a, i, end, parent, boxes) && end <= |b| && forall k :: i <= k < end ==> a[k] == b[k]
    ensures Built(b, i, end, parent, boxes)
  {
    LayoutFrame(a, b, i, end, parent);
    forall k | i <= k < end ensures NodeBuilt(b, k, boxes) {
      assert NodeBuilt(a, k, boxes);
      BelowFrame(a, b, i, end, parent, k);
    }
  }

  /** The hull of a range of boxes. */
  method HullOf(aabbs: array<AABB>, ghost idx: seq<nat>, start: nat, len: nat, ghost boxes: seq<AABB>) returns (hull: AABB)
    requires LockStep(boxes, aabbs[..], idx) && 1 <= len && start + len <= aabbs.Length
    ensures IsHull(boxes, Members(Slice(idx, start, start + len)), hull)
  {
    hull := aabbs[start];
    assert Slice(idx, start, start) == [] && Slice(idx, start, start + 1) == [idx[start]];
    assert Members(Slice(idx, start, start + 1)) == {idx[start]};
    HullOfOne(boxes, idx[start]);
    for i := 1 to len
      invariant IsHull(boxes, Members(Slice(idx, start, start + i)), hull)
    {
      var next := aabbs[start + i];
      HullOfOne(boxes, idx[start + i]);
      MergeIsHull(boxes, Members(Slice(idx, start, start + i)), {idx[start + i]}, hull, next);
      assert Members(Slice(idx, start, start + (i + 1))) == Members(Slice(idx, start, start + i)) + {idx[start + i]};
      hull := Merge(hull, next);
    }
  }

  function Coordinate(v: Vec, axis: nat): real {
    if axis == 0 then v.x else if axis == 1 then v.y else v.z
  }

  /** Is the middle of the box before the splitting plane? */
  predicate OnLeft(box: AABB, axis: nat, mid: real) {
    Coordinate(box.Position(), axis) < mid
  }

  /** The centre of a box is closer to the lower face of the hull than to the upper one. */
  ghost predicate Lower(box: AABB, hull: AABB, axis: nat) {
    var c := Coordinate(box.Position(), axis);
    c - Coordinate(hull.lower, axis) < Coordinate(hull.upper, axis) - c
  }

  lemma LeftIsLower(box: AABB, hull: AABB, axis: nat)
    ensures OnLeft(box, axis, Coordinate(hull.Position(), axis)) <==> Lower(box, hull, axis)
  {
    PositionIsCentre(hull);
  }

  /** A range parted at `split`: lower boxes before it, the others after it, but none of the sides empty. */
  ghost predicate Parted(boxes: seq<AABB>, hull: AABB, axis: nat, split: nat) {
    exists lowers: nat :: PartedAt(boxes, hull, axis, lowers, split)
  }

  ghost predicate PartedAt(boxes: seq<AABB>, hull: AABB, axis: nat, lowers: nat, split: nat) {
    && lowers <= |boxes| && (forall k :: 0 <= k < |boxes| ==> (Lower(boxes[k], hull, axis) <==> k < lowers))
    && split == if lowers == |boxes| then |boxes| - 1 else if lowers == 0 then 1 else lowers
  }

  /** The longest axis of a box, ties going to the later one. */
  function LongestAxis(box: AABB): (axis: nat)
    ensures axis < 3
    ensures forall other :: 0 <= other < 3 ==>
      Coordinate(box.upper, other) - Coordinate(box.lower, other) <= Coordinate(box.upper, axis) - Coordinate(box.lower, axis)
  {
    var (rx, ry, rz) := (box.upper.x - box.lower.x, box.upper.y - box.lower.y, box.upper.z - box.lower.z);
    if rx > ry && rx > rz then 0 else if ry > rz then 1 else 2
  }

  // ----- after a build ----------------------------------------------------------------------

  /** As Layout, with the skip count of every node the size of the tree below it. */
  ghost predicate SkipLayout(nodes: seq<Node>, i: nat, end: nat, parent: nat)
    decreases end - i
  {
    && i < end <= |nodes| && nodes[i].parent == parent && nodes[i].skip == end - i - 1
    && if nodes[i].IsLeaf() then end == i + 1
       else
         && nodes[i].left == i + 1 && i + 1 < nodes[i].right < end
         && SkipLayout(nodes, i + 1, nodes[i].right, i) && SkipLayout(nodes, nodes[i].right, end, i)
  }

  lemma {:induction false} SkipLayoutFrame(a: seq<Node>, b: seq<Node>, i: nat, end: nat, parent: nat)
    requires SkipLayout(a, i, end, parent) && end <= |b|
    requires forall k :: i <= k < end ==>
      a[k].left == b[k].left && a[k].right == b[k].right && a[k].parent == b[k].parent && a[k].skip == b[k].skip
    ensures SkipLayout(b, i, end, parent)
    decreases end - i
  {
    if !a[i].IsLeaf() {
      SkipLayoutFrame(a, b, i + 1, a[i].right, i);
      SkipLayoutFrame(a, b, a[i].right, end, i);
    }
  }

  /** Every node is the root of the subtree its skip count describes. */
  lemma {:induction false} SubtreeAt(nodes: seq<Node>, i: nat, end: nat, parent: nat, k: nat)
    requires SkipLayout(nodes, i, end, parent) && i <= k < end
    ensures k + 1 + nodes[k].skip <= end && SkipLayout(nodes, k, k + 1 + nodes[k].skip, nodes[k].parent)
    decreases end - i
  {
    if k != i {
      if k < nodes[i].right {
        SubtreeAt(nodes, i + 1, nodes[i].right, i, k);
      } else {
        SubtreeAt(nodes, nodes[i].right, end, i, k);
      }
    }
  }

  /** The box of a node contains all boxes below it. */
  lemma {:induction false} SubtreeBoxes(nodes: seq<Node>, i: nat, end: nat, parent: nat, k: nat)
    requires SkipLayout(nodes, i, end, parent) && BoxesMerged(nodes, i, end) && i <= k < end
    ensures Contains(nodes[i].box, nodes[k].box)
    decreases end - i
  {
    if k != i {
      assert MergedAt(nodes, i);
      if k < nodes[i].right {
        SubtreeBoxes(nodes, i + 1, nodes[i].right, i, k);
      } else {
        SubtreeBoxes(nodes, nodes[i].right, end, i, k);
      }
    }
  }

  /** Parents come before their children, which they know. */
  lemma {:induction false} ParentLinks(nodes: seq<Node>, i: nat, end: nat, parent: nat, k: nat)
    requires SkipLayout(nodes, i, end, parent) && i < k < end
    ensures var q := nodes[k].parent; i <= q < k && !nodes[q].IsLeaf() && (nodes[q].left == k || nodes[q].right == k)
    decreases end - i
  {
    if k == i + 1 || k == nodes[i].right {
    } else if k < nodes[i].right {
      ParentLinks(nodes, i + 1, nodes[i].right, i, k);
    } else {
      ParentLinks(nodes, nodes[i].right, end, i, k);
    }
  }

  /** Children know their parents. */
  lemma {:induction false} ChildLinks(nodes: seq<Node>, i: nat, end: nat, parent: nat, k: nat)
    requires SkipLayout(nodes, i, end, parent) && i <= k < end && !nodes[k].IsLeaf()
    ensures k < nodes[k].left < end && k < nodes[k].right < end && nodes[k].left != nodes[k].right
    ensures nodes[nodes[k].left].parent == k && nodes[nodes[k].right].parent == k
    decreases end - i
  {
    if k != i {
      if k < nodes[i].right {
        ChildLinks(nodes, i + 1, nodes[i].right, i, k);
      } else {
        ChildLinks(nodes, nodes[i].right, end, i, k);
      }
    }
  }

  /** A linear scan over the leaves in [i, end): the particles of those that overlap the query. */
  function Scan(nodes: seq<Node>, query: AABB, i: nat, end: nat): seq<nat>
    requires i <= end <= |nodes|
    decreases end - i
  {
    if i == end then []
    else
      Scan(nodes, query, i, end - 1)
      + if nodes[end - 1].IsLeaf() && Overlap(nodes[end - 1].box, query) then nodes[end - 1].particles else []
  }

  lemma {:induction false} ScanSplit(nodes: seq<Node>, query: AABB, i: nat, mid: nat, end: nat)
    requires i <= mid <= end <= |nodes|
    ensures Scan(nodes, query, i, end) == Scan(nodes, query, i, mid) + Scan(nodes, query, mid, end)
    decreases end - mid
  {
    if mid < end {
      ScanSplit(nodes, query, i, mid, end - 1);
    }
  }

  lemma {:induction false} ScanNothing(nodes: seq<Node>, query: AABB, i: nat, end: nat)
    requires i <= end <= |nodes| && forall k :: i <= k < end ==> !Overlap(nodes[k].box, query)
    ensures Scan(nodes, query, i, end) == []
    decreases end - i
  {
    if i < end {
      ScanNothing(nodes, query, i, end - 1);
    }
  }

  /** A box that misses a container misses what is in it. */
  lemma OverlapMonotone(a: AABB, b: AABB, query: AABB)
    requires Contains(a, b) && Overlap(b, query)
    ensures Overlap(a, query)
  {
  }

  /** Everything below a node that misses the query misses it. */
  lemma SubtreeMisses(nodes: seq<Node>, query: AABB, i: nat, end: nat, parent: nat, k: nat)
    requires SkipLayout(nodes, i, end, parent) && BoxesMerged(nodes, i, end) && i <= k < end
    requires !Overlap(nodes[i].box, query)
    ensures !Overlap(nodes[k].box, query)
  {
    SubtreeBoxes(nodes, i, end, parent, k);
    if Overlap(nodes[k].box, query) {
      OverlapMonotone(nodes[i].box, nodes[k].box, query);
    }
  }

  lemma SubtreeScanned(nodes: seq<Node>, query: AABB, i: nat, end: nat, parent: nat)
    requires SkipLayout(nodes, i, end, parent) && BoxesMerged(nodes, i, end) && !Overlap(nodes[i].box, query)
    ensures Scan(nodes, query, i, end) == []
  {
    forall k | i <= k < end ensures !Overlap(nodes[k].box, query) {
      SubtreeMisses(nodes, query, i, end, parent, k);
    }
    ScanNothing(nodes, query, i, end);
  }

  lemma BoxesMergedWithin(nodes: seq<Node>, i: nat, end: nat, i': nat, end': nat)
    requires BoxesMerged(nodes, i, end) && i <= i' && end' <= end
    ensures BoxesMerged(nodes, i', end')
  {
  }

  lemma ScanSkipped(nodes: seq<Node>, query: AABB, k: nat, last: nat, end: nat)
    requires BoxesMerged(nodes, 0, end) && k < last <= end && SkipLayout(nodes, k, last, nodes[k].parent)
    requires !Overlap(nodes[k].box, query)
    ensures Scan(nodes, query, 0, last) == Scan(nodes, query, 0, k)
  {
    BoxesMergedWithin(nodes, 0, end, k, last);
    SubtreeScanned(nodes, query, k, last, nodes[k].parent);
    ScanSplit(nodes, query, 0, k, last);
  }

  /** Skipping the subtree of a node that misses the query loses nothing. */
  lemma SkipLosesNothing(nodes: seq<Node>, query: AABB, end: nat, k: nat)
    requires SkipLayout(nodes, 0, end, INVALID_NODE) && BoxesMerged(nodes, 0, end) && k < end
    requires !Overlap(nodes[k].box, query)
    ensures k + 1 + nodes[k].skip <= end && Scan(nodes, query, 0, k + 1 + nodes[k].skip) == Scan(nodes, query, 0, k)
  {
    SubtreeAt(nodes, 0, end, INVALID_NODE, k);
    ScanSkipped(nodes, query, k, k + 1 + nodes[k].skip, end);
  }

  /** A leaf over a range. */
  lemma LeafJoins(nodes: seq<Node>, node: Node, boxes: seq<AABB>)
    requires node.IsLeaf() && node.skip == 0 && LeafBuilt(node, boxes) && IsHull(boxes, Members(node.particles), node.box)
    ensures LeafParticles(nodes + [node], |nodes|, |nodes| + 1) == node.particles
    ensures Built(nodes + [node], |nodes|, |nodes| + 1, node.parent, boxes)
  {
    assert LeafParticles(nodes + [node], |nodes|, |nodes|) == [];
    assert NodeBuilt(nodes + [node], |nodes|, boxes);
  }

  /** Two neighbouring subtrees, the second built after the first. */
  lemma SiblingsBuilt(a: seq<Node>, b: seq<Node>, first: nat, parent: nat, boxes: seq<AABB>)
    requires Built(a, first, |a|, parent, boxes) && a <= b && Built(b, |a|, |b|, parent, boxes)
    ensures Built(b, first, |a|, parent, boxes)
    ensures LeafParticles(b, first, |b|) == LeafParticles(a, first, |a|) + LeafParticles(b, |a|, |b|)
  {
    BuiltFrame(a, b, first, |a|, parent, boxes);
    LeafParticlesFrame(a, b, first, |a|);
    LeafParticlesSplit(b, first, |a|, |b|);
  }

  lemma SiblingsMapped(a: seq<Node>, b: seq<Node>, m0: seq<nat>, m1: seq<nat>, m2: seq<nat>, first: nat)
    requires first <= |a| && a <= b && Mapped(a, m1, first, |a|) && Mapped(b, m2, |a|, |b|)
    requires Remapped(a, m0, m1, first, |a|) && Remapped(b, m1, m2, |a|, |b|)
    requires LeafParticles(b, first, |b|) == LeafParticles(a, first, |a|) + LeafParticles(b, |a|, |b|)
    ensures Mapped(b, m2, first, |b|) && Remapped(b, m0, m2, first, |b|)
  {
    forall k, p | Holds(a, first, |a|, k, p) || Holds(b, |a|, |b|, k, p) ensures Holds(b, first, |b|, k, p) {
    }
  }

  /** A range whose parts were rearranged one after the other. */
  lemma SiblingsRearranged(a: seq<nat>, b: seq<nat>, c: seq<nat>, lo: nat, mid: nat, hi: nat)
    requires lo <= mid <= hi && Rearranged(a, b, lo, mid) && Rearranged(b, c, mid, hi)
    ensures Rearranged(a, c, lo, hi) && Slice(c, lo, mid) == Slice(b, lo, mid) && Slice(c, lo, hi) == Slice(b, lo, mid) + Slice(c, mid, hi)
  {
    RearrangedWider(a, b, lo, mid, lo, hi);
    RearrangedWider(b, c, mid, hi, lo, hi);
    RearrangedTransitive(a, b, c, lo, hi);
    SliceFrame(b, c, lo, mid);
    SliceSplit(c, lo, mid, hi);
  }

  /** A node on top of its children; the hull was taken before the range was rearranged. */
  lemma ParentBuilt(nodes: seq<Node>, my: nat, right: nat, parent: nat, hull: AABB, boxes: seq<AABB>,
                    before: seq<nat>, after: seq<nat>, lo: nat, hi: nat)
    requires Built(nodes, my + 1, right, my, boxes) && Built(nodes, right, |nodes|, my, boxes) && my + 1 != INVALID_NODE
    requires Rearranged(before, after, lo, hi) && LeafParticles(nodes, my + 1, |nodes|) == Slice(after, lo, hi)
    requires IsHull(boxes, Members(Slice(before, lo, hi)), hull)
    ensures var c := nodes[my := Node(hull, my + 1, right, parent, 0, [], [])];
      && LeafParticles(c, my, |c|) == Slice(after, lo, hi)
      && Built(c, my, |c|, parent, boxes)
  {
    var c := nodes[my := Node(hull, my + 1, right, parent, 0, [], [])];
    BuiltFrame(nodes, c, my + 1, right, my, boxes);
    BuiltFrame(nodes, c, right, |c|, my, boxes);
    LeafParticlesFrame(nodes, c, my + 1, |c|);
    JoinParticles(c, my, |c|);
    BelowIsRange(c, my, |c|, parent);
    RearrangedElements(before, after, lo, hi);
    assert NodeBuilt(c, my, boxes);
    forall k | my <= k < |c| ensures NodeBuilt(c, k, boxes) {
    }
  }

  lemma ParentMapped(nodes: seq<Node>, c: seq<Node>, m0: seq<nat>, m1: seq<nat>, my: nat)
    requires my < |nodes| && |c| == |nodes| && forall k :: my < k < |c| ==> c[k] == nodes[k]
    requires Mapped(nodes, m1, my + 1, |nodes|) && Remapped(nodes, m0, m1, my + 1, |nodes|)
    requires LeafParticles(c, my, |c|) == LeafParticles(nodes, my + 1, |nodes|)
    ensures Mapped(c, m1, my, |c|) && Remapped(c, m0, m1, my, |c|)
  {
    forall k, p | Holds(nodes, my + 1, |nodes|, k, p) ensures Holds(c, my, |c|, k, p) {
    }
  }

  /** Only the skip counts of nodes in [i, end) differ. */
  ghost predicate SameButSkips(a: seq<Node>, b: seq<Node>, i: nat, end: nat) {
    && |a| == |b| && (forall k :: 0 <= k < |a| ==> b[k] == a[k].(skip := b[k].skip))
    && forall k :: 0 <= k < |a| && (k < i || end <= k) ==> b[k] == a[k]
  }

  /** A node above two finished subtrees, the second of which was finished last. */
  lemma SkipsJoin(between: seq<Node>, nodes: seq<Node>, i: nat, end: nat)
    requires i < end <= |nodes| && !nodes[i].IsLeaf() && nodes[i].left == i + 1 && i + 1 < nodes[i].right < end
    requires SameButSkips(between, nodes, nodes[i].right, end)
    requires SkipLayout(between, i + 1, nodes[i].right, i) && SkipLayout(nodes, nodes[i].right, end, i)
    ensures SkipLayout(nodes[i := nodes[i].(skip := end - i - 1)], i, end, nodes[i].parent)
  {
    var after := nodes[i := nodes[i].(skip := end - i - 1)];
    SkipLayoutFrame(between, after, i + 1, nodes[i].right, i);
    SkipLayoutFrame(nodes, after, nodes[i].right, end, i);
  }

  /** A leaf holds 1 to 16 particles and contains the latest box of each. */
  ghost predicate LeafValid(node: Node, latest: seq<AABB>) {
    && 1 <= |node.particles| <= NODE_CAPACITY
    && forall j :: 0 <= j < |node.particles| ==>
         node.particles[j] < |latest| && Contains(node.box, latest[node.particles[j]])
  }

  ghost predicate LeavesValid(nodes: seq<Node>, latest: seq<AABB>) {
    forall k {:trigger LeafValid(nodes[k], latest)} :: 0 <= k < |nodes| && nodes[k].IsLeaf() ==> LeafValid(nodes[k], latest)
  }

  /** How many leaf slots of [i, end) hold the particle. */
  ghost function LeafCount(nodes: seq<Node>, i: nat, end: nat, p: nat): nat
    requires i <= end <= |nodes|
  {
    var order := LeafParticles(nodes, i, end);
    Count(order, 0, |order|, p)
  }

  /** A tree over the particles [0, |latest|), the last known boxes of which are `latest`. */
  ghost predicate TreeOf(nodes: seq<Node>, mapping: seq<nat>, latest: seq<AABB>) {
    && SkipLayout(nodes, 0, |nodes|, INVALID_NODE) && |nodes| <= INVALID_NODE
    && BoxesMerged(nodes, 0, |nodes|) && LeavesValid(nodes, latest)
    && |mapping| == |latest| && Mapped(nodes, mapping, 0, |nodes|)
    && forall p: nat :: LeafCount(nodes, 0, |nodes|, p) == if p < |latest| then 1 else 0
  }

  lemma {:induction false} CountAppend(a: seq<nat>, b: seq<nat>, x: nat)
    ensures Count(a + b, 0, |a + b|, x) == Count(a, 0, |a|, x) + Count(b, 0, |b|, x)
  {
    CountSplit(a + b, 0, |a|, |a + b|, x);
    CountFrame(a, a + b, 0, |a|, x);
    CountShift(a, b, |b|, x);
  }

  lemma {:induction false} CountShift(a: seq<nat>, b: seq<nat>, n: nat, x: nat)
    requires n <= |b|
    ensures Count(a + b, |a|, |a| + n, x) == Count(b, 0, n, x)
  {
    if n > 0 {
      CountShift(a, b, n - 1, x);
    }
  }

  /** A slice counts as the range it was taken from. */
  lemma {:induction false} CountSlice(s: seq<nat>, lo: nat, hi: nat, x: nat)
    requires lo <= hi <= |s|
    ensures Count(Slice(s, lo, hi), 0, hi - lo, x) == Count(s, lo, hi, x)
    decreases hi - lo
  {
    if lo < hi {
      CountSlice(s, lo, hi - 1, x);
      CountFrame(Slice(s, lo, hi - 1), Slice(s, lo, hi), 0, hi - 1 - lo, x);
    }
  }

  /** In a list that counts `x` once, it stands at one position. */
  lemma CountTwice(s: seq<nat>, i: nat, j: nat)
    requires i < j < |s| && s[i] == s[j]
    ensures Count(s, 0, |s|, s[i]) >= 2
  {
    CountSplit(s, 0, i + 1, |s|, s[i]);
    CountSplit(s, i + 1, j + 1, |s|, s[i]);
  }

  lemma {:induction false} SliceWhole(s: seq<nat>, n: nat)
    requires n <= |s|
    ensures Slice(s, 0, n) == s[..n]
  {
    if n > 0 {
      SliceWhole(s, n - 1);
    }
  }

  lemma LeafCountSplit(nodes: seq<Node>, i: nat, mid: nat, end: nat, p: nat)
    requires i <= mid <= end <= |nodes|
    ensures LeafCount(nodes, i, end, p) == LeafCount(nodes, i, mid, p) + LeafCount(nodes, mid, end, p)
  {
    LeafParticlesSplit(nodes, i, mid, end);
    CountAppend(LeafParticles(nodes, i, mid), LeafParticles(nodes, mid, end), p);
  }

  lemma LeafCountMember(nodes: seq<Node>, i: nat, end: nat, p: nat)
    requires i <= end <= |nodes|
    ensures LeafCount(nodes, i, end, p) > 0 <==> p in LeafParticles(nodes, i, end)
  {
    var order := LeafParticles(nodes, i, end);
    SliceWhole(order, |order|);
    CountMember(order, 0, |order|, p);
  }

  lemma {:induction false} LeafParticlesMember(nodes: seq<Node>, i: nat, end: nat, k: nat, p: nat)
    requires Holds(nodes, i, end, k, p)
    ensures p in LeafParticles(nodes, i, end)
    decreases end - i
  {
    if k != end - 1 {
      LeafParticlesMember(nodes, i, end - 1, k, p);
    }
  }

  /** A particle that a leaf holds is counted. */
  lemma LeafCounted(nodes: seq<Node>, i: nat, end: nat, k: nat, p: nat)
    requires Holds(nodes, i, end, k, p)
    ensures LeafCount(nodes, i, end, p) >= 1
  {
    LeafParticlesMember(nodes, i, end, k, p);
    LeafCountMember(nodes, i, end, p);
  }

  /** Two leaves that hold a particle count it twice. */
  lemma LeavesCounted(nodes: seq<Node>, end: nat, j: nat, k: nat, p: nat)
    requires j < k && Holds(nodes, 0, end, j, p) && Holds(nodes, 0, end, k, p)
    ensures LeafCount(nodes, 0, end, p) >= 2
  {
    LeafCounted(nodes, 0, k, j, p);
    LeafCounted(nodes, k, end, k, p);
    LeafCountSplit(nodes, 0, k, end, p);
  }

  /** The reverse mapping is the exact inverse of leaf membership. */
  lemma MappingIsInverse(nodes: seq<Node>, mapping: seq<nat>, latest: seq<AABB>, k: nat, p: nat)
    requires TreeOf(nodes, mapping, latest)
    ensures Holds(nodes, 0, |nodes|, k, p) <==> p < |mapping| && mapping[p] == k
  {
    LeafCountMember(nodes, 0, |nodes|, p);
    assert LeafCount(nodes, 0, |nodes|, p) == if p < |latest| then 1 else 0;
    if Holds(nodes, 0, |nodes|, k, p) {
      LeafParticlesMember(nodes, 0, |nodes|, k, p);
      if mapping[p] < k {
        LeavesCounted(nodes, |nodes|, mapping[p], k, p);
      } else if k < mapping[p] {
        LeavesCounted(nodes, |nodes|, k, mapping[p], p);
      }
    }
  }

  lemma {:induction false} ScanMember(nodes: seq<Node>, query: AABB, i: nat, end: nat, p: nat)
    requires i <= end <= |nodes|
    ensures p in Scan(nodes, query, i, end) <==> exists k: nat :: Holds(nodes, i, end, k, p) && Overlap(nodes[k].box, query)
    decreases end - i
  {
    if i < end {
      ScanMember(nodes, query, i, end - 1, p);
      var last := nodes[end - 1];
      if last.IsLeaf() && Overlap(last.box, query) && p in last.particles {
        assert Holds(nodes, i, end, end - 1, p);
      }
      if k: nat :| Holds(nodes, i, end - 1, k, p) && Overlap(nodes[k].box, query) {
        assert Holds(nodes, i, end, k, p);
      }
      if k: nat :| Holds(nodes, i, end, k, p) && Overlap(nodes[k].box, query) {
        assert k != end - 1 ==> Holds(nodes, i, end - 1, k, p);
      }
    }
  }

  lemma {:induction false} ScanCount(nodes: seq<Node>, query: AABB, i: nat, end: nat, p: nat)
    requires i <= end <= |nodes|
    ensures var hits := Scan(nodes, query, i, end); Count(hits, 0, |hits|, p) <= LeafCount(nodes, i, end, p)
    decreases end - i
  {
    if i < end {
      ScanCount(nodes, query, i, end - 1, p);
      LeafCountSplit(nodes, i, end - 1, end, p);
      assert LeafParticles(nodes, end - 1, end - 1) == [];
      if nodes[end - 1].IsLeaf() && Overlap(nodes[end - 1].box, query) {
        assert LeafParticles(nodes, end - 1, end) == nodes[end - 1].particles;
        CountAppend(Scan(nodes, query, i, end - 1), nodes[end - 1].particles, p);
      } else {
        assert Scan(nodes, query, i, end) == Scan(nodes, query, i, end - 1);
      }
    }
  }

  /**
  What a query of a tree finds: the particles whose leaf overlaps the query, no index twice, and
  among them every particle whose latest box has a point in common with it.
   */
  lemma QueryIsExact(nodes: seq<Node>, mapping: seq<nat>, latest: seq<AABB>, query: AABB)
    requires TreeOf(nodes, mapping, latest)
    ensures var hits := Scan(nodes, query, 0, |nodes|);
      && (forall p: nat :: p in hits <==> p < |latest| && mapping[p] < |nodes| && Overlap(nodes[mapping[p]].box, query))
      && (forall i, j :: 0 <= i < j < |hits| ==> hits[i] != hits[j])
      && (forall p :: 0 <= p < |latest| && Meet(latest[p], query) ==> p in hits)
      && forall p: nat :: p < |latest| && Proper(latest[p]) && Proper(query) ==>
           (p in hits <==> mapping[p] < |nodes| && Meet(nodes[mapping[p]].box, query))
  {
    var hits := Scan(nodes, query, 0, |nodes|);
    forall p: nat ensures p in hits <==> p < |latest| && mapping[p] < |nodes| && Overlap(nodes[mapping[p]].box, query) {
      ScanMember(nodes, query, 0, |nodes|, p);
      FoundByMapping(nodes, mapping, latest, query, p);
    }
    forall i, j | 0 <= i < j < |hits| ensures hits[i] != hits[j] {
      ScanCount(nodes, query, 0, |nodes|, hits[i]);
      assert LeafCount(nodes, 0, |nodes|, hits[i]) <= 1;
      if hits[i] == hits[j] {
        CountTwice(hits, i, j);
      }
    }
    forall p | 0 <= p < |latest| && Meet(latest[p], query) ensures p in hits {
      MeetingIsFound(nodes, mapping, latest, query, p);
    }
    forall p: nat | p < |latest| && Proper(latest[p]) && Proper(query)
      ensures p in hits <==> mapping[p] < |nodes| && Meet(nodes[mapping[p]].box, query)
    {
      LatestInLeaf(nodes, mapping, latest, p);
      OverlapIsMeeting(nodes[mapping[p]].box, query);
    }
  }

  lemma MeetingIsFound(nodes: seq<Node>, mapping: seq<nat>, latest: seq<AABB>, query: AABB, p: nat)
    requires TreeOf(nodes, mapping, latest) && p < |latest| && Meet(latest[p], query)
    ensures mapping[p] < |nodes| && Overlap(nodes[mapping[p]].box, query)
  {
    LatestInLeaf(nodes, mapping, latest, p);
    OverlapIsMeeting(latest[p], query);
    OverlapMonotone(nodes[mapping[p]].box, latest[p], query);
  }

  lemma FoundByMapping(nodes: seq<Node>, mapping: seq<nat>, latest: seq<AABB>, query: AABB, p: nat)
    requires TreeOf(nodes, mapping, latest)
    ensures (exists k: nat :: Holds(nodes, 0, |nodes|, k, p) && Overlap(nodes[k].box, query))
       <==> p < |latest| && mapping[p] < |nodes| && Overlap(nodes[mapping[p]].box, query)
  {
    if k: nat :| Holds(nodes, 0, |nodes|, k, p) && Overlap(nodes[k].box, query) {
      MappingIsInverse(nodes, mapping, latest, k, p);
    }
    if p < |latest| && mapping[p] < |nodes| && Overlap(nodes[mapping[p]].box, query) {
      MappingIsInverse(nodes, mapping, latest, mapping[p], p);
    }
  }

  lemma LatestInLeaf(nodes: seq<Node>, mapping: seq<nat>, latest: seq<AABB>, p: nat)
    requires TreeOf(nodes, mapping, latest) && p < |latest|
    ensures mapping[p] < |nodes| && Contains(nodes[mapping[p]].box, latest[p])
  {
    MappingIsInverse(nodes, mapping, latest, mapping[p], p);
    assert LeafValid(nodes[mapping[p]], latest);
  }

  /** The indices of `n` particles in order. */
  ghost predicate Identity(s: seq<nat>, n: nat) {
    |s| == n && forall i :: 0 <= i < n ==> s[i] == i
  }

  lemma {:induction false} IdentityCount(s: seq<nat>, n: nat, m: nat, x: nat)
    requires Identity(s, n) && m <= n
    ensures Count(s, 0, m, x) == if x < m then 1 else 0
  {
    if m > 0 {
      IdentityCount(s, n, m - 1, x);
    }
  }

  /** The leaves of a finished build hold every particle once. */
  lemma BuiltCounts(nodes: seq<Node>, idx0: seq<nat>, idx: seq<nat>, n: nat, p: nat)
    requires Identity(idx0, n) && Rearranged(idx0, idx, 0, n) && LeafParticles(nodes, 0, |nodes|) == Slice(idx, 0, n)
    ensures LeafCount(nodes, 0, |nodes|, p) == if p < n then 1 else 0
  {
    var order := LeafParticles(nodes, 0, |nodes|);
    CountSlice(idx, 0, n, p);
    IdentityCount(idx0, n, n, p);
    assert |order| == n;
    assert Count(order, 0, n, p) == Count(idx, 0, n, p) == Count(idx0, 0, n, p);
  }

  lemma NothingSkipped(nodes: seq<Node>, i: nat, end: nat, boxes: seq<AABB>)
    requires AllBuilt(nodes, i, end, boxes)
    ensures forall k :: i <= k < end ==> nodes[k].skip == 0
  {
    forall k | i <= k < end ensures nodes[k].skip == 0 {
      assert NodeBuilt(nodes, k, boxes);
    }
  }

  /** A built node with its children has the corners of their merge. */
  lemma BuiltMerges(nodes: seq<Node>, k: nat, boxes: seq<AABB>)
    requires k < |nodes| && !nodes[k].IsLeaf() && k < nodes[k].left < |nodes| && k < nodes[k].right < |nodes|
    requires NodeBuilt(nodes, k, boxes) && NodeBuilt(nodes, nodes[k].left, boxes) && NodeBuilt(nodes, nodes[k].right, boxes)
    ensures MergedAt(nodes, k)
  {
    var (l, r) := (nodes[k].left, nodes[k].right);
    MergeIsHull(boxes, Below(nodes, l), Below(nodes, r), nodes[l].box, nodes[r].box);
    HullUnique(boxes, Below(nodes, k), nodes[k].box, Merge(nodes[l].box, nodes[r].box));
  }

  lemma BuiltLeafValid(nodes: seq<Node>, k: nat, boxes: seq<AABB>)
    requires k < |nodes| && nodes[k].IsLeaf() && NodeBuilt(nodes, k, boxes)
    ensures LeafValid(nodes[k], boxes)
  {
    var node := nodes[k];
    forall j | 0 <= j < |node.particles| ensures Contains(node.box, boxes[node.particles[j]]) {
      assert node.particles[j] in Below(nodes, k);
    }
  }

  lemma BuiltIsMerged(nodes: seq<Node>, boxes: seq<AABB>, after: seq<Node>)
    requires Built(nodes, 0, |nodes|, INVALID_NODE, boxes) && SameButSkips(nodes, after, 0, |nodes|)
    requires SkipLayout(after, 0, |after|, INVALID_NODE)
    ensures BoxesMerged(after, 0, |after|) && LeavesValid(after, boxes)
  {
    forall k | 0 <= k < |nodes| && !after[k].IsLeaf() ensures MergedAt(after, k) {
      ChildLinks(after, 0, |after|, INVALID_NODE, k);
      assert NodeBuilt(nodes, k, boxes) && NodeBuilt(nodes, nodes[k].left, boxes) && NodeBuilt(nodes, nodes[k].right, boxes);
      BuiltMerges(nodes, k, boxes);
    }
    forall k | 0 <= k < |nodes| && after[k].IsLeaf() ensures LeafValid(after[k], boxes) {
      assert NodeBuilt(nodes, k, boxes);
      BuiltLeafValid(nodes, k, boxes);
    }
  }

  lemma MappedSkips(a: seq<Node>, b: seq<Node>, mapping: seq<nat>)
    requires SameButSkips(a, b, 0, |a|) && Mapped(a, mapping, 0, |a|)
    ensures Mapped(b, mapping, 0, |b|) && LeafParticles(a, 0, |a|) == LeafParticles(b, 0, |b|)
  {
    LeafParticlesFrame(a, b, 0, |a|);
    forall k, p | Holds(a, 0, |a|, k, p) ensures Holds(b, 0, |b|, k, p) {
    }
  }

  /** Every leaf of a build has the tags of its particles; every box is as tight as it can be. */
  ghost predicate Tight(nodes: seq<Node>, boxes: seq<AABB>) {
    forall k {:trigger Below(nodes, k)} :: 0 <= k < |nodes| ==>
      (nodes[k].IsLeaf() ==> LeafBuilt(nodes[k], boxes)) && IsHull(boxes, Below(nodes, k), nodes[k].box)
  }

  lemma BuiltIsTight(nodes: seq<Node>, boxes: seq<AABB>, after: seq<Node>)
    requires Built(nodes, 0, |nodes|, INVALID_NODE, boxes) && SameButSkips(nodes, after, 0, |nodes|)
    ensures Tight(after, boxes)
  {
    forall k | 0 <= k < |after|
      ensures (after[k].IsLeaf() ==> LeafBuilt(after[k], boxes)) && IsHull(boxes, Below(after, k), after[k].box)
    {
      assert NodeBuilt(nodes, k, boxes);
      BelowFrame(nodes, after, 0, |nodes|, INVALID_NODE, k);
    }
  }

  /** A finished build is a tree over its boxes. */
  lemma BuiltIsTree(nodes: seq<Node>, after: seq<Node>, mapping: seq<nat>, boxes: seq<AABB>, idx0: seq<nat>, idx: seq<nat>)
    requires Built(nodes, 0, |nodes|, INVALID_NODE, boxes) && |nodes| <= INVALID_NODE
    requires SameButSkips(nodes, after, 0, |nodes|) && SkipLayout(after, 0, |after|, INVALID_NODE)
    requires Identity(idx0, |boxes|) && Rearranged(idx0, idx, 0, |boxes|)
    requires LeafParticles(nodes, 0, |nodes|) == Slice(idx, 0, |boxes|)
    requires |mapping| == |boxes| && Mapped(nodes, mapping, 0, |nodes|)
    ensures TreeOf(after, mapping, boxes) && Tight(after, boxes) && LeafParticles(after, 0, |after|) == Slice(idx, 0, |boxes|)
  {
    BuiltIsMerged(nodes, boxes, after);
    BuiltIsTight(nodes, boxes, after);
    MappedSkips(nodes, after, mapping);
    forall p: nat ensures LeafCount(after, 0, |after|, p) == if p < |boxes| then 1 else 0 {
      BuiltCounts(nodes, idx0, idx, |boxes|, p);
    }
  }

  // ----- updates ----------------------------------------------------------------------------

  /** The same tree but for the boxes, none of which shrank. */
  ghost predicate Grown(a: seq<Node>, b: seq<Node>) {
    && |a| == |b|
    && forall k :: 0 <= k < |a| ==> b[k] == a[k].(box := b[k].box) && Contains(b[k].box, a[k].box)
  }

  /** All internal boxes but that of node `x` are merged from their children. */
  ghost predicate MergedExcept(nodes: seq<Node>, x: nat) {
    forall k {:trigger MergedAt(nodes, k)} :: 0 <= k < |nodes| && !nodes[k].IsLeaf() && k != x ==> MergedAt(nodes, k)
  }

  /** A new box for one node leaves only its parent to be merged again. */
  lemma BoxChange(nodes: seq<Node>, k: nat, box: AABB)
    requires SkipLayout(nodes, 0, |nodes|, INVALID_NODE) && k < |nodes| && MergedExcept(nodes, k)
    requires !nodes[k].IsLeaf() ==>
      nodes[k].left < |nodes| && nodes[k].right < |nodes| && box == Merge(nodes[nodes[k].left].box, nodes[nodes[k].right].box)
    ensures MergedExcept(nodes[k := nodes[k].(box := box)], nodes[k].parent)
  {
    var after := nodes[k := nodes[k].(box := box)];
    forall j | 0 <= j < |nodes| && !after[j].IsLeaf() && j != nodes[k].parent ensures MergedAt(after, j) {
      ChildLinks(nodes, 0, |nodes|, INVALID_NODE, j);
      if j != k {
        assert MergedAt(nodes, j);
      }
    }
  }

  /** Merging the grown children of a node gives a box that grew. */
  lemma MergeGrows(a: seq<Node>, b: seq<Node>, k: nat)
    requires k < |a| && Grown(a, b) && MergedAt(a, k)
    ensures Contains(Merge(b[a[k].left].box, b[a[k].right].box), a[k].box)
  {
    var (l, r) := (a[k].left, a[k].right);
    assert Contains(b[l].box, a[l].box) && Contains(b[r].box, a[r].box);
  }

  lemma GrownLayout(a: seq<Node>, b: seq<Node>)
    requires Grown(a, b) && SkipLayout(a, 0, |a|, INVALID_NODE)
    ensures SkipLayout(b, 0, |b|, INVALID_NODE) && LeafParticles(b, 0, |b|) == LeafParticles(a, 0, |a|)
  {
    SkipLayoutFrame(a, b, 0, |a|, INVALID_NODE);
    LeafParticlesFrame(a, b, 0, |a|);
  }

  lemma ContainsTransitive(a: AABB, b: AABB, c: AABB)
    requires Contains(a, b) && Contains(b, c)
    ensures Contains(a, c)
  {
  }

  lemma GrownLeaf(a: seq<Node>, b: seq<Node>, mapping: seq<nat>, latest: seq<AABB>, p: nat, box: AABB, k: nat)
    requires TreeOf(a, mapping, latest) && Grown(a, b) && p < |latest| && mapping[p] < |b| && Contains(b[mapping[p]].box, box)
    requires k < |a| && a[k].IsLeaf()
    ensures LeafValid(b[k], latest[p := box])
  {
    var node := b[k];
    assert LeafValid(a[k], latest);
    forall j | 0 <= j < |node.particles| ensures Contains(node.box, latest[p := box][node.particles[j]]) {
      var q := node.particles[j];
      if q == p {
        assert Holds(a, 0, |a|, k, p);
        MappingIsInverse(a, mapping, latest, k, p);
      } else {
        ContainsTransitive(node.box, a[k].box, latest[q]);
      }
    }
  }

  /** A grown, merged tree whose leaf contains the new box of `p` is a tree over the new boxes. */
  lemma UpdatedTree(a: seq<Node>, b: seq<Node>, mapping: seq<nat>, latest: seq<AABB>, p: nat, box: AABB)
    requires TreeOf(a, mapping, latest) && Grown(a, b) && MergedExcept(b, INVALID_NODE)
    requires p < |latest| && mapping[p] < |b| && Contains(b[mapping[p]].box, box)
    ensures TreeOf(b, mapping, latest[p := box])
  {
    GrownLayout(a, b);
    forall k | 0 <= k < |b| && b[k].IsLeaf() ensures LeafValid(b[k], latest[p := box]) {
      GrownLeaf(a, b, mapping, latest, p, box, k);
    }
    forall k, q | Holds(a, 0, |a|, k, q) ensures Holds(b, 0, |b|, k, q) {
    }
    forall q: nat ensures LeafCount(b, 0, |b|, q) == LeafCount(a, 0, |a|, q) {
    }
  }

  // ----- heights ----------------------------------------------------------------------------

  /** The nodes whose subtree contains node `k`, itself included. */
  ghost function Ancestors(nodes: seq<Node>, k: nat): set<nat>
    requires k < |nodes|
  {
    set a: nat | a <= k && k <= a + nodes[a].skip
  }

  /** Above a node stand its parent and what stands above that. */
  lemma {:induction false} AncestorStep(nodes: seq<Node>, i: nat, end: nat, parent: nat, k: nat, a: nat)
    requires SkipLayout(nodes, i, end, parent) && i < k < end && i <= a < end
    ensures i <= nodes[k].parent < k
    ensures a <= k <= a + nodes[a].skip && a != k <==> a <= nodes[k].parent <= a + nodes[a].skip
    decreases end - i
  {
    var right := nodes[i].right;
    ParentLinks(nodes, i, end, parent, k);
    SubtreeAt(nodes, i, end, parent, a);
    if i < a < right {
      SubtreeAt(nodes, i + 1, right, i, a);
    }
    if i + 1 < k < right {
      ParentLinks(nodes, i + 1, right, i, k);
      if i < a < right {
        AncestorStep(nodes, i + 1, right, i, k, a);
      }
    } else if right < k {
      ParentLinks(nodes, right, end, i, k);
      if right <= a {
        AncestorStep(nodes, right, end, i, k, a);
      }
    }
  }

  lemma AncestorsStep(nodes: seq<Node>, k: nat)
    requires SkipLayout(nodes, 0, |nodes|, INVALID_NODE) && 0 < k < |nodes|
    ensures nodes[k].parent < k && Ancestors(nodes, k) == Ancestors(nodes, nodes[k].parent) + {k}
    ensures k !in Ancestors(nodes, nodes[k].parent)
  {
    ParentLinks(nodes, 0, |nodes|, INVALID_NODE, k);
    forall a: nat | a < |nodes|
      ensures a <= k <= a + nodes[a].skip && a != k <==> a <= nodes[k].parent <= a + nodes[a].skip
    {
      AncestorStep(nodes, 0, |nodes|, INVALID_NODE, k, a);
    }
  }

  class AABBTree {
    var nodes: seq<Node>
    var root: nat
    var mapping: seq<nat>
    /** the work list of a build: particle indices, rearranged together with the boxes */
    var idx: seq<nat>

    constructor ()
      ensures nodes == [] && root == 0 && mapping == []
    {
      nodes, root, mapping, idx := [], 0, [], [];
    }

    /** Exchange two positions of both lists. */
    method Swap(aabbs: array<AABB>, a: nat, b: nat, ghost lo: nat, ghost hi: nat, ghost boxes: seq<AABB>, ghost first: seq<nat>)
      requires LockStep(boxes, aabbs[..], idx) && lo <= a < hi <= |idx| && lo <= b < hi
      requires Rearranged(first, idx, lo, hi)
      modifies `idx, aabbs
      ensures LockStep(boxes, aabbs[..], idx) && Rearranged(first, idx, lo, hi)
      ensures aabbs[a] == old(aabbs[b]) && aabbs[b] == old(aabbs[a])
      ensures forall k :: 0 <= k < aabbs.Length && k != a && k != b ==> aabbs[k] == old(aabbs[k])
    {
      ghost var before, was := idx, aabbs[..];
      SwapRearranges(before, lo, hi, a, b);
      aabbs[a], aabbs[b] := aabbs[b], aabbs[a];
      idx := idx[a := idx[b]][b := idx[a]];
      assert aabbs[..] == was[a := was[b]][b := was[a]];
      RearrangedTransitive(first, before, idx, lo, hi);
    }

    /** Partition a range in place by the position along an axis, boxes and indices together. */
    method Partition(aabbs: array<AABB>, start: nat, len: nat, axis: nat, mid: real, ghost boxes: seq<AABB>)
      returns (startRight: nat)
      requires LockStep(boxes, aabbs[..], idx) && start + len <= |idx|
      modifies `idx, aabbs
      ensures LockStep(boxes, aabbs[..], idx) && Rearranged(old(idx), idx, start, start + len)
      ensures startRight <= len
      ensures forall k :: start <= k < start + startRight ==> OnLeft(aabbs[k], axis, mid)
      ensures forall k :: start + startRight <= k < start + len ==> !OnLeft(aabbs[k], axis, mid)
    {
      startRight := len;
      var i := 0;
      while i < startRight
        invariant i <= startRight <= len
        invariant LockStep(boxes, aabbs[..], idx) && Rearranged(old(idx), idx, start, start + len)
        invariant forall k :: start <= k < start + i ==> OnLeft(aabbs[k], axis, mid)
        invariant forall k :: start + startRight <= k < start + len ==> !OnLeft(aabbs[k], axis, mid)
        decreases startRight - i
      {
        if OnLeft(aabbs[start + i], axis, mid) {
          i := i + 1;
        } else {
          Swap(aabbs, start + i, start + startRight - 1, start, start + len, boxes, old(idx));
          startRight := startRight - 1;
        }
      }
    }

    /** Split a range along the longest axis of its hull; an empty side borrows one particle. */
    method Split(aabbs: array<AABB>, start: nat, len: nat, hull: AABB, ghost boxes: seq<AABB>) returns (startRight: nat)
      requires LockStep(boxes, aabbs[..], idx) && start + len <= |idx| && 2 <= len
      modifies `idx, aabbs
      ensures LockStep(boxes, aabbs[..], idx) && Rearranged(old(idx), idx, start, start + len)
      ensures 1 <= startRight < len
      ensures Parted(aabbs[start..start + len], hull, LongestAxis(hull), startRight)
    {
      var axis := LongestAxis(hull);
      startRight := Partition(aabbs, start, len, axis, Coordinate(hull.Position(), axis), boxes);
      ghost var lowers := startRight;
      ghost var range := aabbs[start..start + len];
      forall k | 0 <= k < len ensures Lower(range[k], hull, axis) <==> k < lowers {
        assert range[k] == aabbs[start + k];
        LeftIsLower(range[k], hull, axis);
      }
      if startRight == len {
        startRight := len - 1;
      }
      if startRight == 0 {
        startRight := 1;
      }
      assert PartedAt(range, hull, axis, lowers, startRight);
    }

    /** Collect the particles of a leaf and map them to it. */
    method FillLeaf(aabbs: array<AABB>, start: nat, len: nat, node: nat, ghost boxes: seq<AABB>)
      returns (particles: seq<nat>, tags: seq<nat>)
      requires LockStep(boxes, aabbs[..], idx) && start + len <= |idx| && |mapping| == |boxes|
      modifies `mapping
      ensures particles == Slice(idx, start, start + len) && |tags| == len && |mapping| == |boxes|
      ensures forall j :: 0 <= j < len ==> particles[j] < |boxes| && tags[j] == boxes[particles[j]].tag
      ensures forall p :: p in particles ==> p < |mapping| && mapping[p] == node
      ensures forall p :: 0 <= p < |mapping| ==> mapping[p] == old(mapping)[p] || (mapping[p] == node && p in particles)
    {
      particles, tags := [], [];
      for i := 0 to len
        invariant particles == Slice(idx, start, start + i) && |tags| == i && |mapping| == |boxes|
        invariant forall j :: 0 <= j < i ==> particles[j] < |boxes| && tags[j] == boxes[particles[j]].tag
        invariant forall p :: p in particles ==> p < |mapping| && mapping[p] == node
        invariant forall p :: 0 <= p < |mapping| ==> mapping[p] == old(mapping)[p] || (mapping[p] == node && p in particles)
      {
        particles := particles + [idx[start + i]];
        tags := tags + [aabbs[start + i].tag];
        mapping := mapping[idx[start + i] := node];
      }
    }

    /** Create a leaf over the range [start, start + len). */
    method BuildLeaf(aabbs: array<AABB>, start: nat, len: nat, parent: nat, hull: AABB, ghost boxes: seq<AABB>)
      returns (node: nat)
      requires LockStep(boxes, aabbs[..], idx) && 1 <= len <= NODE_CAPACITY && start + len <= |idx|
      requires |mapping| == |boxes| && IsHull(boxes, Members(Slice(idx, start, start + len)), hull)
      modifies `nodes, `mapping
      ensures node == |old(nodes)| && old(nodes) <= nodes
      ensures Built(nodes, node, |nodes|, parent, boxes) && |nodes| < node + 2 * len
      ensures LeafParticles(nodes, node, |nodes|) == Slice(idx, start, start + len)
      ensures Mapped(nodes, mapping, node, |nodes|) && Remapped(nodes, old(mapping), mapping, node, |nodes|)
    {
      node := |nodes|;
      var particles, tags := FillLeaf(aabbs, start, len, node, boxes);
      var leaf := Node(hull, INVALID_NODE, INVALID_NODE, parent, 0, particles, tags);
      LeafJoins(nodes, leaf, boxes);
      nodes := nodes + [leaf];
    }

    /** Build a node over the range [start, start + len), recursively. */
    method BuildNode(aabbs: array<AABB>, start: nat, len: nat, parent: nat, ghost boxes: seq<AABB>)
      returns (node: nat)
      requires LockStep(boxes, aabbs[..], idx) && 1 <= len && start + len <= |idx|
      requires |mapping| == |boxes| && |nodes| + 2 * len <= INVALID_NODE
      modifies `nodes, `mapping, `idx, aabbs
      ensures LockStep(boxes, aabbs[..], idx) && Rearranged(old(idx), idx, start, start + len)
      ensures node == |old(nodes)| && old(nodes) <= nodes
      ensures Built(nodes, node, |nodes|, parent, boxes) && |nodes| < node + 2 * len
      ensures LeafParticles(nodes, node, |nodes|) == Slice(idx, start, start + len)
      ensures Mapped(nodes, mapping, node, |nodes|) && Remapped(nodes, old(mapping), mapping, node, |nodes|)
      decreases len, 2
    {
      var hull := HullOf(aabbs, idx, start, len, boxes);
      if len <= NODE_CAPACITY {
        node := BuildLeaf(aabbs, start, len, parent, hull, boxes);
      } else {
        node := BuildInternal(aabbs, start, len, parent, hull, boxes);
      }
    }

    method BuildInternal(aabbs: array<AABB>, start: nat, len: nat, parent: nat, hull: AABB, ghost boxes: seq<AABB>)
      returns (node: nat)
      requires LockStep(boxes, aabbs[..], idx) && 2 <= len && start + len <= |idx|
      requires |mapping| == |boxes| && |nodes| + 2 * len <= INVALID_NODE
      requires IsHull(boxes, Members(Slice(idx, start, start + len)), hull)
      modifies `nodes, `mapping, `idx, aabbs
      ensures LockStep(boxes, aabbs[..], idx) && Rearranged(old(idx), idx, start, start + len)
      ensures node == |old(nodes)| && old(nodes) <= nodes
      ensures Built(nodes, node, |nodes|, parent, boxes) && |nodes| < node + 2 * len
      ensures LeafParticles(nodes, node, |nodes|) == Slice(idx, start, start + len)
      ensures Mapped(nodes, mapping, node, |nodes|) && Remapped(nodes, old(mapping), mapping, node, |nodes|)
      decreases len, 1
    {
      node := |nodes|;
      nodes := nodes + [NEW_NODE];
      var startRight := Split(aabbs, start, len, hull, boxes);
      ghost var idx1 := idx;
      var left, right := BuildChildren(aabbs, start, len, startRight, node, boxes);
      RearrangedTransitive(old(idx), idx1, idx, start, start + len);
      ghost var children := nodes;
      ParentBuilt(children, node, right, parent, hull, boxes, old(idx), idx, start, start + len);
      nodes := nodes[node := nodes[node].(box := hull, parent := parent, left := left, right := right)];
      ParentMapped(children, nodes, old(mapping), mapping, node);
    }

    method BuildChildren(aabbs: array<AABB>, start: nat, len: nat, startRight: nat, my: nat, ghost boxes: seq<AABB>)
      returns (left: nat, right: nat)
      requires LockStep(boxes, aabbs[..], idx) && start + len <= |idx| && 1 <= startRight < len
      requires |mapping| == |boxes| && |nodes| + 2 * len <= INVALID_NODE + 1
      modifies `nodes, `mapping, `idx, aabbs
      ensures LockStep(boxes, aabbs[..], idx) && Rearranged(old(idx), idx, start, start + len)
      ensures left == |old(nodes)| && old(nodes) <= nodes && Built(nodes, left, right, my, boxes)
      ensures Built(nodes, right, |nodes|, my, boxes) && |nodes| < left + 2 * len - 1
      ensures LeafParticles(nodes, left, |nodes|) == Slice(idx, start, start + len)
      ensures Mapped(nodes, mapping, left, |nodes|) && Remapped(nodes, old(mapping), mapping, left, |nodes|)
      decreases len, 0
    {
      left := BuildNode(aabbs, start, startRight, my, boxes);
      ghost var idx1, nodes1, mapping1 := idx, nodes, mapping;
      right := BuildNode(aabbs, start + startRight, len - startRight, my, boxes);
      SiblingsRearranged(old(idx), idx1, idx, start, start + startRight, start + len);
      SiblingsBuilt(nodes1, nodes, left, my, boxes);
      assert LeafParticles(nodes, left, |nodes|) == Slice(idx1, start, start + startRight) + Slice(idx, start + startRight, start + len);
      SiblingsMapped(nodes1, nodes, old(mapping), mapping1, mapping, left);
    }

    /** Set the skip counts of the subtree of `i` to the number of nodes below. */
    method UpdateSkip(i: nat, ghost end: nat, ghost parent: nat) returns (size: nat)
      requires Layout(nodes, i, end, parent) && forall k :: i <= k < end ==> nodes[k].skip == 0
      modifies `nodes
      ensures SkipLayout(nodes, i, end, parent) && size == end - i
      ensures SameButSkips(old(nodes), nodes, i, end)
      decreases end - i, 1
    {
      if nodes[i].IsLeaf() {
        return 1;
      }
      var below := UpdateChildren(i, end, parent);
      nodes := nodes[i := nodes[i].(skip := below)];
      return below + 1;
    }

    /** Set the skip counts below both children of `i`. */
    method UpdateChildren(i: nat, ghost end: nat, ghost parent: nat) returns (below: nat)
      requires Layout(nodes, i, end, parent) && !nodes[i].IsLeaf() && forall k :: i <= k < end ==> nodes[k].skip == 0
      modifies `nodes
      ensures below == end - i - 1 && SameButSkips(old(nodes), nodes, i + 1, end)
      ensures SkipLayout(nodes[i := nodes[i].(skip := below)], i, end, parent)
      decreases end - i, 0
    {
      var left, right := nodes[i].left, nodes[i].right;
      var one := UpdateSkip(left, right, i);
      ghost var between := nodes;
      LayoutFrame(old(nodes), nodes, right, end, i);
      var other := UpdateSkip(right, end, i);
      SkipsJoin(between, nodes, i, end);
      below := one + other;
    }

    /** Clear the tree and make room for `n` particles. */
    method Init(n: nat)
      modifies this
      ensures nodes == [] && root == INVALID_NODE && mapping == seq(n, _ => INVALID_NODE) && Identity(idx, n)
    {
      nodes, root, mapping, idx := [], INVALID_NODE, [], [];
      for i := 0 to n
        invariant nodes == [] && root == INVALID_NODE && mapping == seq(i, _ => INVALID_NODE) && idx == []
      {
        mapping := mapping + [INVALID_NODE];
      }
      for i := 0 to n
        invariant nodes == [] && root == INVALID_NODE && mapping == seq(n, _ => INVALID_NODE) && Identity(idx, i)
      {
        idx := idx + [i];
      }
    }

    /**
    Build a tree over the given boxes, which are rearranged on the way. As in the source, there is
    at least one box and the number of nodes stays below the invalid index.
     */
    method BuildTree(aabbs: array<AABB>)
      requires 1 <= aabbs.Length && 2 * aabbs.Length <= INVALID_NODE
      modifies this, aabbs
      ensures root == 0 && TreeOf(nodes, mapping, old(aabbs[..])) && Tight(nodes, old(aabbs[..]))
      ensures LockStep(old(aabbs[..]), aabbs[..], idx)
      ensures LeafParticles(nodes, 0, |nodes|) == Slice(idx, 0, aabbs.Length)
    {
      ghost var boxes := aabbs[..];
      ghost var idx0 := BuildRoot(aabbs, boxes);
      ghost var built := nodes;
      NothingSkipped(nodes, 0, |nodes|, boxes);
      var size := UpdateSkip(root, |nodes|, INVALID_NODE);
      BuiltIsTree(built, nodes, mapping, boxes, idx0, idx);
    }

    method BuildRoot(aabbs: array<AABB>, ghost boxes: seq<AABB>) returns (ghost idx0: seq<nat>)
      requires 1 <= aabbs.Length && 2 * aabbs.Length <= INVALID_NODE && boxes == aabbs[..]
      modifies this, aabbs
      ensures root == 0 && Built(nodes, 0, |nodes|, INVALID_NODE, boxes) && |nodes| <= INVALID_NODE
      ensures LockStep(boxes, aabbs[..], idx) && Identity(idx0, |boxes|) && Rearranged(idx0, idx, 0, |boxes|)
      ensures LeafParticles(nodes, 0, |nodes|) == Slice(idx, 0, |boxes|)
      ensures |mapping| == |boxes| && Mapped(nodes, mapping, 0, |nodes|)
    {
      Init(aabbs.Length);
      idx0 := idx;
      var node := BuildWhole(aabbs, boxes);
      root := node;
    }

    /** Build a node over all boxes in an empty tree. */
    method BuildWhole(aabbs: array<AABB>, ghost boxes: seq<AABB>) returns (node: nat)
      requires LockStep(boxes, aabbs[..], idx) && 1 <= |boxes| && 2 * |boxes| <= INVALID_NODE && nodes == [] && |mapping| == |boxes|
      modifies `nodes, `mapping, `idx, aabbs
      ensures node == 0 && Built(nodes, 0, |nodes|, INVALID_NODE, boxes) && |nodes| <= INVALID_NODE
      ensures LockStep(boxes, aabbs[..], idx) && Rearranged(old(idx), idx, 0, |boxes|)
      ensures LeafParticles(nodes, 0, |nodes|) == Slice(idx, 0, |boxes|)
      ensures |mapping| == |boxes| && Mapped(nodes, mapping, 0, |nodes|)
    {
      node := BuildNode(aabbs, 0, aabbs.Length, INVALID_NODE, boxes);
    }

    /** Append the particles of a leaf one by one. */
    static method Push(hits: seq<nat>, particles: seq<nat>) returns (found: seq<nat>)
      ensures found == hits + particles
    {
      found := hits;
      for i := 0 to |particles|
        invariant found == hits + particles[..i]
      {
        found := found + [particles[i]];
      }
    }

    /** Append the particles of all leaves that overlap the query; `checks` counts the nodes visited. */
    method Query(hits: seq<nat>, query: AABB, ghost latest: seq<AABB>) returns (found: seq<nat>, checks: nat)
      requires TreeOf(nodes, mapping, latest)
      ensures found == hits + Scan(nodes, query, 0, |nodes|) && checks <= |nodes|
      ensures forall p :: 0 <= p < |latest| && Meet(latest[p], query) ==> p in found
    {
      found, checks := hits, 0;
      var current := 0;
      while current < |nodes|
        invariant current <= |nodes| && checks <= current && found == hits + Scan(nodes, query, 0, current)
      {
        var node := nodes[current];
        checks := checks + 1;
        if Overlap(node.box, query) {
          if node.IsLeaf() {
            found := Push(found, node.particles);
          }
        } else {
          SkipLosesNothing(nodes, query, |nodes|, current);
          current := current + node.skip;
        }
        current := current + 1;
      }
      QueryIsExact(nodes, mapping, latest, query);
    }

    /** Give a particle a new box: its leaf grows if needed, and then everything above it. */
    method Update(p: nat, box: AABB, ghost latest: seq<AABB>)
      requires TreeOf(nodes, mapping, latest) && p < |mapping|
      modifies `nodes
      ensures TreeOf(nodes, mapping, latest[p := box]) && Grown(old(nodes), nodes)
      ensures forall k :: 0 <= k < |nodes| && nodes[k].IsLeaf() && k != mapping[p] ==> nodes[k] == old(nodes)[k]
    {
      var leaf := mapping[p];
      LatestInLeaf(nodes, mapping, latest, p);
      MappingIsInverse(nodes, mapping, latest, leaf, p);
      if !Contains(nodes[leaf].box, box) {
        var grown := Merge(nodes[leaf].box, box);
        BoxChange(nodes, leaf, grown);
        nodes := nodes[leaf := nodes[leaf].(box := grown)];
        SkipLayoutFrame(old(nodes), nodes, 0, |nodes|, INVALID_NODE);
        MergeParents(leaf, old(nodes));
      }
      UpdatedTree(old(nodes), nodes, mapping, latest, p, box);
    }

    /** Merge the boxes of all nodes above `k` again. */
    method MergeParents(k: nat, ghost before: seq<Node>)
      requires SkipLayout(nodes, 0, |nodes|, INVALID_NODE) && |nodes| <= INVALID_NODE && k < |nodes|
      requires Grown(before, nodes) && MergedExcept(before, INVALID_NODE) && MergedExcept(nodes, nodes[k].parent)
      modifies `nodes
      ensures Grown(before, nodes) && MergedExcept(nodes, INVALID_NODE)
      ensures forall j :: 0 <= j < |nodes| && nodes[j].IsLeaf() ==> nodes[j] == old(nodes)[j]
    {
      var current := nodes[k].parent;
      ghost var below: nat := k;
      while current != INVALID_NODE
        invariant SkipLayout(nodes, 0, |nodes|, INVALID_NODE) && |nodes| == |before|
        invariant below < |nodes| && current == nodes[below].parent
        invariant Grown(before, nodes) && MergedExcept(nodes, current)
        invariant forall j :: 0 <= j < |nodes| && nodes[j].IsLeaf() ==> nodes[j] == old(nodes)[j]
        decreases below
      {
        if below > 0 {
          ParentLinks(nodes, 0, |nodes|, INVALID_NODE, below);
        }
        ChildLinks(nodes, 0, |nodes|, INVALID_NODE, current);
        var left, right := nodes[current].left, nodes[current].right;
        assert MergedAt(before, current);
        MergeGrows(before, nodes, current);
        var box := Merge(nodes[left].box, nodes[right].box);
        BoxChange(nodes, current, box);
        ghost var was := nodes;
        nodes := nodes[current := nodes[current].(box := box)];
        SkipLayoutFrame(was, nodes, 0, |nodes|, INVALID_NODE);
        below := current;
        current := nodes[current].parent;
      }
    }

    /** The number of nodes from the leaf of a particle up to the root. */
    method Height(p: nat, ghost latest: seq<AABB>) returns (height: nat)
      requires p < |mapping| && (mapping[p] != INVALID_NODE ==> TreeOf(nodes, mapping, latest))
      ensures mapping[p] == INVALID_NODE ==> height == 0
      ensures mapping[p] != INVALID_NODE ==> mapping[p] < |nodes| && height == |Ancestors(nodes, mapping[p])|
    {
      if mapping[p] == INVALID_NODE {
        return 0;
      }
      LatestInLeaf(nodes, mapping, latest, p);
      height := 1;
      ghost var below: nat := mapping[p];
      var current := nodes[mapping[p]].parent;
      while current != INVALID_NODE
        invariant SkipLayout(nodes, 0, |nodes|, INVALID_NODE) && below < |nodes| && current == nodes[below].parent
        invariant height - 1 + |Ancestors(nodes, below)| == |Ancestors(nodes, mapping[p])|
        decreases below
      {
        if below > 0 {
          AncestorsStep(nodes, below);
        }
        below := current;
        current := nodes[current].parent;
        height := height + 1;
      }
      if below > 0 {
        AncestorsStep(nodes, below);
      }
      assert Ancestors(nodes, 0) == {0};
    }
  }
}
