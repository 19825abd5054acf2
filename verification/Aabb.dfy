/** Axis-aligned bounding boxes. */
module Aabb {
  import opened BoxDim

  datatype AABB = AABB(lower: Vec, upper: Vec, tag: nat) {
    function Position(): Vec {
      Vec((lower.x + upper.x) / 2.0, (lower.y + upper.y) / 2.0, (lower.z + upper.z) / 2.0)
    }
  }

  predicate Overlap(a: AABB, b: AABB) {
    !(b.upper.x < a.lower.x || b.lower.x > a.upper.x || b.upper.y < a.lower.y
      || b.lower.y > a.upper.y || b.upper.z < a.lower.z || b.lower.z > a.upper.z)
  }

  /** A point between the corners of a box, faces included. */
  predicate Encloses(a: AABB, v: Vec) {
    a.lower.x <= v.x <= a.upper.x && a.lower.y <= v.y <= a.upper.y && a.lower.z <= v.z <= a.upper.z
  }

  /** The lower corner is below the upper one. */
  predicate Proper(a: AABB) {
    a.lower.x <= a.upper.x && a.lower.y <= a.upper.y && a.lower.z <= a.upper.z
  }

  /** Two boxes have a point in common. */
  ghost predicate Meet(a: AABB, b: AABB) {
    exists v :: Encloses(a, v) && Encloses(b, v)
  }

  /** Boxes with a common point overlap, and proper boxes overlap only if they have one. */
  lemma OverlapIsMeeting(a: AABB, b: AABB)
    ensures Meet(a, b) ==> Overlap(a, b)
    ensures Proper(a) && Proper(b) ==> (Overlap(a, b) <==> Meet(a, b))
  {
    if Proper(a) && Proper(b) && Overlap(a, b) {
      var v := Vec(Max(a.lower.x, b.lower.x), Max(a.lower.y, b.lower.y), Max(a.lower.z, b.lower.z));
      assert Encloses(a, v) && Encloses(b, v);
    }
  }

  /** The centre is as far from the lower corner as from the upper one. */
  lemma PositionIsCentre(a: AABB)
    ensures var c := a.Position();
      c.x - a.lower.x == a.upper.x - c.x && c.y - a.lower.y == a.upper.y - c.y && c.z - a.lower.z == a.upper.z - c.z
    ensures Proper(a) ==> Encloses(a, a.Position())
  {
  }

  /** Containing a box is enclosing all its points. */
  lemma ContainsIsEnclosing(a: AABB, b: AABB)
    ensures Contains(a, b) ==> forall v :: Encloses(b, v) ==> Encloses(a, v)
    ensures Proper(b) ==> (Contains(a, b) <==> forall v :: Encloses(b, v) ==> Encloses(a, v))
  {
    if Proper(b) && forall v :: Encloses(b, v) ==> Encloses(a, v) {
      assert Encloses(b, b.lower) && Encloses(b, b.upper);
    }
  }

  predicate Contains(a: AABB, b: AABB) {
    b.lower.x >= a.lower.x && b.upper.x <= a.upper.x && b.lower.y >= a.lower.y
    && b.upper.y <= a.upper.y && b.lower.z >= a.lower.z && b.upper.z <= a.upper.z
  }

  function Min(a: real, b: real): real {
    if b < a then b else a
  }

  function Max(a: real, b: real): real {
    if a < b then b else a
  }

  /** The tag of a merged box is reset. */
  function Merge(a: AABB, b: AABB): AABB {
    AABB(Vec(Min(a.lower.x, b.lower.x), Min(a.lower.y, b.lower.y), Min(a.lower.z, b.lower.z)),
         Vec(Max(a.upper.x, b.upper.x), Max(a.upper.y, b.upper.y), Max(a.upper.z, b.upper.z)), 0)
  }

  predicate SameCorners(a: AABB, b: AABB) {
    a.lower == b.lower && a.upper == b.upper
  }

  ghost predicate Covers(box: AABB, boxes: seq<AABB>, members: set<nat>) {
    forall p :: p in members ==> p < |boxes| && Contains(box, boxes[p])
  }

  /** A box is the hull of the boxes with the given indices: the least box that contains them all. */
  ghost predicate IsHull(boxes: seq<AABB>, members: set<nat>, hull: AABB) {
    Covers(hull, boxes, members) && forall b :: Covers(b, boxes, members) ==> Contains(b, hull)
  }

  lemma HullOfOne(boxes: seq<AABB>, p: nat)
    requires p < |boxes|
    ensures IsHull(boxes, {p}, boxes[p])
  {
    forall b | Covers(b, boxes, {p}) ensures Contains(b, boxes[p]) {
      assert p in {p};
    }
  }

  /** Merging hulls gives the hull of the union. */
  lemma MergeIsHull(boxes: seq<AABB>, a: set<nat>, b: set<nat>, ha: AABB, hb: AABB)
    requires IsHull(boxes, a, ha) && IsHull(boxes, b, hb)
    ensures IsHull(boxes, a + b, Merge(ha, hb))
  {
    forall c: AABB | Covers(c, boxes, a + b) ensures Contains(c, Merge(ha, hb)) {
      assert Covers(c, boxes, a) && Covers(c, boxes, b);
    }
  }

  /** There is only one hull, up to its tag. */
  lemma HullUnique(boxes: seq<AABB>, members: set<nat>, a: AABB, b: AABB)
    requires IsHull(boxes, members, a) && IsHull(boxes, members, b)
    ensures SameCorners(a, b)
  {
    assert Contains(a, b) && Contains(b, a);
  }
}
