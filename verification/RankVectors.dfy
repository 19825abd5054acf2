/**
One number per rank, and the linear step every directional exchange performs on it: each rank
adds what its sending neighbour holds. Opposite directions are adjoint to each other.
 */
module RankVectors {
  import opened Grid
  import opened Sequences

  type Vector = seq<real>

  /** The rank each rank receives from while all send towards `dir`. */
  function Senders(t: Decomposition, dir: Direction): (p: seq<nat>)
    requires t.Valid()
    ensures |p| == t.Ranks() && Within(p, |p|)
  {
    seq(t.Ranks(), r requires 0 <= r < t.Ranks() => t.NeighborRank(r, Opposite(dir)))
  }

  ghost predicate Within(p: seq<nat>, n: nat) {
    forall i :: 0 <= i < |p| ==> p[i] < n
  }

  /** The value of the sender, for every rank. */
  function Pull(x: Vector, p: seq<nat>): (y: Vector)
    requires |x| == |p| && Within(p, |x|)
    ensures |y| == |x|
  {
    seq(|x|, r requires 0 <= r < |x| => x[p[r]])
  }

  function Plus(x: Vector, y: Vector): (z: Vector)
    requires |x| == |y|
    ensures |z| == |x|
  {
    seq(|x|, r requires 0 <= r < |x| => x[r] + y[r])
  }

  /** Each rank adds the value of the rank it receives from, if the direction is taken. */
  function Step(t: Decomposition, x: Vector, dir: Direction, taken: bool): (y: Vector)
    requires t.Valid() && |x| == t.Ranks()
    ensures |y| == |x|
  {
    if taken then Plus(x, Pull(x, Senders(t, dir))) else x
  }

  function Sum(x: Vector): real {
    if x == [] then 0.0 else Sum(x[..|x| - 1]) + x[|x| - 1]
  }

  function Times(x: Vector, y: Vector): (z: Vector)
    requires |x| == |y|
    ensures |z| == |x|
  {
    seq(|x|, i requires 0 <= i < |x| => x[i] * y[i])
  }

  function Dot(x: Vector, y: Vector): real
    requires |x| == |y|
  {
    Sum(Times(x, y))
  }

  /** The vector that is one at a single rank. */
  function Unit(n: nat, rank: nat): (x: Vector)
    ensures |x| == n
  {
    seq(n, r => if r == rank then 1.0 else 0.0)
  }

  // ----- sums -------------------------------------------------------------------------------

  ghost function SumOn(s: set<nat>, x: Vector): real
    requires forall i :: i in s ==> i < |x|
  {
    if s == {} then 0.0
    else
      var i :| i in s;
      SumOn(s - {i}, x) + x[i]
  }

  lemma {:induction false} SumOnPick(s: set<nat>, x: Vector, i: nat)
    requires (forall j :: j in s ==> j < |x|) && i in s
    ensures SumOn(s, x) == SumOn(s - {i}, x) + x[i]
  {
    var j :| j in s && SumOn(s, x) == SumOn(s - {j}, x) + x[j];
    if j != i {
      SumOnPick(s - {j}, x, i);
      SumOnPick(s - {i}, x, j);
      assert s - {j} - {i} == s - {i} - {j};
    }
  }

  lemma {:induction false} SumOnPrefix(x: Vector, n: nat)
    requires n <= |x|
    ensures SumOn(Naturals(n), x) == Sum(x[..n])
  {
    if n > 0 {
      SumOnPick(Naturals(n), x, n - 1);
      assert Naturals(n) - {n - 1} == Naturals(n - 1);
      SumOnPrefix(x, n - 1);
      assert x[..n][..n - 1] == x[..n - 1];
    } else {
      assert Naturals(0) == {};
    }
  }

  lemma SumIsSumOn(x: Vector)
    ensures SumOn(Naturals(|x|), x) == Sum(x)
  {
    SumOnPrefix(x, |x|);
    assert x[..|x|] == x;
  }

  ghost predicate Inverse(p: seq<nat>, q: seq<nat>) {
    && |p| == |q| && Within(p, |p|) && Within(q, |p|)
    && (forall i :: 0 <= i < |p| ==> q[p[i]] == i)
    && (forall i :: 0 <= i < |p| ==> p[q[i]] == i)
  }

  /** A sum may be taken in the order of a permutation. */
  lemma {:induction false} SumOnImage(x: Vector, p: seq<nat>, q: seq<nat>, s: set<nat>, image: set<nat>)
    requires |x| == |p| && Inverse(p, q)
    requires forall r :: r in s ==> r < |x| && p[r] in image
    requires forall r :: r in image ==> r < |x| && q[r] in s
    ensures SumOn(s, Pull(x, p)) == SumOn(image, x)
    decreases |s|
  {
    if s == {} {
      assert image == {};
    } else {
      var r :| r in s;
      SumOnImage(x, p, q, s - {r}, image - {p[r]});
      SumOnPick(s, Pull(x, p), r);
      SumOnPick(image, x, p[r]);
    }
  }

  lemma SumPulled(x: Vector, p: seq<nat>, q: seq<nat>)
    requires |x| == |p| && Inverse(p, q)
    ensures Sum(Pull(x, p)) == Sum(x)
  {
    SumOnImage(x, p, q, Naturals(|x|), Naturals(|x|));
    SumIsSumOn(x);
    SumIsSumOn(Pull(x, p));
  }

  lemma {:induction false} SumAdds(x: Vector, y: Vector, z: Vector)
    requires |x| == |y| == |z| && forall i :: 0 <= i < |x| ==> z[i] == x[i] + y[i]
    ensures Sum(z) == Sum(x) + Sum(y)
  {
    if x != [] {
      var n := |x| - 1;
      SumAdds(x[..n], y[..n], z[..n]);
    }
  }

  lemma {:induction false} SumZero(x: Vector)
    requires forall i :: 0 <= i < |x| ==> x[i] == 0.0
    ensures Sum(x) == 0.0
  {
    if x != [] {
      SumZero(x[..|x| - 1]);
    }
  }

  /** The unit vector picks one component. */
  lemma {:induction false} DotUnit(x: Vector, rank: nat)
    requires rank < |x|
    ensures Dot(Unit(|x|, rank), x) == x[rank]
  {
    var z := Times(Unit(|x|, rank), x);
    SumIsSumOn(z);
    SumOnPick(Naturals(|x|), z, rank);
    SumOnZero(Naturals(|x|) - {rank}, z);
  }

  lemma {:induction false} SumOnZero(s: set<nat>, x: Vector)
    requires forall i :: i in s ==> i < |x| && x[i] == 0.0
    ensures SumOn(s, x) == 0.0
  {
    if s != {} {
      var i :| i in s;
      SumOnPick(s, x, i);
      SumOnZero(s - {i}, x);
    }
  }

  // ----- adjointness ------------------------------------------------------------------------

  /** Opposite directions have inverse senders. */
  lemma SendersInverse(t: Decomposition, dir: Direction)
    requires t.Valid()
    ensures Inverse(Senders(t, dir), Senders(t, Opposite(dir)))
  {
    forall r | 0 <= r < t.Ranks()
      ensures Senders(t, Opposite(dir))[Senders(t, dir)[r]] == r && Senders(t, dir)[Senders(t, Opposite(dir))[r]] == r
    {
      assert Opposite(Opposite(dir)) == dir;
      NeighborOpposite(t, r, Opposite(dir));
      NeighborOpposite(t, r, dir);
    }
  }

  /** Moving values one way weighs the same as moving the weights the other way. */
  lemma PullAdjoint(x: Vector, y: Vector, p: seq<nat>, q: seq<nat>)
    requires |x| == |y| == |p| && Inverse(p, q)
    ensures Dot(Pull(x, p), y) == Dot(x, Pull(y, q))
  {
    var back := Times(x, Pull(y, q));
    forall r | 0 <= r < |x| ensures Pull(back, p)[r] == Times(Pull(x, p), y)[r] {
      assert q[p[r]] == r;
    }
    assert Pull(back, p) == Times(Pull(x, p), y);
    SumPulled(back, p, q);
  }

  lemma DotPlus(x: Vector, x': Vector, y: Vector)
    requires |x| == |x'| == |y|
    ensures Dot(Plus(x, x'), y) == Dot(x, y) + Dot(x', y)
    ensures Dot(y, Plus(x, x')) == Dot(y, x) + Dot(y, x')
  {
    forall i | 0 <= i < |x|
      ensures Times(Plus(x, x'), y)[i] == Times(x, y)[i] + Times(x', y)[i]
      ensures Times(y, Plus(x, x'))[i] == Times(y, x)[i] + Times(y, x')[i]
    {
      Distribute(x[i], x'[i], y[i]);
    }
    SumAdds(Times(x, y), Times(x', y), Times(Plus(x, x'), y));
    SumAdds(Times(y, x), Times(y, x'), Times(y, Plus(x, x')));
  }

  lemma Distribute(a: real, b: real, c: real)
    ensures (a + b) * c == a * c + b * c && c * (a + b) == c * a + c * b
  {
  }

  lemma StepAdjoint(t: Decomposition, x: Vector, y: Vector, dir: Direction, taken: bool)
    requires t.Valid() && |x| == |y| == t.Ranks()
    ensures Dot(Step(t, x, dir, taken), y) == Dot(x, Step(t, y, Opposite(dir), taken))
  {
    if taken {
      var p, q := Senders(t, dir), Senders(t, Opposite(dir));
      SendersInverse(t, dir);
      PullAdjoint(x, y, p, q);
      DotPlus(x, Pull(x, p), y);
      DotPlus(y, Pull(y, q), x);
    }
  }

  lemma SendersCommute(t: Decomposition, a: Direction, b: Direction, r: nat)
    requires t.Valid() && r < t.Ranks() && a / 2 != b / 2
    ensures Senders(t, a)[Senders(t, b)[r]] == Senders(t, b)[Senders(t, a)[r]]
  {
    NeighborsCommute(t, r, Opposite(a), Opposite(b));
  }

  /** Steps along different axes commute. */
  lemma StepsCommute(t: Decomposition, x: Vector, a: Direction, ta: bool, b: Direction, tb: bool)
    requires t.Valid() && |x| == t.Ranks() && a / 2 != b / 2
    ensures Step(t, Step(t, x, a, ta), b, tb) == Step(t, Step(t, x, b, tb), a, ta)
  {
    if ta && tb {
      var p, q := Senders(t, a), Senders(t, b);
      var one, other := Plus(x, Pull(x, p)), Plus(x, Pull(x, q));
      forall r | 0 <= r < |x| ensures Plus(one, Pull(one, q))[r] == Plus(other, Pull(other, p))[r] {
        SendersCommute(t, a, b, r);
      }
      assert Plus(one, Pull(one, q)) == Plus(other, Pull(other, p));
    }
  }

  /** Both directions of an axis, the even one first. */
  function AxisSteps(t: Decomposition, x: Vector, axis: nat, even: bool, odd: bool): (y: Vector)
    requires t.Valid() && |x| == t.Ranks() && axis < 3
    ensures |y| == |x|
  {
    Step(t, Step(t, x, 2 * axis, even), 2 * axis + 1, odd)
  }

  lemma AxesCommute(t: Decomposition, x: Vector, a: nat, ea: bool, oa: bool, b: nat, eb: bool, ob: bool)
    requires t.Valid() && |x| == t.Ranks() && a < 3 && b < 3 && a != b
    ensures AxisSteps(t, AxisSteps(t, x, a, ea, oa), b, eb, ob) == AxisSteps(t, AxisSteps(t, x, b, eb, ob), a, ea, oa)
  {
    var (a0, a1, b0, b1) := (2 * a, 2 * a + 1, 2 * b, 2 * b + 1);
    var xa, xb := Step(t, x, a0, ea), Step(t, x, b0, eb);
    var xab := Step(t, xb, a0, ea);
    calc {
      Step(t, Step(t, Step(t, xa, a1, oa), b0, eb), b1, ob);
      { StepsCommute(t, xa, a1, oa, b0, eb); }
      Step(t, Step(t, Step(t, xa, b0, eb), a1, oa), b1, ob);
      { StepsCommute(t, x, a0, ea, b0, eb); }
      Step(t, Step(t, xab, a1, oa), b1, ob);
      { StepsCommute(t, xab, a1, oa, b1, ob); }
      Step(t, Step(t, xab, b1, ob), a1, oa);
      { StepsCommute(t, xb, a0, ea, b1, ob); }
      Step(t, Step(t, Step(t, xb, b1, ob), a0, ea), a1, oa);
    }
  }

  /** All six directions in order; `taken` says which ones apply. */
  function AllSteps(t: Decomposition, x: Vector, taken: set<Direction>, k: nat): (y: Vector)
    requires t.Valid() && |x| == t.Ranks() && k <= DIRECTIONS
    ensures |y| == |x|
  {
    if k == 0 then x else Step(t, AllSteps(t, x, taken, k - 1), k - 1, k - 1 in taken)
  }

  lemma AllStepsByAxis(t: Decomposition, x: Vector, taken: set<Direction>)
    requires t.Valid() && |x| == t.Ranks()
    ensures AllSteps(t, x, taken, DIRECTIONS)
            == AxisSteps(t, AxisSteps(t, AxisSteps(t, x, 0, 0 in taken, 1 in taken),
                                      1, 2 in taken, 3 in taken), 2, 4 in taken, 5 in taken)
  {
    assert AllSteps(t, x, taken, 0) == x;
    AllStepsAxis(t, x, taken, 0);
    AllStepsAxis(t, x, taken, 1);
    AllStepsAxis(t, x, taken, 2);
  }

  lemma AllStepsAxis(t: Decomposition, x: Vector, taken: set<Direction>, axis: nat)
    requires t.Valid() && |x| == t.Ranks() && axis < 3
    ensures AllSteps(t, x, taken, 2 * axis + 2)
            == AxisSteps(t, AllSteps(t, x, taken, 2 * axis), axis, 2 * axis in taken, 2 * axis + 1 in taken)
  {
    var k := 2 * axis;
    assert AllSteps(t, x, taken, k + 1) == Step(t, AllSteps(t, x, taken, k), k, k in taken);
    assert AllSteps(t, x, taken, k + 2) == Step(t, AllSteps(t, x, taken, k + 1), k + 1, k + 1 in taken);
  }

  lemma AxisAdjoint(t: Decomposition, x: Vector, y: Vector, axis: nat, even: bool, odd: bool)
    requires t.Valid() && |x| == |y| == t.Ranks() && axis < 3
    ensures Dot(x, AxisSteps(t, y, axis, even, odd)) == Dot(AxisSteps(t, x, axis, odd, even), y)
  {
    var y1 := Step(t, y, 2 * axis, even);
    var x1 := Step(t, x, 2 * axis, odd);
    assert Opposite(2 * axis) == 2 * axis + 1 && Opposite(2 * axis + 1) == 2 * axis;
    StepAdjoint(t, x, y1, 2 * axis, odd);
    StepAdjoint(t, x1, y, 2 * axis + 1, even);
  }

  function Inverted(taken: set<Direction>): set<Direction> {
    set d: Direction | d in {0, 1, 2, 3, 4, 5} && Opposite(d) in taken
  }

  /**
  Six directions along inverted plans are adjoint to six directions along the plans, although
  both run through the directions in the same order.
   */
  lemma AllStepsAdjoint(t: Decomposition, x: Vector, y: Vector, taken: set<Direction>)
    requires t.Valid() && |x| == |y| == t.Ranks()
    ensures Dot(x, AllSteps(t, y, Inverted(taken), DIRECTIONS)) == Dot(AllSteps(t, x, taken, DIRECTIONS), y)
  {
    var (b0, b1, b2) := (0 in taken, 1 in taken, 2 in taken);
    var (b3, b4, b5) := (3 in taken, 4 in taken, 5 in taken);
    AllStepsByAxis(t, y, Inverted(taken));
    AllStepsByAxis(t, x, taken);
    var y1 := AxisSteps(t, y, 0, b1, b0);
    var y2 := AxisSteps(t, y1, 1, b3, b2);
    AxisAdjoint(t, x, y2, 2, b5, b4);
    var x1 := AxisSteps(t, x, 2, b4, b5);
    AxisAdjoint(t, x1, y1, 1, b3, b2);
    var x2 := AxisSteps(t, x1, 1, b2, b3);
    AxisAdjoint(t, x2, y, 0, b1, b0);
    ReverseAxes(t, x, b0, b1, b2, b3, b4, b5);
  }

  lemma ReverseAxes(t: Decomposition, x: Vector, b0: bool, b1: bool, b2: bool, b3: bool, b4: bool, b5: bool)
    requires t.Valid() && |x| == t.Ranks()
    ensures AxisSteps(t, AxisSteps(t, AxisSteps(t, x, 2, b4, b5), 1, b2, b3), 0, b0, b1)
            == AxisSteps(t, AxisSteps(t, AxisSteps(t, x, 0, b0, b1), 1, b2, b3), 2, b4, b5)
  {
    AxesCommute(t, AxisSteps(t, x, 2, b4, b5), 1, b2, b3, 0, b0, b1);
    AxesCommute(t, x, 2, b4, b5, 0, b0, b1);
    AxesCommute(t, AxisSteps(t, x, 0, b0, b1), 2, b4, b5, 1, b2, b3);
  }
}
