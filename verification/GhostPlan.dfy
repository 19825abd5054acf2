/**
Plans marked by position. A particle is sent across every face of its domain that is closer than
the ghost layer of its type; the box size check compares the widest ghost layer with half the
domain.
 */
module GhostPlan {
  import opened Grid
  import opened BoxDim
  import opened GhostExchange

  /** Particles whose body index is below this value belong to a rigid body. */
  const MIN_FLOPPY: nat := 0x80000000

  datatype Particle = Particle(position: Vec, kind: nat, body: nat)

  /** The largest value that any of the first `n` requests names for a type, at least zero. */
  function Widest(requests: seq<seq<real>>, kind: nat, n: nat): (w: real)
    requires n <= |requests| && forall i :: 0 <= i < |requests| ==> kind < |requests[i]|
    ensures w >= 0.0
  {
    if n == 0 then 0.0
    else
      var w := Widest(requests, kind, n - 1);
      if requests[n - 1][kind] > w then requests[n - 1][kind] else w
  }

  lemma {:induction false} WidestCoversRequests(requests: seq<seq<real>>, kind: nat, n: nat, i: nat)
    requires i < n <= |requests| && forall j :: 0 <= j < |requests| ==> kind < |requests[j]|
    ensures requests[i][kind] <= Widest(requests, kind, n)
  {
    if i < n - 1 {
      WidestCoversRequests(requests, kind, n - 1, i);
    }
  }

  /** The width of a type is zero or one that is requested for it. */
  lemma {:induction false} WidestIsRequested(requests: seq<seq<real>>, kind: nat, n: nat)
    requires n <= |requests| && forall j :: 0 <= j < |requests| ==> kind < |requests[j]|
    ensures Widest(requests, kind, n) == 0.0 || exists i :: 0 <= i < n && requests[i][kind] == Widest(requests, kind, n)
  {
    if n > 0 {
      WidestIsRequested(requests, kind, n - 1);
    }
  }

  /** The ghost layer of a particle in fractions of the domain; `dist` are the plane distances. */
  function GhostFraction(widths: seq<real>, bodyWidths: seq<real>, dist: Vec, p: Particle): Vec
    requires p.kind < |widths| && p.kind < |bodyWidths| && dist.x > 0.0 && dist.y > 0.0 && dist.z > 0.0
  {
    var (w, b) := (widths[p.kind], if p.body < MIN_FLOPPY then bodyWidths[p.kind] else 0.0);
    Vec(w / dist.x + b / dist.x, w / dist.y + b / dist.y, w / dist.z + b / dist.z)
  }

  /** The directions in which a particle at fraction `f` of its domain is a ghost. */
  function PositionPlan(f: Vec, g: Vec): Plan {
    (if f.x >= 1.0 - g.x then {0 as Direction} else {}) + (if f.x < g.x then {1} else {})
    + (if f.y >= 1.0 - g.y then {2} else {}) + (if f.y < g.y then {3} else {})
    + (if f.z >= 1.0 - g.z then {4} else {}) + (if f.z < g.z then {5} else {})
  }

  /** The size of a vector along the axis of a direction. */
  function Along(v: Vec, dir: Direction): real {
    if dir < 2 then v.x else if dir < 4 then v.y else v.z
  }

  /** The box size check: no ghost layer reaches half the domain where there are several domains. */
  predicate BoxLargeEnough(t: Decomposition, width: real, dist: Vec) {
    !((width >= dist.x / 2.0 && t.grid.w > 1) || (width >= dist.y / 2.0 && t.grid.h > 1)
      || (width >= dist.z / 2.0 && t.grid.d > 1))
  }

  /** Positions never mark opposite directions exactly if the layer covers at most half the domain. */
  lemma OppositesIffWide(t: Decomposition, g: Vec)
    requires t.Valid()
    ensures NeverOpposite(t, g)
       <==> forall d: Direction :: t.IsCommunicating(d) ==> Along(g, d) <= 0.5
  {
    if d: Direction :| t.IsCommunicating(d) && Along(g, d) > 0.5 {
      WideMarksBoth(t, g, d);
    }
    forall f | forall d: Direction :: t.IsCommunicating(d) ==> Along(g, d) <= 0.5
      ensures NoOpposites(Active(t, PositionPlan(f, g)))
    {
      forall d | d in Active(t, PositionPlan(f, g)) ensures Opposite(d) !in Active(t, PositionPlan(f, g)) {
        NarrowMarksOne(f, g, d);
      }
    }
  }

  lemma WideMarksBoth(t: Decomposition, g: Vec, d: Direction)
    requires t.IsCommunicating(d) && Along(g, d) > 0.5
    ensures !NoOpposites(Active(t, PositionPlan(Vec(0.5, 0.5, 0.5), g)))
  {
    var plan := Active(t, PositionPlan(Vec(0.5, 0.5, 0.5), g));
    assert d in plan && Opposite(d) in plan;
  }

  lemma NarrowMarksOne(f: Vec, g: Vec, d: Direction)
    requires Along(g, d) <= 0.5
    ensures !(d in PositionPlan(f, g) && Opposite(d) in PositionPlan(f, g))
  {
  }

  /** With a layer of this width, no position marks opposite directions. */
  ghost predicate IsSafe(t: Decomposition, width: real, dist: Vec)
    requires dist.x > 0.0 && dist.y > 0.0 && dist.z > 0.0
  {
    NeverOpposite(t, Vec(width / dist.x, width / dist.y, width / dist.z))
  }

  ghost predicate NeverOpposite(t: Decomposition, g: Vec) {
    forall f :: NoOpposites(Active(t, PositionPlan(f, g)))
  }

  /** The check passes for exactly those widths that leave room: if and only if some wider layer is still safe. */
  lemma CheckIsExact(t: Decomposition, width: real, dist: Vec)
    requires t.Valid() && dist.x > 0.0 && dist.y > 0.0 && dist.z > 0.0
    ensures BoxLargeEnough(t, width, dist) <==> exists wider :: wider > width && IsSafe(t, wider, dist)
  {
    if wider :| wider > width && IsSafe(t, wider, dist) {
      SafeIffHalf(t, wider, dist);
    }
    if BoxLargeEnough(t, width, dist) {
      var x := if t.grid.w > 1 then dist.x / 2.0 else width + 1.0;
      var y := if t.grid.h > 1 then dist.y / 2.0 else width + 1.0;
      var z := if t.grid.d > 1 then dist.z / 2.0 else width + 1.0;
      var least := if x <= y && x <= z then x else if y <= z then y else z;
      SafeIffHalf(t, least, dist);
    }
  }

  lemma SafeIffHalf(t: Decomposition, width: real, dist: Vec)
    requires t.Valid() && dist.x > 0.0 && dist.y > 0.0 && dist.z > 0.0
    ensures IsSafe(t, width, dist)
       <==> (t.grid.w > 1 ==> width <= dist.x / 2.0) && (t.grid.h > 1 ==> width <= dist.y / 2.0) && (t.grid.d > 1 ==> width <= dist.z / 2.0)
  {
    var g := Vec(width / dist.x, width / dist.y, width / dist.z);
    OppositesIffWide(t, g);
    HalfOf(width, dist.x);
    HalfOf(width, dist.y);
    HalfOf(width, dist.z);
    if forall d: Direction :: t.IsCommunicating(d) ==> Along(g, d) <= 0.5 {
      assert Along(g, 0) == g.x && Along(g, 2) == g.y && Along(g, 4) == g.z;
    }
  }

  lemma HalfOf(width: real, dist: real)
    requires dist > 0.0
    ensures width / dist <= 0.5 <==> width <= dist / 2.0
  {
    var q := width / dist;
    assert q * dist == width;
    if q <= 0.5 {
      assert (0.5 - q) * dist >= 0.0;
    } else {
      assert (q - 0.5) * dist > 0.0;
    }
  }

  lemma QuotientBound(w: real, b: real, max: real, dist: real)
    requires dist > 0.0 && w + b <= max < dist / 2.0
    ensures w / dist + b / dist < 0.5
  {
    assert w / dist + b / dist == (w + b) / dist;
    assert (w + b) / dist * dist < 0.5 * dist;
  }

  /** Where the check passed on widths no smaller than those in use, plans have no opposite directions. */
  lemma CheckedPlansHaveNoOpposites(t: Decomposition, widths: seq<real>, bodyWidths: seq<real>, checked: real, dist: Vec,
                                    p: Particle, f: Vec)
    requires t.Valid() && p.kind < |widths| && p.kind < |bodyWidths| && dist.x > 0.0 && dist.y > 0.0 && dist.z > 0.0
    requires bodyWidths[p.kind] >= 0.0 && widths[p.kind] + bodyWidths[p.kind] <= checked && BoxLargeEnough(t, checked, dist)
    ensures NoOpposites(Active(t, PositionPlan(f, GhostFraction(widths, bodyWidths, dist, p))))
  {
    var g := GhostFraction(widths, bodyWidths, dist, p);
    var b := if p.body < MIN_FLOPPY then bodyWidths[p.kind] else 0.0;
    forall d: Direction | t.IsCommunicating(d) ensures Along(g, d) <= 0.5 {
      QuotientBound(widths[p.kind], b, checked, Along(dist, d));
    }
    OppositesIffWide(t, g);
  }

  /**
  Ghosts marked by position in the local box of their owner: a particle whose widths passed the box
  size check ends up exactly once on every rank its plan leads to, and nowhere else, whatever boxes
  the receivers wrap with.
   */
  lemma MarkedGhostsDeliveredOnce(s: Setting, memory: Payload, world: World, tag: Tag, owner: nat, rank: nat, local: Box,
                                  widths: seq<real>, bodyWidths: seq<real>, checked: real, dist: Vec, p: Particle)
    requires s.Valid() && rank < |world| == s.torus.Ranks() && owner < |world| && local.NonDegenerate()
    requires p.kind < |widths| && p.kind < |bodyWidths| && dist.x > 0.0 && dist.y > 0.0 && dist.z > 0.0
    requires bodyWidths[p.kind] >= 0.0 && widths[p.kind] + bodyWidths[p.kind] <= checked
    requires BoxLargeEnough(s.torus, checked, dist)
    requires OwnedOnce(world, tag, owner, PositionPlan(local.MakeFraction(p.position), GhostFraction(widths, bodyWidths, dist, p)))
    ensures var plan := PositionPlan(local.MakeFraction(p.position), GhostFraction(widths, bodyWidths, dist, p));
      && Copies(Exchange(s, memory, world, DIRECTIONS)[rank], tag) == (if Reached(s.torus, plan, owner, rank) then 1 else 0)
      && Copies(Exchange(s, memory, world, DIRECTIONS)[owner], tag) == 1
  {
    var f := local.MakeFraction(p.position);
    CheckedPlansHaveNoOpposites(s.torus, widths, bodyWidths, checked, dist, p, f);
    GhostsDeliveredExactlyOnce(s, memory, world, tag, owner,
                               PositionPlan(f, GhostFraction(widths, bodyWidths, dist, p)), rank);
  }

  /** A request names a width for every type. */
  ghost predicate AreRequests(requests: seq<seq<real>>, kinds: nat) {
    forall i :: 0 <= i < |requests| ==> |requests[i]| == kinds
  }

  /** What collecting requests leaves: a width per type and their maximum; without requests that of before. */
  ghost predicate Collected(kinds: nat, requests: seq<seq<real>>, perKind: seq<real>, top: real, before: real) {
    && AreRequests(requests, kinds) && |perKind| == kinds
    && (forall k :: 0 <= k < kinds ==> perKind[k] == Widest(requests, k, |requests|))
    && (if requests == [] then top == before else top == 0.0 || top in perKind)
  }

  /** Collecting the same requests again does not raise the maximum. */
  lemma CollectedAgain(kinds: nat, requests: seq<seq<real>>, a: seq<real>, topA: real, before: real, b: seq<real>, topB: real)
    requires Collected(kinds, requests, a, topA, before) && Collected(kinds, requests, b, topB, topA)
    requires topA >= 0.0 && forall k :: 0 <= k < |a| ==> a[k] <= topA
    ensures topB <= topA
  {
    assert a == b;
  }

  /** The ghost layer widths of one rank. */
  class GhostLayers {
    var widths: seq<real>
    var bodyWidths: seq<real>
    var widest: real
    var widestBody: real

    /** The recorded maxima bound the widths of all types. */
    ghost predicate Valid()
      reads this
    {
      && |widths| == |bodyWidths| && widest >= 0.0 && widestBody >= 0.0
      && forall k :: 0 <= k < |widths| ==> 0.0 <= widths[k] <= widest && 0.0 <= bodyWidths[k] <= widestBody
    }

    constructor ()
      ensures Valid() && widths == [] && widest == 0.0 && widestBody == 0.0
    {
      widths, bodyWidths, widest, widestBody := [], [], 0.0, 0.0;
    }

    /** The widest request per type, and the widest of all types. */
    static method Reduce(kinds: nat, requests: seq<seq<real>>) returns (perKind: seq<real>, overall: real)
      requires AreRequests(requests, kinds)
      ensures |perKind| == kinds && forall k :: 0 <= k < kinds ==> perKind[k] == Widest(requests, k, |requests|)
      ensures overall >= 0.0 && forall k :: 0 <= k < kinds ==> perKind[k] <= overall
      ensures overall == 0.0 || overall in perKind
    {
      perKind, overall := [], 0.0;
      for k := 0 to kinds
        invariant |perKind| == k && forall j :: 0 <= j < k ==> perKind[j] == Widest(requests, j, |requests|)
        invariant overall >= 0.0 && forall j :: 0 <= j < k ==> perKind[j] <= overall
        invariant overall == 0.0 || overall in perKind
      {
        var w := 0.0;
        for i := 0 to |requests|
          invariant w == Widest(requests, k, i)
        {
          if requests[i][k] > w {
            w := requests[i][k];
          }
        }
        perKind := perKind + [w];
        if w > overall {
          overall := w;
        }
      }
    }

    /** Collect the requests; without any, widths are zero but the last maximum stays. */
    method UpdateGhostWidth(kinds: nat, requests: seq<seq<real>>, extra: seq<seq<real>>)
      requires Valid()
      requires AreRequests(requests, kinds) && AreRequests(extra, kinds)
      modifies this
      ensures Valid() && Collected(kinds, requests, widths, widest, old(widest))
      ensures Collected(kinds, extra, bodyWidths, widestBody, old(widestBody))
    {
      widths, bodyWidths := seq(kinds, _ => 0.0), seq(kinds, _ => 0.0);
      if |requests| != 0 {
        widths, widest := Reduce(kinds, requests);
      }
      if |extra| != 0 {
        bodyWidths, widestBody := Reduce(kinds, extra);
      }
    }

    /** Passing the check protects every type and every position, as long as the widths stay. */
    method CheckBoxSize(t: Decomposition, dist: Vec) returns (ok: bool)
      requires Valid() && t.Valid() && dist.x > 0.0 && dist.y > 0.0 && dist.z > 0.0
      ensures ok == BoxLargeEnough(t, widest + widestBody, dist)
      ensures ok <==> exists wider :: wider > widest + widestBody && IsSafe(t, wider, dist)
      ensures ok ==> forall p: Particle, f: Vec :: p.kind < |widths| ==>
        NoOpposites(Active(t, PositionPlan(f, GhostFraction(widths, bodyWidths, dist, p))))
    {
      ok := BoxLargeEnough(t, widest + widestBody, dist);
      CheckIsExact(t, widest + widestBody, dist);
      if ok {
        forall p: Particle, f: Vec | p.kind < |widths|
          ensures NoOpposites(Active(t, PositionPlan(f, GhostFraction(widths, bodyWidths, dist, p))))
        {
          CheckedPlansHaveNoOpposites(t, widths, bodyWidths, widest + widestBody, dist, p, f);
        }
      }
    }

    /** Mark all local particles. */
    method MarkPlans(box: Box, dist: Vec, particles: seq<Particle>) returns (plans: seq<Plan>)
      requires box.NonDegenerate() && dist.x > 0.0 && dist.y > 0.0 && dist.z > 0.0 && |widths| == |bodyWidths|
      requires forall i :: 0 <= i < |particles| ==> particles[i].kind < |widths|
      ensures |plans| == |particles|
      ensures forall i :: 0 <= i < |particles| ==>
        plans[i] == PositionPlan(box.MakeFraction(particles[i].position), GhostFraction(widths, bodyWidths, dist, particles[i]))
    {
      plans := [];
      for i := 0 to |particles|
        invariant |plans| == i
        invariant forall j :: 0 <= j < i ==>
          plans[j] == PositionPlan(box.MakeFraction(particles[j].position), GhostFraction(widths, bodyWidths, dist, particles[j]))
      {
        var plan := Mark(box.MakeFraction(particles[i].position), GhostFraction(widths, bodyWidths, dist, particles[i]));
        plans := plans + [plan];
      }
    }

    /** Mark one particle at fraction `f` with a ghost layer `g`. */
    static method Mark(f: Vec, g: Vec) returns (plan: Plan)
      ensures plan == PositionPlan(f, g)
    {
      plan := {};
      if f.x >= 1.0 - g.x {
        plan := plan + {0};
      }
      if f.x < g.x {
        plan := plan + {1};
      }
      if f.y >= 1.0 - g.y {
        plan := plan + {2};
      }
      if f.y < g.y {
        plan := plan + {3};
      }
      if f.z >= 1.0 - g.z {
        plan := plan + {4};
      }
      if f.z < g.z {
        plan := plan + {5};
      }
    }

    /**
    How an exchange plans its ghosts: the box is checked with the maxima recorded last, then the requests
    are collected, then particles are marked. The check protects the plans if the maxima have not grown.
     */
    method PlanGhosts(t: Decomposition, box: Box, dist: Vec, particles: seq<Particle>, kinds: nat, requests: seq<seq<real>>,
                      extra: seq<seq<real>>)
      returns (ok: bool, plans: seq<Plan>)
      requires Valid() && t.Valid() && box.NonDegenerate() && dist.x > 0.0 && dist.y > 0.0 && dist.z > 0.0
      requires AreRequests(requests, kinds) && AreRequests(extra, kinds)
      requires forall i :: 0 <= i < |particles| ==> particles[i].kind < kinds
      modifies this
      ensures Valid()
      ensures ok == BoxLargeEnough(t, old(widest) + old(widestBody), dist)
      ensures ok ==> Collected(kinds, requests, widths, widest, old(widest)) && Collected(kinds, extra, bodyWidths, widestBody, old(widestBody))
      ensures ok ==> |plans| == |particles|
      ensures ok ==> forall i :: 0 <= i < |particles| ==>
        plans[i] == PositionPlan(box.MakeFraction(particles[i].position), GhostFraction(widths, bodyWidths, dist, particles[i]))
      ensures ok && widest + widestBody <= old(widest) + old(widestBody) ==>
        forall i :: 0 <= i < |plans| ==> NoOpposites(Active(t, plans[i]))
    {
      plans := [];
      ok := CheckBoxSize(t, dist);
      if !ok {
        return;
      }
      ghost var checked := widest + widestBody;
      UpdateGhostWidth(kinds, requests, extra);
      plans := MarkPlans(box, dist, particles);
      if widest + widestBody <= checked {
        forall i | 0 <= i < |plans| ensures NoOpposites(Active(t, plans[i])) {
          CheckedPlansHaveNoOpposites(t, widths, bodyWidths, checked, dist, particles[i], box.MakeFraction(particles[i].position));
        }
      }
    }

    /**
    A whole communication: the migration collects the requests and checks the box, then the exchange plans
    its ghosts. If the requests are the same both times, plans have no opposite directions.
     */
    method Communicate(t: Decomposition, box: Box, dist: Vec, particles: seq<Particle>, kinds: nat,
                       first: seq<seq<real>>, firstExtra: seq<seq<real>>, second: seq<seq<real>>, secondExtra: seq<seq<real>>)
      returns (ok: bool, plans: seq<Plan>)
      requires Valid() && t.Valid() && box.NonDegenerate() && dist.x > 0.0 && dist.y > 0.0 && dist.z > 0.0
      requires AreRequests(first, kinds) && AreRequests(firstExtra, kinds)
      requires AreRequests(second, kinds) && AreRequests(secondExtra, kinds)
      requires forall i :: 0 <= i < |particles| ==> particles[i].kind < kinds
      modifies this
      ensures Valid() && (ok ==> |plans| == |particles|)
      ensures ok && second == first && secondExtra == firstExtra ==> forall i :: 0 <= i < |plans| ==> NoOpposites(Active(t, plans[i]))
    {
      plans := [];
      UpdateGhostWidth(kinds, first, firstExtra);
      ok := CheckBoxSize(t, dist);
      ghost var (a, b, topA, topB) := (widths, bodyWidths, widest, widestBody);
      if ok {
        ok, plans := PlanGhosts(t, box, dist, particles, kinds, second, secondExtra);
        if ok && second == first && secondExtra == firstExtra {
          CollectedAgain(kinds, first, a, topA, old(widest), widths, widest);
          CollectedAgain(kinds, firstExtra, b, topB, old(widestBody), bodyWidths, widestBody);
        }
      }
    }
  }

  /**
  A request that changes between the migration and the exchange is not checked: with a width of 0.25 the
  migration finds the box large enough, the exchange checks that width again, collects 0.75, and marks a
  particle in the middle of its domain both ways.
   */
  method StaleCheckPasses(t: Decomposition, box: Box) returns (ok: bool, plans: seq<Plan>)
    requires t.Valid() && t.grid.w > 1 && box.lo == Vec(0.0, 0.0, 0.0) && box.hi == Vec(1.0, 1.0, 1.0) && box.xy == box.xz == box.yz == 0.0
    ensures ok && |plans| == 1 && !NoOpposites(Active(t, plans[0]))
  {
    var layers := new GhostLayers();
    var (dist, p) := (Vec(1.0, 1.0, 1.0), Particle(Vec(0.5, 0.5, 0.5), 0, MIN_FLOPPY));
    layers.UpdateGhostWidth(1, [[0.25]], []);
    NarrowWidest();
    ok := layers.CheckBoxSize(t, dist);
    ok, plans := layers.PlanGhosts(t, box, dist, [p], 1, [[0.75]], []);
    assert Widest([[0.75]], 0, 1) == 0.75;
    MiddleOfBox(box);
    WideMarksBoth(t, GhostFraction(layers.widths, layers.bodyWidths, dist, p), 0);
  }

  lemma NarrowWidest()
    ensures Widest([[0.25]], 0, 1) == 0.25
  {
  }

  lemma MiddleOfBox(box: Box)
    requires box.lo == Vec(0.0, 0.0, 0.0) && box.hi == Vec(1.0, 1.0, 1.0) && box.xy == box.xz == box.yz == 0.0
    ensures box.NonDegenerate() && box.MakeFraction(Vec(0.5, 0.5, 0.5)) == Vec(0.5, 0.5, 0.5)
  {
    assert box.yz * box.xy == 0.0;
    assert (box.xz - box.yz * box.xy) * 0.5 == 0.0;
  }
}
