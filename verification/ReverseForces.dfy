/**
Reverse force communication. Ghosts travel back along their inverted plans, every rank keeps
what it receives apart from its particles and forwards it, and a rank adds a received force to
a particle only if that particle is local. Every ghost force reaches its owner exactly once.
Forces are one exact real component; the four components of the source are added separately.
 */
module ReverseForces {
  import opened Grid
  import opened RankVectors
  import opened GhostExchange
  import opened GhostUpdate
  import opened Sequences

  /** A ghost on its way back: its tag, its inverted plan and the force it carries. */
  datatype Entry = Entry(tag: Tag, plan: Plan, force: real)

  /** For every rank, the entries it holds. */
  type Entries = seq<seq<Entry>>

  /** The entries that travel on in a direction, in order. */
  function Bound(entries: seq<Entry>, dir: Direction): seq<Entry> {
    if entries == [] then []
    else
      var n := |entries| - 1;
      Bound(entries[..n], dir) + if dir in entries[n].plan then [entries[n]] else []
  }

  /** The ghosts of a rank, ready to travel back. */
  function GhostEntries(slots: seq<Slot>, locals: nat, forces: seq<real>): (r: seq<Entry>)
    requires locals <= |slots| == |forces|
    ensures |r| == |slots| - locals
  {
    seq(|slots| - locals, i requires 0 <= i < |slots| - locals =>
      Entry(slots[locals + i].tag, Inverted(slots[locals + i].plan), forces[locals + i]))
  }

  /** One direction: own ghosts first, then what was received earlier. */
  function ReverseDirection(t: Decomposition, ghosts: Entries, received: Entries, dir: Direction): (r: Entries)
    requires t.Valid() && |ghosts| == |received| == t.Ranks()
    ensures |r| == |received|
  {
    if t.IsCommunicating(dir) then
      seq(|received|, rank requires 0 <= rank < |received| =>
        var from := Senders(t, dir)[rank];
        received[rank] + (Bound(ghosts[from], dir) + Bound(received[from], dir)))
    else
      received
  }

  /** What every rank has received after the first `k` directions. */
  function Returned(t: Decomposition, ghosts: Entries, k: nat): (r: Entries)
    requires t.Valid() && |ghosts| == t.Ranks() && k <= DIRECTIONS
    ensures |r| == |ghosts|
  {
    if k == 0 then seq(|ghosts|, _ => [])
    else ReverseDirection(t, ghosts, Returned(t, ghosts, k - 1), k - 1)
  }

  // ----- adding up forces -------------------------------------------------------------------

  /** The total force carried for a tag. */
  function ForceOn(entries: seq<Entry>, tag: Tag): real {
    if entries == [] then 0.0
    else (if entries[0].tag == tag then entries[0].force else 0.0) + ForceOn(entries[1..], tag)
  }

  lemma {:induction false} ForceAppend(a: seq<Entry>, b: seq<Entry>, tag: Tag)
    ensures ForceOn(a + b, tag) == ForceOn(a, tag) + ForceOn(b, tag)
  {
    if a == [] {
      assert a + b == b;
    } else {
      assert (a + b)[1..] == a[1..] + b;
      ForceAppend(a[1..], b, tag);
    }
  }

  ghost predicate EntryPlan(entries: seq<Entry>, tag: Tag, plan: Plan) {
    forall i :: 0 <= i < |entries| && entries[i].tag == tag ==> entries[i].plan == plan
  }

  lemma {:induction false} ForceBound(entries: seq<Entry>, dir: Direction, tag: Tag, plan: Plan)
    requires EntryPlan(entries, tag, plan)
    ensures ForceOn(Bound(entries, dir), tag) == if dir in plan then ForceOn(entries, tag) else 0.0
    ensures EntryPlan(Bound(entries, dir), tag, plan)
  {
    if entries != [] {
      var n := |entries| - 1;
      ForceBound(entries[..n], dir, tag, plan);
      ForceAppend(Bound(entries[..n], dir), if dir in entries[n].plan then [entries[n]] else [], tag);
      assert entries == entries[..n] + [entries[n]];
      ForceAppend(entries[..n], [entries[n]], tag);
    }
  }

  /** Per rank, the force on a tag held by its own ghosts and by what it has received. */
  function Held(ghosts: Entries, received: Entries, tag: Tag): (x: Vector)
    requires |ghosts| == |received|
    ensures |x| == |ghosts|
  {
    seq(|ghosts|, r requires 0 <= r < |ghosts| => ForceOn(ghosts[r], tag) + ForceOn(received[r], tag))
  }

  ghost predicate AllPlans(entries: Entries, tag: Tag, plan: Plan) {
    forall r :: 0 <= r < |entries| ==> EntryPlan(entries[r], tag, plan)
  }

  /** One direction acts on the held forces as a linear step. */
  lemma HeldStep(t: Decomposition, ghosts: Entries, received: Entries, dir: Direction, tag: Tag, plan: Plan)
    requires t.Valid() && |ghosts| == |received| == t.Ranks()
    requires AllPlans(ghosts, tag, plan) && AllPlans(received, tag, plan)
    ensures AllPlans(ReverseDirection(t, ghosts, received, dir), tag, plan)
    ensures Held(ghosts, ReverseDirection(t, ghosts, received, dir), tag)
            == Step(t, Held(ghosts, received, tag), dir, t.IsCommunicating(dir) && dir in plan)
  {
    if t.IsCommunicating(dir) {
      var p := Senders(t, dir);
      var next := ReverseDirection(t, ghosts, received, dir);
      var x := Held(ghosts, received, tag);
      var goal := Step(t, x, dir, dir in plan);
      forall r | 0 <= r < |ghosts|
        ensures EntryPlan(next[r], tag, plan) && Held(ghosts, next, tag)[r] == goal[r]
      {
        HeldStepRank(ghosts[r], received[r], ghosts[p[r]], received[p[r]], dir, tag, plan);
      }
      assert Held(ghosts, next, tag) == goal;
    }
  }

  lemma HeldStepRank(mine: seq<Entry>, got: seq<Entry>, theirs: seq<Entry>, theirGot: seq<Entry>, dir: Direction,
                     tag: Tag, plan: Plan)
    requires EntryPlan(got, tag, plan) && EntryPlan(theirs, tag, plan) && EntryPlan(theirGot, tag, plan)
    ensures var next := got + (Bound(theirs, dir) + Bound(theirGot, dir));
            && EntryPlan(next, tag, plan)
            && ForceOn(next, tag)
               == ForceOn(got, tag) + if dir in plan then ForceOn(theirs, tag) + ForceOn(theirGot, tag) else 0.0
  {
    ForceBound(theirs, dir, tag, plan);
    ForceBound(theirGot, dir, tag, plan);
    ForceAppend(Bound(theirs, dir), Bound(theirGot, dir), tag);
    ForceAppend(got, Bound(theirs, dir) + Bound(theirGot, dir), tag);
  }

  lemma InvertedActive(t: Decomposition, plan: Plan, d: Direction)
    ensures d in Inverted(Active(t, plan)) <==> t.IsCommunicating(d) && d in Inverted(plan)
  {
    assert d in {0, 1, 2, 3, 4, 5};
  }

  lemma {:induction false} HeldIsLinear(t: Decomposition, ghosts: Entries, tag: Tag, plan: Plan, k: nat)
    requires t.Valid() && |ghosts| == t.Ranks() && k <= DIRECTIONS && AllPlans(ghosts, tag, Inverted(plan))
    ensures AllPlans(Returned(t, ghosts, k), tag, Inverted(plan))
    ensures Held(ghosts, Returned(t, ghosts, k), tag)
            == AllSteps(t, Held(ghosts, Returned(t, ghosts, 0), tag), Inverted(Active(t, plan)), k)
  {
    if k > 0 {
      HeldIsLinear(t, ghosts, tag, plan, k - 1);
      InvertedActive(t, plan, k - 1);
      HeldStep(t, ghosts, Returned(t, ghosts, k - 1), k - 1, tag, Inverted(plan));
    }
  }

  // ----- the copies are linear too ----------------------------------------------------------

  function CopyVector(world: World, tag: Tag): (x: Vector)
    ensures |x| == |world|
  {
    seq(|world|, r requires 0 <= r < |world| => Copies(world[r], tag) as real)
  }

  lemma CopyVectorStep(s: Setting, memory: Payload, world: World, dir: Direction, tag: Tag, plan: Plan)
    requires s.Valid() && |world| == s.torus.Ranks()
    requires forall r :: 0 <= r < |world| ==> PlanOf(world[r], tag, plan)
    ensures CopyVector(ExchangeDirection(s, memory, world, dir), tag)
            == Step(s.torus, CopyVector(world, tag), dir, s.torus.IsCommunicating(dir) && dir in plan)
  {
    var next := ExchangeDirection(s, memory, world, dir);
    var goal := Step(s.torus, CopyVector(world, tag), dir, s.torus.IsCommunicating(dir) && dir in plan);
    forall r | 0 <= r < |world| ensures CopyVector(next, tag)[r] == goal[r] {
      CopiesStep(s, memory, world, dir, tag, plan, r);
    }
    assert CopyVector(next, tag) == goal;
  }

  lemma {:induction false} CopiesAreLinear(s: Setting, memory: Payload, world: World, tag: Tag, owner: nat, plan: Plan, k: nat)
    requires s.Valid() && |world| == s.torus.Ranks() && k <= DIRECTIONS && OwnedOnce(world, tag, owner, plan)
    ensures CopyVector(Exchange(s, memory, world, k), tag)
            == AllSteps(s.torus, Unit(|world|, owner), Active(s.torus, plan), k)
  {
    if k == 0 {
      assert CopyVector(world, tag) == Unit(|world|, owner);
    } else {
      CopiesAreLinear(s, memory, world, tag, owner, plan, k - 1);
      CopiesAreItineraries(s, memory, world, tag, owner, plan, k - 1);
      CopyVectorStep(s, memory, Exchange(s, memory, world, k - 1), k - 1, tag, plan);
    }
  }

  // ----- every ghost force arrives once -----------------------------------------------------

  /** Per rank, the force its ghosts carry for a tag. */
  function GhostForces(ghosts: Entries, tag: Tag): (x: Vector)
    ensures |x| == |ghosts|
  {
    seq(|ghosts|, r requires 0 <= r < |ghosts| => ForceOn(ghosts[r], tag))
  }

  /**
  For every plan, what a rank holds after the six directions is the ghost forces weighted by the
  number of copies of the particle: reverse communication is the adjoint of ghost exchange.
   */
  lemma ReverseIsAdjoint(s: Setting, memory: Payload, world: World, ghosts: Entries, tag: Tag, owner: nat, plan: Plan)
    requires s.Valid() && |world| == |ghosts| == s.torus.Ranks()
    requires OwnedOnce(world, tag, owner, plan) && AllPlans(ghosts, tag, Inverted(plan))
    ensures ForceOn(ghosts[owner], tag) + ForceOn(Returned(s.torus, ghosts, DIRECTIONS)[owner], tag)
            == Dot(CopyVector(Exchange(s, memory, world, DIRECTIONS), tag), GhostForces(ghosts, tag))
  {
    var t := s.torus;
    var start := GhostForces(ghosts, tag);
    assert Held(ghosts, Returned(t, ghosts, 0), tag) == start;
    HeldIsLinear(t, ghosts, tag, plan, DIRECTIONS);
    CopiesAreLinear(s, memory, world, tag, owner, plan, DIRECTIONS);
    var unit := Unit(|world|, owner);
    AllStepsAdjoint(t, unit, start, Active(t, plan));
    DotUnit(AllSteps(t, start, Inverted(Active(t, plan)), DIRECTIONS), owner);
  }

  /** The ghosts of a rank: copies of tags beyond its local particles. */
  ghost predicate GhostsOf(slots: seq<Slot>, locals: nat, ghosts: seq<Entry>) {
    && locals <= |slots| && |ghosts| == |slots| - locals
    && forall i :: 0 <= i < |ghosts| ==>
         ghosts[i].tag == slots[locals + i].tag && ghosts[i].plan == Inverted(slots[locals + i].plan)
  }

  lemma {:induction false} NoForceWithoutTag(ghosts: seq<Entry>, tag: Tag)
    requires forall i :: 0 <= i < |ghosts| ==> ghosts[i].tag != tag
    ensures ForceOn(ghosts, tag) == 0.0
  {
    if ghosts != [] {
      NoForceWithoutTag(ghosts[1..], tag);
    }
  }

  /** A rank without copies of a tag has no ghost of it, nor has the owner of its only copy. */
  lemma NoGhostForce(slots: seq<Slot>, locals: nat, ghosts: seq<Entry>, tag: Tag)
    requires GhostsOf(slots, locals, ghosts)
    requires Copies(slots, tag) == Copies(slots[..locals], tag)
    ensures ForceOn(ghosts, tag) == 0.0
  {
    assert slots == slots[..locals] + slots[locals..];
    CopiesAppend(slots[..locals], slots[locals..], tag);
    forall i | 0 <= i < |ghosts| ensures ghosts[i].tag != tag {
      if ghosts[i].tag == tag {
        CopiesOfMember(slots[locals..], i);
      }
    }
    NoForceWithoutTag(ghosts, tag);
  }

  /**
  Reverse forces arrive exactly once: if the plan has no opposite communicating directions, the
  forces the owner of a particle receives for it add up to the forces of all its ghosts on all
  ranks, each counted once, on every torus including those of width two.
   */
  lemma ReverseForcesArriveOnce(s: Setting, memory: Payload, world: World, ghosts: Entries, tag: Tag, owner: nat, plan: Plan)
    requires s.Valid() && |world| == |ghosts| == s.torus.Ranks()
    requires OwnedOnce(world, tag, owner, plan) && NoOpposites(Active(s.torus, plan))
    requires forall r :: 0 <= r < |world| ==>
      GhostsOf(Exchange(s, memory, world, DIRECTIONS)[r], |world[r]|, ghosts[r])
    ensures ForceOn(Returned(s.torus, ghosts, DIRECTIONS)[owner], tag) == Sum(GhostForces(ghosts, tag))
  {
    GhostPlansInverted(s, memory, world, ghosts, tag, owner, plan);
    ReverseIsAdjoint(s, memory, world, ghosts, tag, owner, plan);
    CopiesWeighOnce(s, memory, world, ghosts, tag, owner, plan);
  }

  lemma GhostPlansInverted(s: Setting, memory: Payload, world: World, ghosts: Entries, tag: Tag, owner: nat, plan: Plan)
    requires s.Valid() && |world| == |ghosts| == s.torus.Ranks() && OwnedOnce(world, tag, owner, plan)
    requires forall r :: 0 <= r < |world| ==>
      GhostsOf(Exchange(s, memory, world, DIRECTIONS)[r], |world[r]|, ghosts[r])
    ensures AllPlans(ghosts, tag, Inverted(plan))
  {
    CopiesAreItineraries(s, memory, world, tag, owner, plan, DIRECTIONS);
    forall r | 0 <= r < |world| ensures EntryPlan(ghosts[r], tag, Inverted(plan)) {
      GhostPlans(Exchange(s, memory, world, DIRECTIONS)[r], |world[r]|, ghosts[r], tag, plan);
    }
  }

  /** Weighting the ghost forces by the number of copies changes nothing. */
  lemma CopiesWeighOnce(s: Setting, memory: Payload, world: World, ghosts: Entries, tag: Tag, owner: nat, plan: Plan)
    requires s.Valid() && |world| == |ghosts| == s.torus.Ranks()
    requires OwnedOnce(world, tag, owner, plan) && NoOpposites(Active(s.torus, plan))
    requires forall r :: 0 <= r < |world| ==>
      GhostsOf(Exchange(s, memory, world, DIRECTIONS)[r], |world[r]|, ghosts[r])
    ensures Times(CopyVector(Exchange(s, memory, world, DIRECTIONS), tag), GhostForces(ghosts, tag)) == GhostForces(ghosts, tag)
    ensures ForceOn(ghosts[owner], tag) == 0.0
  {
    var copies, forces := CopyVector(Exchange(s, memory, world, DIRECTIONS), tag), GhostForces(ghosts, tag);
    forall r | 0 <= r < |world|
      ensures Times(copies, forces)[r] == forces[r]
      ensures r == owner ==> forces[r] == 0.0
    {
      GhostsDeliveredExactlyOnce(s, memory, world, tag, owner, plan, r);
      WeightedOnce(s, memory, world, ghosts[r], tag, r);
    }
    assert forces[owner] == 0.0;
  }

  lemma GhostPlans(slots: seq<Slot>, locals: nat, ghosts: seq<Entry>, tag: Tag, plan: Plan)
    requires GhostsOf(slots, locals, ghosts) && PlanOf(slots, tag, plan)
    ensures EntryPlan(ghosts, tag, Inverted(plan))
  {
  }

  lemma WeightedOnce(s: Setting, memory: Payload, world: World, ghosts: seq<Entry>, tag: Tag, r: nat)
    requires s.Valid() && r < |world| == s.torus.Ranks()
    requires var final := Exchange(s, memory, world, DIRECTIONS);
             GhostsOf(final[r], |world[r]|, ghosts) && Copies(final[r], tag) <= 1
    ensures var n := Copies(Exchange(s, memory, world, DIRECTIONS)[r], tag) as real;
            n * ForceOn(ghosts, tag) == ForceOn(ghosts, tag)
    ensures Copies(world[r], tag) == 1 ==> ForceOn(ghosts, tag) == 0.0
  {
    var final := Exchange(s, memory, world, DIRECTIONS);
    ExchangeGrows(s, memory, world, 0, DIRECTIONS, r);
    assert final[r][..|world[r]|] == world[r];
    assert final[r] == world[r] + final[r][|world[r]|..];
    CopiesAppend(world[r], final[r][|world[r]|..], tag);
    if Copies(final[r], tag) == Copies(world[r], tag) {
      NoGhostForce(final[r], |world[r]|, ghosts, tag);
    }
  }

  // ----- replaying the lists with forces ----------------------------------------------------

  /** The positions of the entries that travel on in a direction. */
  function BoundIndices(entries: seq<Entry>, dir: Direction): (r: seq<nat>)
    ensures Within(r, |entries|) && |r| == |Bound(entries, dir)|
    ensures forall j :: 0 <= j < |r| ==> entries[r[j]] == Bound(entries, dir)[j]
  {
    if entries == [] then []
    else
      var n := |entries| - 1;
      BoundIndices(entries[..n], dir) + if dir in entries[n].plan then [n] else []
  }

  /** The positions are those of all entries that travel on, in order. */
  lemma {:induction false} BoundIndicesExact(entries: seq<Entry>, dir: Direction)
    ensures Increasing(BoundIndices(entries, dir))
    ensures forall i: nat :: i in BoundIndices(entries, dir) <==> i < |entries| && dir in entries[i].plan
  {
    if entries != [] {
      var n := |entries| - 1;
      BoundIndicesExact(entries[..n], dir);
      var before := BoundIndices(entries[..n], dir);
      forall k | 0 <= k < |before| ensures before[k] < n {
        assert before[k] in before;
      }
    }
  }

  function EntryTags(entries: seq<Entry>): (r: seq<Tag>)
    ensures |r| == |entries|
  {
    seq(|entries|, i requires 0 <= i < |entries| => entries[i].tag)
  }

  function EntryForces(entries: seq<Entry>): (r: seq<real>)
    ensures |r| == |entries|
  {
    seq(|entries|, i requires 0 <= i < |entries| => entries[i].force)
  }

  /**
  The lists the reverse part of an exchange saves, per rank: the tags of the ghosts sent back
  and the positions forwarded, both per direction, and the tags of everything received.
   */
  datatype ReverseLists = ReverseLists(copied: seq<seq<seq<Tag>>>, forwarded: seq<seq<seq<nat>>>, tags: seq<seq<Tag>>)

  ghost predicate SavedReverse(t: Decomposition, ghosts: Entries, lists: ReverseLists)
    requires t.Valid() && |ghosts| == t.Ranks()
  {
    && |lists.copied| == |lists.forwarded| == |lists.tags| == |ghosts|
    && (forall r :: 0 <= r < |ghosts| ==> |lists.copied[r]| == |lists.forwarded[r]| == DIRECTIONS)
    && SavedTags(t, ghosts, lists, DIRECTIONS)
    && forall r, d: Direction :: 0 <= r < |ghosts| && t.IsCommunicating(d) ==>
         && lists.copied[r][d] == EntryTags(Bound(ghosts[r], d))
         && lists.forwarded[r][d] == BoundIndices(Returned(t, ghosts, d)[r], d)
  }

  /** The tags of everything received in the first `k` directions. */
  ghost predicate SavedTags(t: Decomposition, ghosts: Entries, lists: ReverseLists, k: nat)
    requires t.Valid() && |ghosts| == t.Ranks() == |lists.tags| && k <= DIRECTIONS
  {
    forall r {:trigger lists.tags[r]} :: 0 <= r < |ghosts| ==> lists.tags[r] == EntryTags(Returned(t, ghosts, k)[r])
  }

  /** The same tags and plans; the forces may differ. */
  ghost predicate SameRoute(a: seq<Entry>, b: seq<Entry>) {
    |a| == |b| && forall i :: 0 <= i < |a| ==> a[i].tag == b[i].tag && a[i].plan == b[i].plan
  }

  ghost predicate SameRoutes(a: Entries, b: Entries) {
    |a| == |b| && forall r :: 0 <= r < |a| ==> SameRoute(a[r], b[r])
  }

  lemma {:induction false} BoundRoute(a: seq<Entry>, b: seq<Entry>, d: Direction)
    requires SameRoute(a, b)
    ensures SameRoute(Bound(a, d), Bound(b, d)) && BoundIndices(a, d) == BoundIndices(b, d)
  {
    if a != [] {
      BoundRoute(a[..|a| - 1], b[..|a| - 1], d);
    }
  }

  lemma TagsOfRoute(a: seq<Entry>, b: seq<Entry>)
    requires SameRoute(a, b)
    ensures EntryTags(a) == EntryTags(b)
  {
  }

  lemma DirectionRoute(t: Decomposition, a: Entries, b: Entries, a': Entries, b': Entries, d: Direction)
    requires t.Valid() && |a| == |a'| == t.Ranks() && SameRoutes(a, b) && SameRoutes(a', b')
    ensures SameRoutes(ReverseDirection(t, a, a', d), ReverseDirection(t, b, b', d))
  {
    if t.IsCommunicating(d) {
      forall r | 0 <= r < |a|
        ensures SameRoute(ReverseDirection(t, a, a', d)[r], ReverseDirection(t, b, b', d)[r])
      {
        var from := Senders(t, d)[r];
        BoundRoute(a[from], b[from], d);
        BoundRoute(a'[from], b'[from], d);
        RouteAppend(Bound(a[from], d), Bound(b[from], d), Bound(a'[from], d), Bound(b'[from], d));
        RouteAppend(a'[r], b'[r], Bound(a[from], d) + Bound(a'[from], d), Bound(b[from], d) + Bound(b'[from], d));
      }
    }
  }

  lemma RouteAppend(a: seq<Entry>, b: seq<Entry>, c: seq<Entry>, d: seq<Entry>)
    requires SameRoute(a, b) && SameRoute(c, d)
    ensures SameRoute(a + c, b + d)
  {
  }

  lemma {:induction false} ReturnedRoute(t: Decomposition, a: Entries, b: Entries, k: nat)
    requires t.Valid() && |a| == t.Ranks() && SameRoutes(a, b) && k <= DIRECTIONS
    ensures SameRoutes(Returned(t, a, k), Returned(t, b, k))
  {
    if k > 0 {
      ReturnedRoute(t, a, b, k - 1);
      DirectionRoute(t, a, b, Returned(t, a, k - 1), Returned(t, b, k - 1), k - 1);
    }
  }

  lemma ListsAtRank(t: Decomposition, a: Entries, b: Entries, r: nat, d: Direction)
    requires t.Valid() && r < |a| == t.Ranks() && SameRoutes(a, b)
    ensures EntryTags(Bound(a[r], d)) == EntryTags(Bound(b[r], d))
    ensures BoundIndices(Returned(t, a, d)[r], d) == BoundIndices(Returned(t, b, d)[r], d)
  {
    BoundRoute(a[r], b[r], d);
    TagsOfRoute(Bound(a[r], d), Bound(b[r], d));
    ReturnedRoute(t, a, b, d);
    BoundRoute(Returned(t, a, d)[r], Returned(t, b, d)[r], d);
  }

  lemma SavedTagsServe(t: Decomposition, a: Entries, b: Entries, lists: ReverseLists, k: nat)
    requires t.Valid() && |a| == t.Ranks() == |lists.tags| && SameRoutes(a, b) && k <= DIRECTIONS && SavedTags(t, a, lists, k)
    ensures SavedTags(t, b, lists, k)
  {
    ReturnedRoute(t, a, b, k);
    forall r | 0 <= r < |a| ensures lists.tags[r] == EntryTags(Returned(t, b, k)[r]) {
      TagsOfRoute(Returned(t, a, k)[r], Returned(t, b, k)[r]);
    }
  }

  /** Lists saved once serve every later set of forces on the same ghosts. */
  lemma ListsServeAnyForces(t: Decomposition, a: Entries, b: Entries, lists: ReverseLists)
    requires t.Valid() && |a| == t.Ranks() && SameRoutes(a, b) && SavedReverse(t, a, lists)
    ensures SavedReverse(t, b, lists)
  {
    SavedTagsServe(t, a, b, lists, DIRECTIONS);
    forall r, d: Direction | 0 <= r < |a| && t.IsCommunicating(d)
      ensures lists.copied[r][d] == EntryTags(Bound(b[r], d))
      ensures lists.forwarded[r][d] == BoundIndices(Returned(t, b, d)[r], d)
    {
      ListsAtRank(t, a, b, r, d);
    }
  }

  /** The buffer a rank sends: forces of ghosts looked up by tag, then forwarded forces. */
  function ForceMessage(slots: seq<Slot>, net: seq<real>, buffer: seq<real>, copied: seq<Tag>, forwarded: seq<nat>): (r: seq<real>)
    requires |slots| == |net| && Found(slots, copied) && Within(forwarded, |buffer|)
    ensures |r| == |copied| + |forwarded|
  {
    seq(|copied|, i requires 0 <= i < |copied| => net[ReverseTags(slots)[copied[i]]])
    + seq(|forwarded|, i requires 0 <= i < |forwarded| => buffer[forwarded[i]])
  }

  /** Add received forces to the particles that are local. */
  function AddForces(slots: seq<Slot>, locals: nat, net: seq<real>, tags: seq<Tag>, forces: seq<real>): (r: seq<real>)
    requires locals <= |slots| == |net| && |tags| == |forces|
    ensures |r| == |net|
  {
    if tags == [] then net
    else
      var n := |tags| - 1;
      var before := AddForces(slots, locals, net, tags[..n], forces[..n]);
      if tags[n] in ReverseTags(slots) && ReverseTags(slots)[tags[n]] < locals
      then before[ReverseTags(slots)[tags[n]] := before[ReverseTags(slots)[tags[n]]] + forces[n]]
      else before
  }

  /** With unique tags, a local particle gains the forces of its tag and a ghost gains nothing. */
  lemma {:induction false} AddForcesMeaning(slots: seq<Slot>, locals: nat, net: seq<real>, entries: seq<Entry>, i: nat)
    requires i < |slots| == |net| && locals <= |slots| && UniqueTags(slots)
    ensures AddForces(slots, locals, net, EntryTags(entries), EntryForces(entries))[i]
            == net[i] + if i < locals then ForceOn(entries, slots[i].tag) else 0.0
  {
    if entries != [] {
      var n := |entries| - 1;
      AddForcesMeaning(slots, locals, net, entries[..n], i);
      assert EntryTags(entries)[..n] == EntryTags(entries[..n]);
      assert EntryForces(entries)[..n] == EntryForces(entries[..n]);
      assert entries == entries[..n] + [entries[n]];
      ForceAppend(entries[..n], [entries[n]], slots[i].tag);
      ReverseTagsInverse(slots);
    }
  }

  /** Per rank, the net forces of its slots and the buffer of received reverse forces. */
  datatype ForceState = ForceState(net: seq<seq<real>>, buffers: seq<seq<real>>)

  /** The arrays a force update works on: the slots of every rank and how many are local. */
  datatype Arrays = Arrays(slots: World, locals: seq<nat>) {
    ghost predicate Valid(t: Decomposition) {
      && t.Valid() && |slots| == |locals| == t.Ranks()
      && forall r :: 0 <= r < |slots| ==> locals[r] <= |slots[r]| && UniqueTags(slots[r])
    }

    ghost predicate Fits(st: ForceState) {
      && |st.net| == |st.buffers| == |slots|
      && forall r :: 0 <= r < |slots| ==> |st.net[r]| == |slots[r]|
    }
  }

  /** The array accesses of a direction are in range. */
  ghost predicate InRange(t: Decomposition, a: Arrays, lists: ReverseLists, st: ForceState, d: Direction)
    requires a.Valid(t) && a.Fits(st)
  {
    && |lists.copied| == |lists.forwarded| == |lists.tags| == |a.slots|
    && (forall r :: 0 <= r < |a.slots| ==>
          && |lists.copied[r]| == |lists.forwarded[r]| == DIRECTIONS
          && Found(a.slots[r], lists.copied[r][d]) && Within(lists.forwarded[r][d], |st.buffers[r]|))
    && (forall r {:trigger lists.tags[r]} :: 0 <= r < |a.slots| ==>
          var from := Senders(t, d)[r];
          |st.buffers[r]| + (|lists.copied[from][d]| + |lists.forwarded[from][d]|) <= |lists.tags[r]|)
  }

  /** The forces a rank receives. */
  function Arriving(t: Decomposition, a: Arrays, lists: ReverseLists, st: ForceState, d: Direction, r: nat): (m: seq<real>)
    requires a.Valid(t) && a.Fits(st) && InRange(t, a, lists, st, d) && r < |a.slots|
    ensures |st.buffers[r]| + |m| <= |lists.tags[r]|
  {
    var from := Senders(t, d)[r];
    ForceMessage(a.slots[from], st.net[from], st.buffers[from], lists.copied[from][d], lists.forwarded[from][d])
  }

  /** The net forces of a rank after a message that follows `start` earlier entries. */
  function NetAfter(slots: seq<Slot>, locals: nat, net: seq<real>, tags: seq<Tag>, start: nat, message: seq<real>): (r: seq<real>)
    requires locals <= |slots| == |net| && start + |message| <= |tags|
    ensures |r| == |net|
  {
    AddForces(slots, locals, net, tags[start..start + |message|], message)
  }

  /** One direction on all ranks: append the arriving forces and add them to local particles. */
  function ForceDirection(t: Decomposition, a: Arrays, lists: ReverseLists, st: ForceState, d: Direction): (next: ForceState)
    requires a.Valid(t) && a.Fits(st) && InRange(t, a, lists, st, d)
    ensures a.Fits(next)
  {
    ForceState(
      seq(|a.slots|, r requires 0 <= r < |a.slots| =>
        NetAfter(a.slots[r], a.locals[r], st.net[r], lists.tags[r], |st.buffers[r]|, Arriving(t, a, lists, st, d, r))),
      seq(|a.slots|, r requires 0 <= r < |a.slots| => st.buffers[r] + Arriving(t, a, lists, st, d, r)))
  }

  /** The first `k` directions of a force update, or None where an array access would be out of range. */
  ghost function ForceUpdate(t: Decomposition, a: Arrays, lists: ReverseLists, st: ForceState, k: nat): (r: Option<ForceState>)
    requires a.Valid(t) && a.Fits(st) && k <= DIRECTIONS
    ensures r.Some? ==> a.Fits(r.value)
  {
    if k == 0 then Some(st)
    else
      var before := ForceUpdate(t, a, lists, st, k - 1);
      if before.None? || !t.IsCommunicating(k - 1) then before
      else if InRange(t, a, lists, before.value, k - 1) then
        Some(ForceDirection(t, a, lists, before.value, k - 1))
      else None
  }

  /** The ghosts of all ranks with their forces. */
  function AllGhosts(t: Decomposition, a: Arrays, net: seq<seq<real>>): (ghosts: Entries)
    requires a.Valid(t) && |net| == |a.slots| && forall r :: 0 <= r < |net| ==> |net[r]| == |a.slots[r]|
    ensures |ghosts| == |a.slots|
  {
    seq(|a.slots|, r requires 0 <= r < |a.slots| => GhostEntries(a.slots[r], a.locals[r], net[r]))
  }

  /** One rank: local particles have gained what was received for them, ghosts are untouched. */
  ghost predicate Gained(slots: seq<Slot>, locals: nat, before: seq<real>, after: seq<real>, received: seq<Entry>) {
    && |slots| == |before| == |after|
    && forall i :: 0 <= i < |slots| ==>
         after[i] == before[i] + if i < locals then ForceOn(received, slots[i].tag) else 0.0
  }

  /** The state of a force update follows the entries that travel back. */
  ghost predicate Follows(a: Arrays, net: seq<seq<real>>, st: ForceState, received: Entries)
    requires |a.slots| == |a.locals|
  {
    && |a.slots| == |net| == |st.net| == |st.buffers| == |received|
    && forall r :: 0 <= r < |a.slots| ==>
         && st.buffers[r] == EntryForces(received[r])
         && Gained(a.slots[r], a.locals[r], net[r], st.net[r], received[r])
  }

  /** Looking up a ghost by its tag finds its force, however local particles have changed. */
  lemma GhostLookup(slots: seq<Slot>, locals: nat, before: seq<real>, net: seq<real>, received: seq<Entry>, d: Direction)
    requires locals <= |slots| == |before| && UniqueTags(slots) && Gained(slots, locals, before, net, received)
    ensures var sent := Bound(GhostEntries(slots, locals, before), d);
            && Found(slots, EntryTags(sent))
            && forall j :: 0 <= j < |sent| ==> net[ReverseTags(slots)[EntryTags(sent)[j]]] == sent[j].force
  {
    var ghosts := GhostEntries(slots, locals, before);
    var sent, indices := Bound(ghosts, d), BoundIndices(ghosts, d);
    ReverseTagsInverse(slots);
    forall j | 0 <= j < |sent|
      ensures sent[j].tag in ReverseTags(slots) && ReverseTags(slots)[sent[j].tag] < |slots|
      ensures net[ReverseTags(slots)[sent[j].tag]] == sent[j].force
    {
      assert ghosts[indices[j]] == sent[j];
      assert slots[locals + indices[j]].tag == sent[j].tag;
    }
  }

  /** The message of a rank carries the forces of exactly the entries that travel on. */
  lemma MessageIsBound(slots: seq<Slot>, net: seq<real>, sent: seq<Entry>, received: seq<Entry>, d: Direction)
    requires |slots| == |net| && Found(slots, EntryTags(sent))
    requires forall j :: 0 <= j < |sent| ==> net[ReverseTags(slots)[EntryTags(sent)[j]]] == sent[j].force
    ensures ForceMessage(slots, net, EntryForces(received), EntryTags(sent), BoundIndices(received, d))
            == EntryForces(sent + Bound(received, d))
  {
    var indices := BoundIndices(received, d);
    var message := ForceMessage(slots, net, EntryForces(received), EntryTags(sent), indices);
    var goal := EntryForces(sent + Bound(received, d));
    forall j | 0 <= j < |message| ensures message[j] == goal[j] {
      if j >= |sent| {
        assert received[indices[j - |sent|]] == Bound(received, d)[j - |sent|];
      }
    }
  }

  lemma GainedMore(slots: seq<Slot>, locals: nat, before: seq<real>, net: seq<real>, received: seq<Entry>, more: seq<Entry>)
    requires locals <= |slots| && UniqueTags(slots) && Gained(slots, locals, before, net, received)
    ensures Gained(slots, locals, before, AddForces(slots, locals, net, EntryTags(more), EntryForces(more)), received + more)
  {
    forall i | 0 <= i < |slots|
      ensures AddForces(slots, locals, net, EntryTags(more), EntryForces(more))[i]
              == before[i] + if i < locals then ForceOn(received + more, slots[i].tag) else 0.0
    {
      AddForcesMeaning(slots, locals, net, more, i);
      ForceAppend(received, more, slots[i].tag);
    }
  }

  /** Later directions only append. */
  lemma {:induction false} ReturnedGrows(t: Decomposition, ghosts: Entries, j: nat, k: nat, r: nat)
    requires t.Valid() && r < |ghosts| == t.Ranks() && j <= k <= DIRECTIONS
    ensures Returned(t, ghosts, j)[r] <= Returned(t, ghosts, k)[r]
  {
    if j < k {
      ReturnedGrows(t, ghosts, j, k - 1, r);
    }
  }

  /** The lists address what the entries hold at this point. */
  ghost predicate ReverseFit(t: Decomposition, ghosts: Entries, received: Entries, lists: ReverseLists, d: Direction)
    requires t.Valid() && |ghosts| == |received| == t.Ranks()
  {
    && |lists.copied| == |lists.forwarded| == |lists.tags| == |ghosts|
    && (forall r {:trigger lists.copied[r]} {:trigger lists.forwarded[r]} :: 0 <= r < |ghosts| ==>
          && |lists.copied[r]| == |lists.forwarded[r]| == DIRECTIONS
          && lists.copied[r][d] == EntryTags(Bound(ghosts[r], d))
          && lists.forwarded[r][d] == BoundIndices(received[r], d))
    && (forall r {:trigger lists.tags[r]} :: 0 <= r < |ghosts| ==>
          EntryTags(ReverseDirection(t, ghosts, received, d)[r]) <= lists.tags[r])
  }

  lemma SavedReverseFits(t: Decomposition, ghosts: Entries, lists: ReverseLists, d: Direction)
    requires t.Valid() && |ghosts| == t.Ranks() && SavedReverse(t, ghosts, lists) && t.IsCommunicating(d)
    ensures ReverseFit(t, ghosts, Returned(t, ghosts, d), lists, d)
  {
    forall r | 0 <= r < |ghosts| ensures EntryTags(Returned(t, ghosts, d + 1)[r]) <= lists.tags[r] {
      ReturnedGrows(t, ghosts, d + 1, DIRECTIONS, r);
      TagsPrefix(Returned(t, ghosts, d + 1)[r], Returned(t, ghosts, DIRECTIONS)[r]);
    }
  }

  lemma TagsPrefix(a: seq<Entry>, b: seq<Entry>)
    requires a <= b
    ensures EntryTags(a) <= EntryTags(b)
  {
    assert forall i :: 0 <= i < |a| ==> a[i] == b[i];
  }

  /** The tags from `start` on are those of the entries. */
  ghost predicate TagsAt(tags: seq<Tag>, start: nat, entries: seq<Entry>) {
    start + |entries| <= |tags| && tags[start..start + |entries|] == EntryTags(entries)
  }

  lemma TagsSuffix(a: seq<Entry>, b: seq<Entry>, tags: seq<Tag>)
    requires EntryTags(a + b) <= tags
    ensures TagsAt(tags, |a|, b)
  {
    var all := EntryTags(a + b);
    forall i | 0 <= i < |b| ensures tags[|a| + i] == b[i].tag {
      assert tags[|a| + i] == all[|a| + i];
    }
  }

  /** What a rank's sender sends it, as entries. */
  function Incoming(t: Decomposition, ghosts: Entries, received: Entries, d: Direction, r: nat): seq<Entry>
    requires t.Valid() && r < |ghosts| == |received| == t.Ranks()
  {
    Bound(ghosts[Senders(t, d)[r]], d) + Bound(received[Senders(t, d)[r]], d)
  }

  /** A force update in progress: its state follows the entries and its lists address them. */
  ghost predicate InProgress(t: Decomposition, a: Arrays, net: seq<seq<real>>, ghosts: Entries, st: ForceState,
                             received: Entries, lists: ReverseLists, d: Direction)
  {
    && a.Valid(t) && a.Fits(st) && |net| == |ghosts| == |received| == |a.slots|
    && (forall r :: 0 <= r < |net| ==>
          |net[r]| == |a.slots[r]| && ghosts[r] == GhostEntries(a.slots[r], a.locals[r], net[r]))
    && Follows(a, net, st, received) && ReverseFit(t, ghosts, received, lists, d) && t.IsCommunicating(d)
  }

  lemma RankInRange(t: Decomposition, a: Arrays, net: seq<seq<real>>, ghosts: Entries, st: ForceState,
                    received: Entries, lists: ReverseLists, d: Direction, r: nat)
    requires InProgress(t, a, net, ghosts, st, received, lists, d) && r < |a.slots|
    ensures Found(a.slots[r], lists.copied[r][d]) && Within(lists.forwarded[r][d], |st.buffers[r]|)
  {
    GhostLookup(a.slots[r], a.locals[r], net[r], st.net[r], received[r], d);
  }

  lemma RankHasRoom(t: Decomposition, a: Arrays, net: seq<seq<real>>, ghosts: Entries, st: ForceState,
                    received: Entries, lists: ReverseLists, d: Direction, r: nat)
    requires InProgress(t, a, net, ghosts, st, received, lists, d) && r < |a.slots|
    ensures var incoming := Incoming(t, ghosts, received, d, r);
            && TagsAt(lists.tags[r], |received[r]|, incoming)
            && ReverseDirection(t, ghosts, received, d)[r] == received[r] + incoming
  {
    var incoming := Incoming(t, ghosts, received, d, r);
    assert ReverseDirection(t, ghosts, received, d)[r] == received[r] + incoming;
    TagsSuffix(received[r], incoming, lists.tags[r]);
  }

  lemma ForceInRange(t: Decomposition, a: Arrays, net: seq<seq<real>>, ghosts: Entries, st: ForceState,
                     received: Entries, lists: ReverseLists, d: Direction)
    requires InProgress(t, a, net, ghosts, st, received, lists, d)
    ensures InRange(t, a, lists, st, d)
  {
    forall r | 0 <= r < |a.slots|
      ensures Found(a.slots[r], lists.copied[r][d]) && Within(lists.forwarded[r][d], |st.buffers[r]|)
    {
      RankInRange(t, a, net, ghosts, st, received, lists, d, r);
    }
    forall r | 0 <= r < |a.slots|
      ensures var from := Senders(t, d)[r];
              |st.buffers[r]| + (|lists.copied[from][d]| + |lists.forwarded[from][d]|) <= |lists.tags[r]|
    {
      RankHasRoom(t, a, net, ghosts, st, received, lists, d, r);
    }
  }

  lemma ArrivingIsIncoming(t: Decomposition, a: Arrays, net: seq<seq<real>>, ghosts: Entries, st: ForceState,
                           received: Entries, lists: ReverseLists, d: Direction, r: nat)
    requires InProgress(t, a, net, ghosts, st, received, lists, d) && InRange(t, a, lists, st, d) && r < |a.slots|
    ensures Arriving(t, a, lists, st, d, r) == EntryForces(Incoming(t, ghosts, received, d, r))
  {
    var from := Senders(t, d)[r];
    GhostLookup(a.slots[from], a.locals[from], net[from], st.net[from], received[from], d);
    MessageIsBound(a.slots[from], st.net[from], Bound(ghosts[from], d), received[from], d);
  }

  lemma NextOfRank(t: Decomposition, a: Arrays, net: seq<seq<real>>, ghosts: Entries, st: ForceState,
                   received: Entries, lists: ReverseLists, d: Direction, r: nat)
    requires InProgress(t, a, net, ghosts, st, received, lists, d) && InRange(t, a, lists, st, d) && r < |a.slots|
    ensures var next, forces := ForceDirection(t, a, lists, st, d), EntryForces(Incoming(t, ghosts, received, d, r));
            && |received[r]| + |forces| <= |lists.tags[r]|
            && next.net[r] == NetAfter(a.slots[r], a.locals[r], st.net[r], lists.tags[r], |received[r]|, forces)
            && next.buffers[r] == EntryForces(received[r]) + forces
  {
    ArrivingIsIncoming(t, a, net, ghosts, st, received, lists, d, r);
    ForceDirectionAt(t, a, lists, st, d, r);
  }

  lemma ForceStepRank(t: Decomposition, a: Arrays, net: seq<seq<real>>, ghosts: Entries, st: ForceState,
                      received: Entries, lists: ReverseLists, d: Direction, r: nat, next: ForceState, more: Entries)
    requires InProgress(t, a, net, ghosts, st, received, lists, d) && InRange(t, a, lists, st, d) && r < |a.slots|
    requires next == ForceDirection(t, a, lists, st, d) && more == ReverseDirection(t, ghosts, received, d)
    ensures next.buffers[r] == EntryForces(more[r]) && Gained(a.slots[r], a.locals[r], net[r], next.net[r], more[r])
  {
    var incoming := Incoming(t, ghosts, received, d, r);
    RankHasRoom(t, a, net, ghosts, st, received, lists, d, r);
    NextOfRank(t, a, net, ghosts, st, received, lists, d, r);
    RankGains(a.slots[r], a.locals[r], net[r], st.net[r], received[r], incoming, lists.tags[r]);
  }

  lemma ForceDirectionAt(t: Decomposition, a: Arrays, lists: ReverseLists, st: ForceState, d: Direction, r: nat)
    requires a.Valid(t) && a.Fits(st) && InRange(t, a, lists, st, d) && r < |a.slots|
    ensures var next, message := ForceDirection(t, a, lists, st, d), Arriving(t, a, lists, st, d, r);
            && next.net[r] == NetAfter(a.slots[r], a.locals[r], st.net[r], lists.tags[r], |st.buffers[r]|, message)
            && next.buffers[r] == st.buffers[r] + message
  {
  }

  lemma RankGains(slots: seq<Slot>, locals: nat, before: seq<real>, net: seq<real>, received: seq<Entry>,
                  incoming: seq<Entry>, tags: seq<Tag>)
    requires locals <= |slots| == |net| && UniqueTags(slots) && Gained(slots, locals, before, net, received)
    requires TagsAt(tags, |received|, incoming)
    ensures Gained(slots, locals, before, NetAfter(slots, locals, net, tags, |received|, EntryForces(incoming)),
                   received + incoming)
    ensures EntryForces(received + incoming) == EntryForces(received) + EntryForces(incoming)
  {
    GainedMore(slots, locals, before, net, received, incoming);
  }

  lemma ForceStep(t: Decomposition, a: Arrays, net: seq<seq<real>>, ghosts: Entries, st: ForceState,
                  received: Entries, lists: ReverseLists, d: Direction)
    requires InProgress(t, a, net, ghosts, st, received, lists, d)
    ensures InRange(t, a, lists, st, d)
    ensures Follows(a, net, ForceDirection(t, a, lists, st, d), ReverseDirection(t, ghosts, received, d))
  {
    ForceInRange(t, a, net, ghosts, st, received, lists, d);
    var next, more := ForceDirection(t, a, lists, st, d), ReverseDirection(t, ghosts, received, d);
    forall r | 0 <= r < |net|
      ensures next.buffers[r] == EntryForces(more[r]) && Gained(a.slots[r], a.locals[r], net[r], next.net[r], more[r])
    {
      ForceStepRank(t, a, net, ghosts, st, received, lists, d, r, next, more);
    }
  }

  /**
  Replaying the saved lists with forces does to the net forces what the travelling entries say:
  no access is out of range, every local particle gains the forces received under its tag, and
  ghosts keep theirs.
   */
  lemma {:induction false} ForceUpdateFollows(t: Decomposition, a: Arrays, net: seq<seq<real>>, lists: ReverseLists,
                                              start: ForceState, k: nat)
    requires a.Valid(t) && k <= DIRECTIONS
    requires |net| == |a.slots| && forall r :: 0 <= r < |net| ==> |net[r]| == |a.slots[r]|
    requires SavedReverse(t, AllGhosts(t, a, net), lists)
    requires Empty(start, net)
    ensures var st := ForceUpdate(t, a, lists, start, k);
            st.Some? && Follows(a, net, st.value, Returned(t, AllGhosts(t, a, net), k))
  {
    if k == 0 {
      FollowsInitially(t, a, net, start);
    } else {
      ForceUpdateFollows(t, a, net, lists, start, k - 1);
      FollowsNext(t, a, net, lists, start, k - 1);
    }
  }

  lemma FollowsNext(t: Decomposition, a: Arrays, net: seq<seq<real>>, lists: ReverseLists, start: ForceState, d: Direction)
    requires a.Valid(t) && a.Fits(start)
    requires |net| == |a.slots| && forall r :: 0 <= r < |net| ==> |net[r]| == |a.slots[r]|
    requires SavedReverse(t, AllGhosts(t, a, net), lists)
    requires var st := ForceUpdate(t, a, lists, start, d);
             st.Some? && Follows(a, net, st.value, Returned(t, AllGhosts(t, a, net), d))
    ensures var st := ForceUpdate(t, a, lists, start, d + 1);
            st.Some? && Follows(a, net, st.value, Returned(t, AllGhosts(t, a, net), d + 1))
  {
    if t.IsCommunicating(d) {
      FollowsStep(t, a, net, lists, ForceUpdate(t, a, lists, start, d).value, d);
    }
  }

  /** Before the first direction: the given net forces and empty buffers. */
  ghost predicate Empty(st: ForceState, net: seq<seq<real>>) {
    st.net == net && |st.buffers| == |net| && forall r :: 0 <= r < |net| ==> st.buffers[r] == []
  }

  lemma FollowsInitially(t: Decomposition, a: Arrays, net: seq<seq<real>>, start: ForceState)
    requires a.Valid(t) && Empty(start, net)
    requires |net| == |a.slots| && forall r :: 0 <= r < |net| ==> |net[r]| == |a.slots[r]|
    ensures Follows(a, net, start, Returned(t, AllGhosts(t, a, net), 0))
  {
    forall r | 0 <= r < |net| ensures Gained(a.slots[r], a.locals[r], net[r], net[r], []) {
    }
  }

  lemma FollowsStep(t: Decomposition, a: Arrays, net: seq<seq<real>>, lists: ReverseLists, st: ForceState, d: Direction)
    requires a.Valid(t) && a.Fits(st) && t.IsCommunicating(d)
    requires |net| == |a.slots| && forall r :: 0 <= r < |net| ==> |net[r]| == |a.slots[r]|
    requires SavedReverse(t, AllGhosts(t, a, net), lists)
    requires Follows(a, net, st, Returned(t, AllGhosts(t, a, net), d))
    ensures InRange(t, a, lists, st, d)
    ensures Follows(a, net, ForceDirection(t, a, lists, st, d), Returned(t, AllGhosts(t, a, net), d + 1))
  {
    var ghosts := AllGhosts(t, a, net);
    SavedReverseFits(t, ghosts, lists, d);
    ForceStep(t, a, net, ghosts, st, Returned(t, ghosts, d), lists, d);
  }

  /** A rank that holds a tag before the exchange is its owner. */
  lemma HolderIsOwner(world: World, tag: Tag, owner: nat, plan: Plan, r: nat, i: nat)
    requires OwnedOnce(world, tag, owner, plan) && r < |world| && i < |world[r]| && world[r][i].tag == tag
    ensures r == owner
  {
    CopiesOfMember(world[r], i);
  }

  lemma WellPlannedArrays(s: Setting, memory: Payload, world: World, owners: map<Tag, nat>, plans: map<Tag, Plan>)
    requires s.Valid() && |world| == s.torus.Ranks() && WellPlanned(s.torus, world, owners, plans)
    ensures Arrays(Exchange(s, memory, world, DIRECTIONS), Sizes(world)).Valid(s.torus)
  {
    forall r | 0 <= r < |world|
      ensures |world[r]| <= |Exchange(s, memory, world, DIRECTIONS)[r]| && UniqueTags(Exchange(s, memory, world, DIRECTIONS)[r])
    {
      ExchangeGrows(s, memory, world, 0, DIRECTIONS, r);
      ExchangeUnique(s, memory, world, owners, plans, r);
    }
  }

  /**
  The whole reverse force communication, from the ghost exchange through the lists it saves (with
  whatever forces the ghosts had then) to the updated net forces: every local particle ends with
  its own force plus the force of each of its ghosts, on whatever rank, exactly once.
   */
  lemma NetForceIsTotal(s: Setting, memory: Payload, world: World, owners: map<Tag, nat>, plans: map<Tag, Plan>,
                        lists: ReverseLists, routes: Entries, net: seq<seq<real>>, start: ForceState, r: nat, i: nat)
    requires s.Valid() && |world| == |net| == s.torus.Ranks() && Empty(start, net)
    requires WellPlanned(s.torus, world, owners, plans) && r < |world| && i < |world[r]|
    requires |routes| == |net| && SavedReverse(s.torus, routes, lists)
    requires forall q :: 0 <= q < |net| ==>
      var slots := Exchange(s, memory, world, DIRECTIONS)[q];
      |net[q]| == |slots| && GhostsOf(slots, |world[q]|, routes[q])
    ensures var a := Arrays(Exchange(s, memory, world, DIRECTIONS), Sizes(world));
            && a.Valid(s.torus)
            && var st := ForceUpdate(s.torus, a, lists, start, DIRECTIONS);
            && st.Some? && i < |st.value.net[r]| == |net[r]|
            && st.value.net[r][i] == net[r][i] + Sum(GhostForces(AllGhosts(s.torus, a, net), world[r][i].tag))
  {
    WellPlannedArrays(s, memory, world, owners, plans);
    var a := Arrays(Exchange(s, memory, world, DIRECTIONS), Sizes(world));
    var ghosts := AllGhosts(s.torus, a, net);
    GhostsAreAll(s.torus, a, net, ghosts);
    ListsServeAnyForces(s.torus, routes, ghosts, lists);
    ExchangeGrows(s, memory, world, 0, DIRECTIONS, r);
    assert a.slots[r][i] == world[r][i];
    NetGains(s.torus, a, net, lists, start, r, i);
    TotalReturns(s, memory, world, owners, plans, ghosts, r, i);
  }

  lemma GhostsAreAll(t: Decomposition, a: Arrays, net: seq<seq<real>>, ghosts: Entries)
    requires a.Valid(t) && |net| == |a.slots| && forall q :: 0 <= q < |net| ==> |net[q]| == |a.slots[q]|
    requires ghosts == AllGhosts(t, a, net)
    ensures forall q :: 0 <= q < |net| ==> GhostsOf(a.slots[q], a.locals[q], ghosts[q])
  {
  }

  lemma TotalReturns(s: Setting, memory: Payload, world: World, owners: map<Tag, nat>, plans: map<Tag, Plan>, ghosts: Entries,
                     r: nat, i: nat)
    requires s.Valid() && |world| == |ghosts| == s.torus.Ranks() && WellPlanned(s.torus, world, owners, plans)
    requires r < |world| && i < |world[r]|
    requires forall q :: 0 <= q < |world| ==> GhostsOf(Exchange(s, memory, world, DIRECTIONS)[q], |world[q]|, ghosts[q])
    ensures ForceOn(Returned(s.torus, ghosts, DIRECTIONS)[r], world[r][i].tag) == Sum(GhostForces(ghosts, world[r][i].tag))
  {
    var tag := world[r][i].tag;
    HolderIsOwner(world, tag, owners[tag], plans[tag], r, i);
    ReverseForcesArriveOnce(s, memory, world, ghosts, tag, r, plans[tag]);
  }

  /** What the update adds to a local particle. */
  lemma NetGains(t: Decomposition, a: Arrays, net: seq<seq<real>>, lists: ReverseLists, start: ForceState, r: nat, i: nat)
    requires a.Valid(t) && |net| == |a.slots| && forall q :: 0 <= q < |net| ==> |net[q]| == |a.slots[q]|
    requires SavedReverse(t, AllGhosts(t, a, net), lists) && Empty(start, net)
    requires r < |a.slots| && i < a.locals[r] <= |a.slots[r]|
    ensures var st := ForceUpdate(t, a, lists, start, DIRECTIONS);
      && st.Some? && |st.value.net| == |net| && |st.value.net[r]| == |net[r]|
      && st.value.net[r][i] == net[r][i] + ForceOn(Returned(t, AllGhosts(t, a, net), DIRECTIONS)[r], a.slots[r][i].tag)
  {
    ForceUpdateFollows(t, a, net, lists, start, DIRECTIONS);
  }
}
