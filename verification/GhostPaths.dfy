/**
What a ghost carries: the payload of every copy is that of the local particle, delivered along the
itinerary that brought the copy.
 */
module GhostPaths {
  import opened Grid
  import opened BoxDim
  import opened GhostExchange
  import GU = GhostUpdate

  /** A payload after the first `k` directions of an itinerary. */
  function PathLoad(s: Setting, memory: Payload, load: Payload, from: nat, hops: Plan, k: nat): Payload
    requires s.Valid() && from < s.torus.Ranks() && k <= DIRECTIONS
  {
    if k == 0 then load
    else
      var before := PathLoad(s, memory, load, from, hops, k - 1);
      if k - 1 in hops then Delivered(s.flags, s.boxes[Destination(s.torus, from, hops, k)], memory, before) else before
  }

  /** A copy on a rank after `k` directions came along an itinerary of the plan. */
  ghost predicate CameAlong(s: Setting, memory: Payload, load: Payload, owner: nat, plan: Plan, k: nat, rank: nat, copy: Payload)
    requires s.Valid() && owner < s.torus.Ranks() && k <= DIRECTIONS
  {
    exists hops :: hops in Itineraries(s.torus, plan, owner, rank, k) && copy == PathLoad(s, memory, load, owner, hops, k)
  }

  lemma {:induction false} PathLocal(s: Setting, memory: Payload, load: Payload, from: nat, a: Plan, b: Plan, k: nat)
    requires s.Valid() && from < s.torus.Ranks() && k <= DIRECTIONS
    requires forall d: Direction :: d < k ==> (d in a <==> d in b)
    ensures PathLoad(s, memory, load, from, a, k) == PathLoad(s, memory, load, from, b, k)
  {
    if k > 0 {
      var j: nat := k - 1;
      PathLocal(s, memory, load, from, a, b, j);
      DestinationLocal(s.torus, from, a, b, k);
    }
  }

  lemma {:induction false} OutgoingMember(slots: seq<Slot>, dir: Direction, m: Slot)
    requires m in Outgoing(slots, dir)
    ensures m in slots && dir in m.plan
  {
    var n := |slots| - 1;
    if m in Outgoing(slots[..n], dir) {
      OutgoingMember(slots[..n], dir, m);
    }
  }

  /** A copy that was there before. */
  lemma StayedAlong(s: Setting, memory: Payload, load: Payload, owner: nat, plan: Plan, k: nat, next: nat, rank: nat, copy: Payload)
    requires s.Valid() && owner < s.torus.Ranks() && rank < s.torus.Ranks() && next == k + 1 <= DIRECTIONS
    requires CameAlong(s, memory, load, owner, plan, k, rank, copy)
    ensures CameAlong(s, memory, load, owner, plan, next, rank, copy)
  {
    var hops :| hops in Itineraries(s.torus, plan, owner, rank, k) && copy == PathLoad(s, memory, load, owner, hops, k);
    SkippingHop(s.torus, plan, owner, rank, k, hops);
    assert k !in hops;
  }

  /** A copy that has just arrived. */
  lemma ArrivedAlong(s: Setting, memory: Payload, load: Payload, owner: nat, plan: Plan, d: Direction, next: nat, rank: nat, sent: Payload)
    requires s.Valid() && owner < s.torus.Ranks() && rank < s.torus.Ranks() && next == d + 1 && d in Active(s.torus, plan)
    requires CameAlong(s, memory, load, owner, plan, d, s.torus.NeighborRank(rank, Opposite(d)), sent)
    ensures CameAlong(s, memory, load, owner, plan, next, rank, Delivered(s.flags, s.boxes[rank], memory, sent))
  {
    var from := s.torus.NeighborRank(rank, Opposite(d));
    var hops :| hops in Itineraries(s.torus, plan, owner, from, d) && sent == PathLoad(s, memory, load, owner, hops, d);
    TakingHop(s.torus, plan, owner, rank, d, hops);
    PathLocal(s, memory, load, owner, hops, hops + {d}, d);
    assert hops + {d} in Itineraries(s.torus, plan, owner, rank, next);
  }

  /** Every copy of a tag came along an itinerary. */
  ghost predicate AllCame(s: Setting, memory: Payload, load: Payload, world: World, tag: Tag, owner: nat, plan: Plan, k: nat)
    requires s.Valid() && owner < s.torus.Ranks() && k <= DIRECTIONS
  {
    forall r, m :: 0 <= r < |world| && m in world[r] && m.tag == tag ==>
      m.plan == plan && CameAlong(s, memory, load, owner, plan, k, r, m.load)
  }

  lemma CameInitially(s: Setting, memory: Payload, load: Payload, world: World, tag: Tag, owner: nat, plan: Plan)
    requires s.Valid() && |world| == s.torus.Ranks() && OwnedOnce(world, tag, owner, plan)
    requires forall m :: m in world[owner] && m.tag == tag ==> m.load == load
    ensures AllCame(s, memory, load, world, tag, owner, plan, 0)
  {
    forall r, m | 0 <= r < |world| && m in world[r] && m.tag == tag
      ensures m.plan == plan && CameAlong(s, memory, load, owner, plan, 0, r, m.load)
    {
      var i :| 0 <= i < |world[r]| && world[r][i] == m;
      CopiesOfMember(world[r], i);
      var none: Plan := {};
      assert none in Itineraries(s.torus, plan, owner, r, 0);
    }
  }

  lemma CameStep(s: Setting, memory: Payload, load: Payload, world: World, tag: Tag, owner: nat, plan: Plan, d: Direction, next: nat)
    requires s.Valid() && |world| == s.torus.Ranks() && owner < |world| && next == d + 1
    requires AllCame(s, memory, load, world, tag, owner, plan, d)
    ensures AllCame(s, memory, load, ExchangeDirection(s, memory, world, d), tag, owner, plan, next)
  {
    var after := ExchangeDirection(s, memory, world, d);
    forall r, m: Slot | 0 <= r < |after| && m in after[r] && m.tag == tag
      ensures m.plan == plan && CameAlong(s, memory, load, owner, plan, next, r, m.load)
    {
      if m in world[r] {
        StayedAlong(s, memory, load, owner, plan, d, next, r, m.load);
      } else {
        var from := s.torus.NeighborRank(r, Opposite(d));
        var message := Outgoing(world[from], d);
        var j :| 0 <= j < |message| && m == Arrivals(s, r, memory, message)[j];
        OutgoingMember(world[from], d, message[j]);
        ArrivedAlong(s, memory, load, owner, plan, d, next, r, message[j].load);
      }
    }
  }

  /** Every copy of a particle holds its payload as delivered along an itinerary that leads there. */
  lemma {:induction false} LoadsFollowPaths(s: Setting, memory: Payload, load: Payload, world: World, tag: Tag, owner: nat, plan: Plan, k: nat)
    requires s.Valid() && |world| == s.torus.Ranks() && OwnedOnce(world, tag, owner, plan) && k <= DIRECTIONS
    requires forall m :: m in world[owner] && m.tag == tag ==> m.load == load
    ensures AllCame(s, memory, load, Exchange(s, memory, world, k), tag, owner, plan, k)
  {
    if k == 0 {
      CameInitially(s, memory, load, world, tag, owner, plan);
    } else {
      var j: nat := k - 1;
      LoadsFollowPaths(s, memory, load, world, tag, owner, plan, j);
      CameStep(s, memory, load, Exchange(s, memory, world, j), tag, owner, plan, j, k);
    }
  }

  // ----- what the copies hold ---------------------------------------------------------------

  /** A field of a copy: the one of the particle if it is requested, otherwise what the memory held. */
  ghost predicate Carries(flags: CommFlags, memory: Payload, load: Payload, copy: Payload) {
    && copy.velocity == (if flags.velocity then load.velocity else memory.velocity)
    && copy.orientation == (if flags.orientation then load.orientation else memory.orientation)
    && (!flags.position ==>
          copy.position == memory.position && copy.image == if flags.image then load.image else memory.image)
  }

  /** All ranks wrap with boxes of one shape. */
  ghost predicate Shaped(s: Setting, shape: Box) {
    forall r :: 0 <= r < |s.boxes| ==> SameShape(s.boxes[r], shape)
  }

  /** A position of a copy: the same point, and the same unwrapped position if images travel as well. */
  ghost predicate StaysAt(flags: CommFlags, shape: Box, load: Payload, copy: Payload) {
    && (flags.position ==> SamePoint(shape, load.position, copy.position))
    && (flags.position && flags.image ==> shape.Shift(copy.position, copy.image) == shape.Shift(load.position, load.image))
  }

  lemma {:induction false} PathCarries(s: Setting, memory: Payload, load: Payload, from: nat, hops: Plan, k: nat)
    requires s.Valid() && from < s.torus.Ranks() && k <= DIRECTIONS
    ensures var copy := PathLoad(s, memory, load, from, hops, k); copy == load || Carries(s.flags, memory, load, copy)
  {
    if k > 0 {
      PathCarries(s, memory, load, from, hops, k - 1);
    }
  }

  lemma {:induction false} PathStaysAt(s: Setting, memory: Payload, load: Payload, from: nat, hops: Plan, k: nat, shape: Box)
    requires s.Valid() && from < s.torus.Ranks() && k <= DIRECTIONS && Shaped(s, shape)
    ensures StaysAt(s.flags, shape, load, PathLoad(s, memory, load, from, hops, k))
  {
    if k == 0 {
      NoShift(shape, load.position);
    } else {
      var j: nat := k - 1;
      PathStaysAt(s, memory, load, from, hops, j, shape);
      if j in hops {
        var before := PathLoad(s, memory, load, from, hops, j);
        DeliveredStaysAt(s.flags, s.boxes[Destination(s.torus, from, hops, k)], memory, load, before, shape);
      }
    }
  }

  lemma DeliveredStaysAt(flags: CommFlags, box: Box, memory: Payload, load: Payload, sent: Payload, shape: Box)
    requires SameShape(box, shape) && StaysAt(flags, shape, load, sent)
    ensures StaysAt(flags, shape, load, Delivered(flags, box, memory, sent))
  {
    if flags.position {
      var image := if flags.image then sent.image else memory.image;
      var (v, i) := box.Wrap(sent.position, image, NO_FLAGS);
      PointOfShape(box, shape, load.position, sent.position);
      WrapKeepsPoint(box, load.position, sent.position, image, NO_FLAGS);
      PointOfShape(shape, box, load.position, v);
      WrapKeepsUnwrapped(box, sent.position, image, NO_FLAGS);
      SameShift(box, shape, v, i);
      SameShift(box, shape, sent.position, image);
    }
  }

  lemma PointOfShape(a: Box, b: Box, v: Vec, w: Vec)
    requires SameShape(a, b) && SamePoint(b, v, w)
    ensures SamePoint(a, v, w)
  {
    var img :| w == b.Shift(v, img);
    SameShift(a, b, v, img);
  }

  /**
  What every slot of a particle holds after the exchange, on whatever rank: its velocity and orientation
  where they are requested, and a position of the same point, with its image if that is requested too.
   */
  lemma CopiesKeepFields(s: Setting, memory: Payload, load: Payload, world: World, tag: Tag, owner: nat, plan: Plan, shape: Box)
    requires s.Valid() && |world| == s.torus.Ranks() && OwnedOnce(world, tag, owner, plan)
    requires forall m :: m in world[owner] && m.tag == tag ==> m.load == load
    ensures forall r, m :: 0 <= r < |world| && m in Exchange(s, memory, world, DIRECTIONS)[r] && m.tag == tag ==>
      && m.plan == plan && (m.load == load || Carries(s.flags, memory, load, m.load))
      && (Shaped(s, shape) ==> StaysAt(s.flags, shape, load, m.load))
  {
    LoadsFollowPaths(s, memory, load, world, tag, owner, plan, DIRECTIONS);
    forall r, m | 0 <= r < |world| && m in Exchange(s, memory, world, DIRECTIONS)[r] && m.tag == tag
      ensures m.plan == plan && (m.load == load || Carries(s.flags, memory, load, m.load))
      ensures Shaped(s, shape) ==> StaysAt(s.flags, shape, load, m.load)
    {
      var hops :| hops in Itineraries(s.torus, plan, owner, r, DIRECTIONS)
        && m.load == PathLoad(s, memory, load, owner, hops, DIRECTIONS);
      PathCarries(s, memory, load, owner, hops, DIRECTIONS);
      if Shaped(s, shape) {
        PathStaysAt(s, memory, load, owner, hops, DIRECTIONS, shape);
      }
    }
  }

  /** A slot holds the current requested fields of a particle. */
  ghost predicate IsCurrent(flags: CommFlags, now: Payload, slot: Payload) {
    (flags.velocity ==> slot.velocity == now.velocity) && (flags.orientation ==> slot.orientation == now.orientation)
  }

  lemma OwnedLayout(a: World, b: World, tag: Tag, owner: nat, plan: Plan)
    requires OwnedOnce(a, tag, owner, plan) && GU.SameLayouts(a, b)
    ensures OwnedOnce(b, tag, owner, plan)
  {
    forall r | 0 <= r < |b| ensures PlanOf(b[r], tag, plan) && Copies(b[r], tag) == if r == owner then 1 else 0 {
      CopiesSameTags(a[r], b[r], tag);
    }
  }

  /** With one copy there is one payload. */
  lemma OneLoad(slots: seq<Slot>, a: Slot, b: Slot)
    requires a in slots && b in slots && a.tag == b.tag && Copies(slots, a.tag) == 1
    ensures a == b
  {
    var i, j :| 0 <= i < |slots| && slots[i] == a && 0 <= j < |slots| && slots[j] == b;
    if i < j {
      GU.TwoCopies(slots, i, j);
    } else if j < i {
      GU.TwoCopies(slots, j, i);
    }
  }

  /**
  After an update every slot, local or ghost, holds the current velocity and orientation of its particle,
  and a current position, where they are requested.
   */
  lemma UpdateKeepsFields(made: Setting, memory: Payload, prior: World, owners: map<Tag, nat>, plans: map<Tag, Plan>, saved: GU.Saved,
                          s: Setting, now: World, arrays: World, shape: Box)
    requires made.Valid() && s.Valid() && made.torus == s.torus
    requires |prior| == s.torus.Ranks() && GU.WellPlanned(s.torus, prior, owners, plans) && GU.SavedBy(made, memory, prior, saved)
    requires GU.SameLayouts(prior, now)
    requires GU.SameLayouts(Exchange(made, memory, prior, DIRECTIONS), arrays) && GU.AllMatch(s.flags, arrays, now)
    ensures var u := GU.Update(s, GU.Sizes(prior), saved, arrays, DIRECTIONS);
      u.Some? && |u.value| == |now| && forall q, n, r, m ::
        0 <= q < |now| && n in now[q] && 0 <= r < |now| && m in u.value[r] && m.tag == n.tag ==>
          && IsCurrent(s.flags, n.load, m.load)
          && (Shaped(s, shape) && s.flags.position ==> SamePoint(shape, n.load.position, m.load.position))
  {
    GU.UpdateOfWellPlanned(made, memory, prior, owners, plans, saved, s, memory, now, arrays);
    GU.ExchangeLayout(made, s, memory, memory, prior, now, DIRECTIONS);
    var u: World := GU.Update(s, GU.Sizes(prior), saved, arrays, DIRECTIONS).value;
    var built: World := Exchange(s, memory, now, DIRECTIONS);
    forall q, n, r, m | 0 <= q < |now| && n in now[q] && 0 <= r < |now| && m in u[r] && m.tag == n.tag
      ensures IsCurrent(s.flags, n.load, m.load)
      ensures Shaped(s, shape) && s.flags.position ==> SamePoint(shape, n.load.position, m.load.position)
    {
      var i :| 0 <= i < |u[r]| && u[r][i] == m;
      assert |u[r]| == |built[r]| && built[r][i] in built[r] && GU.Agree(s.flags, m.load, built[r][i].load);
      SlotIsCurrent(s, memory, prior, now, owners, plans, shape, q, n, r, built[r][i]);
    }
  }

  lemma SlotIsCurrent(s: Setting, memory: Payload, prior: World, now: World, owners: map<Tag, nat>, plans: map<Tag, Plan>, shape: Box,
                      q: nat, n: Slot, r: nat, m: Slot)
    requires s.Valid() && |prior| == s.torus.Ranks() && GU.WellPlanned(s.torus, prior, owners, plans) && GU.SameLayouts(prior, now)
    requires q < |now| && n in now[q] && r < |now| && m in Exchange(s, memory, now, DIRECTIONS)[r] && m.tag == n.tag
    ensures IsCurrent(s.flags, n.load, m.load)
    ensures Shaped(s, shape) && s.flags.position ==> SamePoint(shape, n.load.position, m.load.position)
  {
    var i :| 0 <= i < |now[q]| && now[q][i] == n;
    assert prior[q][i].tag == n.tag;
    var (owner, plan) := (owners[n.tag], plans[n.tag]);
    OwnedLayout(prior, now, n.tag, owner, plan);
    CopiesOfMember(now[q], i);
    forall k | k in now[owner] && k.tag == n.tag ensures k.load == n.load {
      OneLoad(now[owner], k, n);
    }
    CopiesKeepFields(s, memory, n.load, now, n.tag, owner, plan, shape);
  }
}
