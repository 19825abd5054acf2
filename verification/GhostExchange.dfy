/**
Ghost exchange. Every particle carries a plan, a set of directions. The six directions are
processed in order; in each one every rank sends all its slots, local or ghost, whose plan
holds that direction to its neighbour, which appends them behind its own slots.
 */
module GhostExchange {
  import opened Grid
  import opened BoxDim
  import opened Sequences

  type Tag = nat

  /** A bit field over the six directions, as the set of its bits. */
  type Plan = set<Direction>

  /** The fields that travel with a ghost and are refreshed between exchanges, and its image. */
  datatype Payload = Payload(position: Vec, image: Image, velocity: Vec, orientation: Vec)

  /** Which fields are requested for communication. */
  datatype CommFlags = CommFlags(position: bool, image: bool, velocity: bool, orientation: bool)

  /** One entry of the particle arrays of a rank, together with its plan. */
  datatype Slot = Slot(tag: Tag, plan: Plan, load: Payload)

  /** All ranks: the slots of each, local particles first. */
  type World = seq<seq<Slot>>

  /** What a direction needs besides the slots: the torus, the wrapping boxes and the flags. */
  datatype Setting = Setting(torus: Decomposition, boxes: seq<Box>, flags: CommFlags) {
    ghost predicate Valid() {
      torus.Valid() && |boxes| == torus.Ranks()
    }
  }

  // ----- one direction ----------------------------------------------------------------------

  /** The slots sent in a direction, in array order. */
  function Outgoing(slots: seq<Slot>, dir: Direction): seq<Slot> {
    if slots == [] then []
    else
      var n := |slots| - 1;
      Outgoing(slots[..n], dir) + if dir in slots[n].plan then [slots[n]] else []
  }

  /**
  What a receiving array element holds afterwards: requested fields are overwritten, the others
  keep what the memory held, and the position is wrapped by the receiver's box.
   */
  function Delivered(flags: CommFlags, box: Box, memory: Payload, sent: Payload): Payload {
    var image := if flags.image then sent.image else memory.image;
    var (p, i) := if flags.position then box.Wrap(sent.position, image, NO_FLAGS) else (memory.position, image);
    Payload(p, i,
            if flags.velocity then sent.velocity else memory.velocity,
            if flags.orientation then sent.orientation else memory.orientation)
  }

  /** Exactly the slots whose plan holds the direction are sent, in the order of the array. */
  lemma {:induction false} OutgoingIsSelection(slots: seq<Slot>, dir: Direction) returns (at: seq<nat>)
    ensures IsSelection(slots, at, Outgoing(slots, dir))
    ensures forall i: nat :: i in at <==> i < |slots| && dir in slots[i].plan
  {
    if slots == [] {
      at := [];
    } else {
      var n := |slots| - 1;
      at := OutgoingIsSelection(slots[..n], dir);
      SelectionGrows(slots[..n], at, Outgoing(slots[..n], dir), slots[n]);
      assert slots == slots[..n] + [slots[n]];
      if dir in slots[n].plan {
        at := at + [n];
      }
    }
  }

  /** The received message as new slots; `memory` is what the grown arrays held before. */
  function Arrivals(s: Setting, rank: nat, memory: Payload, message: seq<Slot>): (r: seq<Slot>)
    requires s.Valid() && rank < s.torus.Ranks()
    ensures |r| == |message|
  {
    seq(|message|, i requires 0 <= i < |message| =>
      message[i].(load := Delivered(s.flags, s.boxes[rank], memory, message[i].load)))
  }

  /** One direction on all ranks at once: send to `dir`, receive from its opposite, append. */
  function ExchangeDirection(s: Setting, memory: Payload, world: World, dir: Direction): (r: World)
    requires s.Valid() && |world| == s.torus.Ranks()
    ensures |r| == |world|
  {
    if s.torus.IsCommunicating(dir) then
      seq(|world|, rank requires 0 <= rank < |world| =>
        world[rank]
        + Arrivals(s, rank, memory, Outgoing(world[s.torus.NeighborRank(rank, Opposite(dir))], dir)))
    else
      world
  }

  /** Behind its own slots a rank has the slots that its neighbour on the other side plans to send, in their order. */
  lemma ReceivedInOrder(s: Setting, memory: Payload, world: World, dir: Direction, rank: nat) returns (at: seq<nat>)
    requires s.Valid() && rank < |world| == s.torus.Ranks() && s.torus.IsCommunicating(dir)
    ensures var (from, after) := (world[s.torus.NeighborRank(rank, Opposite(dir))], ExchangeDirection(s, memory, world, dir)[rank]);
      && Increasing(at) && (forall i: nat :: i in at <==> i < |from| && dir in from[i].plan)
      && |after| == |world[rank]| + |at| && after[..|world[rank]|] == world[rank]
      && forall k :: 0 <= k < |at| ==>
           && at[k] < |from|
           && var (got, sent) := (after[|world[rank]| + k], from[at[k]]); got.tag == sent.tag && got.plan == sent.plan
  {
    at := OutgoingIsSelection(world[s.torus.NeighborRank(rank, Opposite(dir))], dir);
  }

  /** The first `k` directions. */
  function Exchange(s: Setting, memory: Payload, world: World, k: nat): (r: World)
    requires s.Valid() && |world| == s.torus.Ranks() && k <= DIRECTIONS
    ensures |r| == |world|
  {
    if k == 0 then world
    else ExchangeDirection(s, memory, Exchange(s, memory, world, k - 1), k - 1)
  }

  // ----- counting copies --------------------------------------------------------------------

  /** The number of slots that hold a tag. */
  function Copies(slots: seq<Slot>, tag: Tag): nat {
    if slots == [] then 0
    else (if slots[0].tag == tag then 1 else 0) + Copies(slots[1..], tag)
  }

  lemma {:induction false} CopiesAppend(a: seq<Slot>, b: seq<Slot>, tag: Tag)
    ensures Copies(a + b, tag) == Copies(a, tag) + Copies(b, tag)
  {
    if a == [] {
      assert a + b == b;
    } else {
      assert (a + b)[1..] == a[1..] + b;
      CopiesAppend(a[1..], b, tag);
    }
  }

  lemma {:induction false} CopiesOfMember(slots: seq<Slot>, i: nat)
    requires i < |slots|
    ensures Copies(slots, slots[i].tag) >= 1
  {
    if i > 0 {
      CopiesOfMember(slots[1..], i - 1);
    }
  }

  /** Every copy of a tag carries the same plan. */
  ghost predicate PlanOf(slots: seq<Slot>, tag: Tag, plan: Plan) {
    forall i :: 0 <= i < |slots| && slots[i].tag == tag ==> slots[i].plan == plan
  }

  /** A rank forwards all its copies of a tag or none. */
  lemma {:induction false} CopiesOutgoing(slots: seq<Slot>, dir: Direction, tag: Tag, plan: Plan)
    requires PlanOf(slots, tag, plan)
    ensures Copies(Outgoing(slots, dir), tag) == if dir in plan then Copies(slots, tag) else 0
    ensures PlanOf(Outgoing(slots, dir), tag, plan)
  {
    if slots != [] {
      var n := |slots| - 1;
      CopiesOutgoing(slots[..n], dir, tag, plan);
      CopiesAppend(Outgoing(slots[..n], dir), if dir in slots[n].plan then [slots[n]] else [], tag);
      assert slots == slots[..n] + [slots[n]];
      CopiesAppend(slots[..n], [slots[n]], tag);
    }
  }

  lemma {:induction false} CopiesSameTags(a: seq<Slot>, b: seq<Slot>, tag: Tag)
    requires |a| == |b| && forall i :: 0 <= i < |a| ==> a[i].tag == b[i].tag
    ensures Copies(a, tag) == Copies(b, tag)
  {
    if a != [] {
      CopiesSameTags(a[1..], b[1..], tag);
    }
  }

  /** The copies after one direction: those already there, and those of the sending neighbour. */
  lemma CopiesStep(s: Setting, memory: Payload, world: World, dir: Direction, tag: Tag, plan: Plan, rank: nat)
    requires s.Valid() && rank < |world| == s.torus.Ranks()
    requires forall r :: 0 <= r < |world| ==> PlanOf(world[r], tag, plan)
    ensures var next := ExchangeDirection(s, memory, world, dir);
            && PlanOf(next[rank], tag, plan)
            && Copies(next[rank], tag)
               == Copies(world[rank], tag)
                  + if s.torus.IsCommunicating(dir) && dir in plan
                    then Copies(world[s.torus.NeighborRank(rank, Opposite(dir))], tag) else 0
  {
    if s.torus.IsCommunicating(dir) {
      var from := s.torus.NeighborRank(rank, Opposite(dir));
      var message := Outgoing(world[from], dir);
      var news := Arrivals(s, rank, memory, message);
      CopiesOutgoing(world[from], dir, tag, plan);
      CopiesSameTags(news, message, tag);
      CopiesAppend(world[rank], news, tag);
    }
  }

  // ----- itineraries ------------------------------------------------------------------------

  /** The directions of a plan that communicate. */
  function Active(t: Decomposition, plan: Plan): Plan {
    set d | d in plan && t.IsCommunicating(d)
  }

  /** The rank reached from `from` by hopping along the first `k` directions that are in `hops`. */
  function Destination(t: Decomposition, from: nat, hops: Plan, k: nat): (r: nat)
    requires t.Valid() && from < t.Ranks() && k <= DIRECTIONS
    ensures r < t.Ranks()
  {
    if k == 0 then from
    else
      var r := Destination(t, from, hops, k - 1);
      if k - 1 in hops then t.NeighborRank(r, k - 1) else r
  }

  function Below(k: nat): (below: set<Direction>)
    requires k <= DIRECTIONS
    ensures forall d: Direction :: d in below <==> d < k
  {
    if k == 0 then {} else Below(k - 1) + {k - 1}
  }

  /** The itineraries within the first `k` directions of a plan that lead from one rank to another. */
  function Itineraries(t: Decomposition, plan: Plan, from: nat, rank: nat, k: nat): set<Plan>
    requires t.Valid() && from < t.Ranks() && k <= DIRECTIONS
  {
    set hops | hops <= Active(t, plan) * Below(k) && Destination(t, from, hops, k) == rank
  }

  lemma {:induction false} DestinationLocal(t: Decomposition, from: nat, a: Plan, b: Plan, k: nat)
    requires t.Valid() && from < t.Ranks() && k <= DIRECTIONS
    requires forall d: Direction :: d < k ==> (d in a <==> d in b)
    ensures Destination(t, from, a, k) == Destination(t, from, b, k)
  {
    if k > 0 {
      DestinationLocal(t, from, a, b, k - 1);
    }
  }

  /** An itinerary through direction `k` either skips it or ends with that hop. */
  lemma ItinerariesSplit(t: Decomposition, plan: Plan, from: nat, rank: nat, k: nat)
    requires t.Valid() && from < t.Ranks() && rank < t.Ranks() && k < DIRECTIONS
    ensures var d: Direction := k;
            |Itineraries(t, plan, from, rank, k + 1)|
            == |Itineraries(t, plan, from, rank, k)|
               + if d in Active(t, plan)
                 then |Itineraries(t, plan, from, t.NeighborRank(rank, Opposite(d)), k)| else 0
  {
    var d: Direction := k;
    var all := Itineraries(t, plan, from, rank, k + 1);
    var without := Itineraries(t, plan, from, rank, k);
    var with := set hops | hops in all && d in hops;
    forall hops: Plan ensures hops in all && d !in hops <==> hops in without {
      SkippingHop(t, plan, from, rank, k, hops);
    }
    assert all == without + with;
    assert without !! with;
    if d in Active(t, plan) {
      var before := Itineraries(t, plan, from, t.NeighborRank(rank, Opposite(d)), k);
      forall hops: Plan ensures hops in before <==> d !in hops && hops + {d} in with {
        TakingHop(t, plan, from, rank, k, hops);
      }
      SameSize(before, with, d);
    } else {
      assert with == {};
    }
  }

  lemma SkippingHop(t: Decomposition, plan: Plan, from: nat, rank: nat, k: nat, hops: Plan)
    requires t.Valid() && from < t.Ranks() && rank < t.Ranks() && k < DIRECTIONS
    ensures hops in Itineraries(t, plan, from, rank, k + 1) && k !in hops
            <==> hops in Itineraries(t, plan, from, rank, k)
  {
    if k !in hops {
      assert hops <= Active(t, plan) * Below(k + 1) <==> hops <= Active(t, plan) * Below(k);
    }
  }

  lemma TakingHop(t: Decomposition, plan: Plan, from: nat, rank: nat, k: nat, hops: Plan)
    requires t.Valid() && from < t.Ranks() && rank < t.Ranks() && k < DIRECTIONS && k in Active(t, plan)
    ensures var d: Direction := k;
            hops in Itineraries(t, plan, from, t.NeighborRank(rank, Opposite(d)), k)
            <==> d !in hops && hops + {d} in Itineraries(t, plan, from, rank, k + 1)
  {
    var d: Direction := k;
    if d !in hops {
      assert hops <= Active(t, plan) * Below(k) <==> hops + {d} <= Active(t, plan) * Below(k + 1);
      DestinationLocal(t, from, hops, hops + {d}, k);
      NeighborOpposite(t, rank, Opposite(d));
      NeighborOpposite(t, Destination(t, from, hops, k), d);
    }
  }

  /** Adding one element to every member of a family that lacks it keeps its size. */
  lemma {:induction false} SameSize(a: set<Plan>, b: set<Plan>, d: Direction)
    requires Extended(a, b, d)
    ensures |a| == |b|
    decreases |a|
  {
    if a == {} {
      NothingExtended(b, d);
    } else {
      var hops :| hops in a;
      RemovePair(a, b, d, hops);
      SameSize(a - {hops}, b - {hops + {d}}, d);
    }
  }

  lemma NothingExtended(b: set<Plan>, d: Direction)
    requires Extended({}, b, d)
    ensures b == {}
  {
    forall hops: Plan ensures hops !in b {
      assert d in hops ==> hops == (hops - {d}) + {d};
      assert hops - {d} !in {};
    }
  }

  /** The members of `b` are those of `a` with `d` added. */
  ghost predicate Extended(a: set<Plan>, b: set<Plan>, d: Direction) {
    (forall hops :: hops in a <==> d !in hops && hops + {d} in b) && forall hops :: hops in b ==> d in hops
  }

  lemma RemovePair(a: set<Plan>, b: set<Plan>, d: Direction, hops: Plan)
    requires Extended(a, b, d) && hops in a
    ensures Extended(a - {hops}, b - {hops + {d}}, d)
  {
    forall h: Plan ensures h in a - {hops} <==> d !in h && h + {d} in b - {hops + {d}} {
      if d !in h && h + {d} == hops + {d} {
        assert h == (h + {d}) - {d} == (hops + {d}) - {d} == hops;
      }
    }
  }

  // ----- delivery ---------------------------------------------------------------------------

  /** Before the exchange every tag is held once, by its owner, with its plan. */
  ghost predicate OwnedOnce(world: World, tag: Tag, owner: nat, plan: Plan) {
    && owner < |world|
    && (forall r :: 0 <= r < |world| ==> PlanOf(world[r], tag, plan))
    && (forall r :: 0 <= r < |world| ==> Copies(world[r], tag) == if r == owner then 1 else 0)
  }

  /** On every rank the copies of a particle are as many as the itineraries that lead there. */
  ghost predicate Tracked(t: Decomposition, world: World, tag: Tag, owner: nat, plan: Plan, k: nat)
    requires t.Valid() && owner < t.Ranks() && k <= DIRECTIONS
  {
    forall r :: 0 <= r < |world| ==>
      PlanOf(world[r], tag, plan) && Copies(world[r], tag) == |Itineraries(t, plan, owner, r, k)|
  }

  lemma TrackedInitially(t: Decomposition, world: World, tag: Tag, owner: nat, plan: Plan)
    requires t.Valid() && |world| == t.Ranks() && OwnedOnce(world, tag, owner, plan)
    ensures Tracked(t, world, tag, owner, plan, 0)
  {
    forall r | 0 <= r < |world|
      ensures Copies(world[r], tag) == |Itineraries(t, plan, owner, r, 0)|
    {
      var none: Plan := {};
      assert Active(t, plan) * Below(0) == none;
      var found := Itineraries(t, plan, owner, r, 0);
      forall hops | hops in found ensures hops == none && r == owner {
      }
      assert found == if r == owner then {none} else {};
    }
  }

  lemma TrackedStep(s: Setting, memory: Payload, before: World, tag: Tag, owner: nat, plan: Plan, k: nat)
    requires s.Valid() && |before| == s.torus.Ranks() && owner < |before| && k < DIRECTIONS
    requires Tracked(s.torus, before, tag, owner, plan, k)
    ensures Tracked(s.torus, ExchangeDirection(s, memory, before, k), tag, owner, plan, k + 1)
  {
    forall rank | 0 <= rank < |before|
      ensures var after := ExchangeDirection(s, memory, before, k);
              && PlanOf(after[rank], tag, plan)
              && Copies(after[rank], tag) == |Itineraries(s.torus, plan, owner, rank, k + 1)|
    {
      CopiesStep(s, memory, before, k, tag, plan, rank);
      ItinerariesSplit(s.torus, plan, owner, rank, k);
    }
  }

  /**
  The copies of a particle on a rank after the first `k` directions are the itineraries that
  lead there, for every plan whatsoever.
   */
  lemma {:induction false} CopiesAreItineraries(s: Setting, memory: Payload, world: World, tag: Tag, owner: nat,
                                                plan: Plan, k: nat)
    requires s.Valid() && |world| == s.torus.Ranks() && k <= DIRECTIONS
    requires OwnedOnce(world, tag, owner, plan)
    ensures Tracked(s.torus, Exchange(s, memory, world, k), tag, owner, plan, k)
  {
    if k == 0 {
      TrackedInitially(s.torus, world, tag, owner, plan);
    } else {
      CopiesAreItineraries(s, memory, world, tag, owner, plan, k - 1);
      TrackedStep(s, memory, Exchange(s, memory, world, k - 1), tag, owner, plan, k - 1);
    }
  }

  /** A plan without both directions of one axis. */
  ghost predicate NoOpposites(plan: Plan) {
    forall d :: d in plan ==> Opposite(d) !in plan
  }

  /** One coordinate after the hops along its axis. */
  function AxisAfter(c: nat, len: nat, forward: bool, backward: bool): int {
    var c1 := if forward then Wrapped(c + 1, len) else c;
    if backward then Wrapped(c1 - 1, len) else c1
  }

  lemma HopAxis(t: Decomposition, from: nat, hops: Plan, k: nat)
    requires t.Valid() && from < t.Ranks() && k < DIRECTIONS
    ensures var d: Direction := k;
            t.Position(Destination(t, from, hops, k + 1))
            == if d in hops then Hop(t.grid, t.Position(Destination(t, from, hops, k)), d)
               else t.Position(Destination(t, from, hops, k))
  {
    var d: Direction := k;
    PositionOfRankAt(t, Hop(t.grid, t.Position(Destination(t, from, hops, k)), d));
  }

  /** Each coordinate of the destination depends on the two hops along its own axis only. */
  lemma DestinationPosition(t: Decomposition, from: nat, hops: Plan)
    requires t.Valid() && from < t.Ranks()
    ensures var p, q := t.Position(from), t.Position(Destination(t, from, hops, DIRECTIONS));
            && q.x == AxisAfter(p.x, t.grid.w, 0 in hops, 1 in hops)
            && q.y == AxisAfter(p.y, t.grid.h, 2 in hops, 3 in hops)
            && q.z == AxisAfter(p.z, t.grid.d, 4 in hops, 5 in hops)
  {
    AxisHops(t, from, hops, 0);
    AxisHops(t, from, hops, 1);
    AxisHops(t, from, hops, 2);
    assert Destination(t, from, hops, 0) == from;
  }

  lemma AxisHops(t: Decomposition, from: nat, hops: Plan, axis: nat)
    requires t.Valid() && from < t.Ranks() && axis < 3
    ensures var p, q := t.Position(Destination(t, from, hops, 2 * axis)),
                        t.Position(Destination(t, from, hops, 2 * axis + 2));
            && q.x == (if axis == 0 then AxisAfter(p.x, t.grid.w, 0 in hops, 1 in hops) else p.x)
            && q.y == (if axis == 1 then AxisAfter(p.y, t.grid.h, 2 in hops, 3 in hops) else p.y)
            && q.z == (if axis == 2 then AxisAfter(p.z, t.grid.d, 4 in hops, 5 in hops) else p.z)
  {
    HopAxis(t, from, hops, 2 * axis);
    HopAxis(t, from, hops, 2 * axis + 1);
  }

  /** Different itineraries of a plan without opposites end on different ranks. */
  lemma DestinationsDiffer(t: Decomposition, from: nat, plan: Plan, a: Plan, b: Plan)
    requires t.Valid() && from < t.Ranks() && NoOpposites(Active(t, plan))
    requires a <= Active(t, plan) && b <= Active(t, plan)
    requires Destination(t, from, a, DIRECTIONS) == Destination(t, from, b, DIRECTIONS)
    ensures a == b
  {
    DestinationPosition(t, from, a);
    DestinationPosition(t, from, b);
    var active := Active(t, plan);
    assert Opposite(0) == 1 && Opposite(2) == 3 && Opposite(4) == 5;
    assert !(0 in active && 1 in active) && !(2 in active && 3 in active) && !(4 in active && 5 in active);
    forall d: Direction ensures d in a <==> d in b {
      AxisAgrees(t, active, a, b, t.Position(from), d);
    }
  }

  lemma AxisAgrees(t: Decomposition, active: Plan, a: Plan, b: Plan, p: Cell, d: Direction)
    requires t.Valid() && t.grid.Contains(p)
    requires a <= active && b <= active && forall e :: e in active ==> t.IsCommunicating(e)
    requires !(0 in active && 1 in active) && !(2 in active && 3 in active) && !(4 in active && 5 in active)
    requires AxisAfter(p.x, t.grid.w, 0 in a, 1 in a) == AxisAfter(p.x, t.grid.w, 0 in b, 1 in b)
    requires AxisAfter(p.y, t.grid.h, 2 in a, 3 in a) == AxisAfter(p.y, t.grid.h, 2 in b, 3 in b)
    requires AxisAfter(p.z, t.grid.d, 4 in a, 5 in a) == AxisAfter(p.z, t.grid.d, 4 in b, 5 in b)
    ensures d in a <==> d in b
  {
  }

  /** Is there an itinerary of the plan from `owner` to `rank`? */
  ghost predicate Reached(t: Decomposition, plan: Plan, owner: nat, rank: nat)
    requires t.Valid() && owner < t.Ranks()
  {
    exists hops :: hops <= Active(t, plan) && Destination(t, owner, hops, DIRECTIONS) == rank
  }

  /** Without opposites there is at most one itinerary to each rank, and only the empty one stays. */
  lemma ItinerariesUnique(t: Decomposition, plan: Plan, owner: nat, rank: nat)
    requires t.Valid() && owner < t.Ranks() && rank < t.Ranks() && NoOpposites(Active(t, plan))
    ensures |Itineraries(t, plan, owner, rank, DIRECTIONS)| == if Reached(t, plan, owner, rank) then 1 else 0
    ensures Itineraries(t, plan, owner, owner, DIRECTIONS) == {{}}
  {
    assert Active(t, plan) * Below(DIRECTIONS) == Active(t, plan);
    var found := Itineraries(t, plan, owner, rank, DIRECTIONS);
    if hops :| hops <= Active(t, plan) && Destination(t, owner, hops, DIRECTIONS) == rank {
      forall other | other in found ensures other == hops {
        DestinationsDiffer(t, owner, plan, hops, other);
      }
      assert found == {hops};
    } else {
      assert found == {};
    }
    OnlyStaying(t, plan, owner);
  }

  lemma OnlyStaying(t: Decomposition, plan: Plan, owner: nat)
    requires t.Valid() && owner < t.Ranks() && NoOpposites(Active(t, plan))
    ensures Itineraries(t, plan, owner, owner, DIRECTIONS) == {{}}
  {
    assert Active(t, plan) * Below(DIRECTIONS) == Active(t, plan);
    StayingPut(t, owner, DIRECTIONS);
    forall hops | hops in Itineraries(t, plan, owner, owner, DIRECTIONS) ensures hops == {} {
      DestinationsDiffer(t, owner, plan, hops, {});
    }
  }

  lemma {:induction false} StayingPut(t: Decomposition, from: nat, k: nat)
    requires t.Valid() && from < t.Ranks() && k <= DIRECTIONS
    ensures Destination(t, from, {}, k) == from
  {
    if k > 0 {
      StayingPut(t, from, k - 1);
    }
  }

  /**
  Exact ghost delivery: if the plan has at most one communicating direction per axis, the
  particle ends up exactly once on every rank that one of its itineraries reaches, and nowhere
  else; on its owner only the local particle itself is left.
   */
  lemma GhostsDeliveredExactlyOnce(s: Setting, memory: Payload, world: World, tag: Tag, owner: nat, plan: Plan, rank: nat)
    requires s.Valid() && rank < |world| == s.torus.Ranks()
    requires OwnedOnce(world, tag, owner, plan) && NoOpposites(Active(s.torus, plan))
    ensures Copies(Exchange(s, memory, world, DIRECTIONS)[rank], tag)
            == if Reached(s.torus, plan, owner, rank) then 1 else 0
    ensures Copies(Exchange(s, memory, world, DIRECTIONS)[owner], tag) == 1
  {
    CopiesAreItineraries(s, memory, world, tag, owner, plan, DIRECTIONS);
    ItinerariesUnique(s.torus, plan, owner, rank);
  }

  /**
  The plan condition is exact: no rank ends up with a second copy of the particle if and only
  if the plan has no two opposite communicating directions.
   */
  lemma SingleCopiesIffNoOpposites(s: Setting, memory: Payload, world: World, tag: Tag, owner: nat, plan: Plan)
    requires s.Valid() && |world| == s.torus.Ranks()
    requires OwnedOnce(world, tag, owner, plan)
    ensures (forall r :: 0 <= r < |world| ==> Copies(Exchange(s, memory, world, DIRECTIONS)[r], tag) <= 1)
            <==> NoOpposites(Active(s.torus, plan))
  {
    CopiesAreItineraries(s, memory, world, tag, owner, plan, DIRECTIONS);
    if NoOpposites(Active(s.torus, plan)) {
      forall r | 0 <= r < |world|
        ensures |Itineraries(s.torus, plan, owner, r, DIRECTIONS)| <= 1
      {
        ItinerariesUnique(s.torus, plan, owner, r);
      }
    } else {
      OppositesReturn(s.torus, plan, owner);
      assert Copies(Exchange(s, memory, world, DIRECTIONS)[owner], tag) >= 2;
    }
  }

  /** Two opposite directions bring a second copy back to the owner. */
  lemma OppositesReturn(t: Decomposition, plan: Plan, owner: nat)
    requires t.Valid() && owner < t.Ranks() && !NoOpposites(Active(t, plan))
    ensures |Itineraries(t, plan, owner, owner, DIRECTIONS)| >= 2
  {
    var d :| d in Active(t, plan) && Opposite(d) in Active(t, plan);
    RoundTrip(t, owner, d);
    StayingPut(t, owner, DIRECTIONS);
    var stay: Plan, round: Plan := {}, {d, Opposite(d)};
    assert d in round;
    assert Active(t, plan) * Below(DIRECTIONS) == Active(t, plan);
    SubsetSize({stay, round}, Itineraries(t, plan, owner, owner, DIRECTIONS));
  }

  lemma RoundTrip(t: Decomposition, from: nat, d: Direction)
    requires t.Valid() && from < t.Ranks()
    ensures Destination(t, from, {d, Opposite(d)}, DIRECTIONS) == from
  {
    var hops: Plan := {d, Opposite(d)};
    var p, q := t.Position(from), t.Position(Destination(t, from, hops, DIRECTIONS));
    DestinationPosition(t, from, hops);
    assert q == p;
    RankAtPosition(t, from);
    RankAtPosition(t, Destination(t, from, hops, DIRECTIONS));
  }
}
