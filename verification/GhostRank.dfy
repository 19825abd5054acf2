/**
The ghost arrays of one rank and the loops that work on them: packing and receiving ghosts,
packing and receiving updates, and sending forces back. Each loop is proved to do what the
exchange, update and reverse force models say one rank does in one direction.
 */
module GhostRank {
  import opened Grid
  import opened BoxDim
  import opened RankVectors
  import opened GhostExchange
  import opened GhostUpdate
  import opened ReverseForces

  /** Parallel arrays read as one array of slots. */
  function SlotsOf(tags: seq<Tag>, plans: seq<Plan>, loads: seq<Payload>): (s: seq<Slot>)
    requires |tags| == |plans| == |loads|
    ensures |s| == |tags|
  {
    seq(|tags|, i requires 0 <= i < |tags| => Slot(tags[i], plans[i], loads[i]))
  }

  class GhostArrays {
    // particle data: local particles first, ghosts behind them
    var locals: nat
    var tags: seq<Tag>
    var plans: seq<Plan>
    var loads: seq<Payload>
    var rtag: map<Tag, nat>

    // lists saved by an exchange, one per direction
    var copyGhosts: seq<seq<Tag>>
    var numReceived: seq<nat>

    // reverse communication
    var planReverse: seq<Plan>
    var tagReverse: seq<Tag>
    var copyReverse: seq<seq<Tag>>
    var forwardReverse: seq<seq<nat>>
    var netForce: seq<real>
    var reverseBuffer: seq<real>

    ghost predicate Valid()
      reads this
    {
      && |tags| == |plans| == |loads| && locals <= |tags|
      && |copyGhosts| == |numReceived| == |copyReverse| == |forwardReverse| == DIRECTIONS
      && rtag == ReverseTags(Slots())
    }

    function Slots(): seq<Slot>
      requires |tags| == |plans| == |loads|
      reads this`tags, this`plans, this`loads
    {
      SlotsOf(tags, plans, loads)
    }

    /** Copy every slot whose plan holds the direction into the send buffer and note its tag. */
    method PackGhosts(dir: Direction) returns (message: seq<Slot>)
      requires Valid()
      modifies this`copyGhosts
      ensures Valid()
      ensures message == Outgoing(Slots(), dir)
      ensures copyGhosts == old(copyGhosts)[dir := Tags(message)]
    {
      message := [];
      var copied: seq<Tag> := [];
      for idx := 0 to |tags|
        invariant message == Outgoing(Slots()[..idx], dir) && copied == Tags(message)
      {
        assert Slots()[..idx + 1][..idx] == Slots()[..idx];
        if dir in plans[idx] {
          message := message + [Slot(tags[idx], plans[idx], loads[idx])];
          copied := copied + [tags[idx]];
        }
      }
      assert Slots()[..|tags|] == Slots();
      copyGhosts := copyGhosts[dir := copied];
    }

    /** Append one ghost and point its tag at it. */
    method AppendGhost(slot: Slot)
      requires Valid()
      modifies this`tags, this`plans, this`loads, this`rtag
      ensures Valid()
      ensures Slots() == old(Slots()) + [slot]
    {
      ghost var before := Slots();
      rtag := rtag[slot.tag := |tags|];
      tags := tags + [slot.tag];
      plans := plans + [slot.plan];
      loads := loads + [slot.load];
      assert Slots() == before + [slot];
      assert Slots()[..|tags| - 1] == before;
    }

    /** Append received ghosts, wrap their positions and point their tags at them. */
    method ReceiveGhosts(s: Setting, rank: nat, dir: Direction, memory: Payload, message: seq<Slot>)
      requires Valid() && s.Valid() && rank < s.torus.Ranks()
      modifies this`tags, this`plans, this`loads, this`rtag, this`numReceived
      ensures Valid()
      ensures Slots() == old(Slots()) + Arrivals(s, rank, memory, message)
      ensures numReceived == old(numReceived)[dir := |message|]
    {
      ghost var before, news := Slots(), Arrivals(s, rank, memory, message);
      numReceived := numReceived[dir := |message|];
      for j := 0 to |message|
        invariant Valid() && Slots() == before + news[..j]
        invariant numReceived == old(numReceived)[dir := |message|]
      {
        AppendGhost(message[j].(load := Delivered(s.flags, s.boxes[rank], memory, message[j].load)));
        assert news[..j + 1] == news[..j] + [news[j]];
      }
      assert news[..|message|] == news;
    }

    /** Look up the saved tags of a direction and copy their current data. */
    method PackUpdate(dir: Direction) returns (message: seq<Payload>)
      requires Valid() && Found(Slots(), copyGhosts[dir])
      ensures message == UpdateMessage(Slots(), copyGhosts[dir])
    {
      message := [];
      for i := 0 to |copyGhosts[dir]|
        invariant message == UpdateMessage(Slots(), copyGhosts[dir])[..i]
      {
        message := message + [loads[rtag[copyGhosts[dir][i]]]];
      }
    }

    /** Write a received update over the range of an earlier exchange. */
    method ReceiveUpdate(flags: CommFlags, box: Box, start: nat, message: seq<Payload>)
      requires Valid() && start + |message| <= |tags|
      modifies this`loads
      ensures Valid()
      ensures Slots() == Overwrite(flags, box, old(Slots()), start, message)
    {
      ghost var before := Slots();
      for j := 0 to |message|
        invariant |loads| == |before|
        invariant forall i :: 0 <= i < |loads| ==>
          loads[i] == if start <= i < start + j
                      then Refreshed(flags, box, before[i].load, message[i - start]) else before[i].load
      {
        loads := loads[start + j := Refreshed(flags, box, loads[start + j], message[j])];
      }
      assert Slots() == Overwrite(flags, box, before, start, message);
      ReverseTagsLayout(before, Slots());
    }

    // ----- reverse communication ------------------------------------------------------------

    /** The ghosts of this rank as entries, with the forces they have now. */
    function Ghosts(): (g: seq<Entry>)
      requires |tags| == |plans| == |loads| == |netForce| && locals <= |tags|
      reads this
    {
      GhostEntries(Slots(), locals, netForce)
    }

    /** What was received so far, by tag and reverse plan. */
    ghost predicate ReceivedIs(received: seq<Entry>)
      requires locals <= |tags|
      reads this
    {
      && |tagReverse| == |received| && |planReverse| == |tags| - locals + |received|
      && forall i :: 0 <= i < |received| ==>
           received[i].tag == tagReverse[i] && received[i].plan == planReverse[|tags| - locals + i]
    }

    ghost predicate PlansInverted()
      requires |tags| == |plans| == |loads| && locals <= |tags|
      reads this
    {
      && |planReverse| >= |tags| - locals
      && forall i :: 0 <= i < |tags| - locals ==> planReverse[i] == Inverted(plans[locals + i])
    }

    /** Turn the plans of the ghosts around, bit by bit. */
    method InvertPlans()
      requires Valid()
      modifies this`planReverse, this`tagReverse
      ensures PlansInverted() && ReceivedIs([])
    {
      planReverse := [];
      tagReverse := [];
      for idx := 0 to |tags| - locals
        invariant |planReverse| == idx && tagReverse == []
        invariant forall i :: 0 <= i < idx ==> planReverse[i] == Inverted(plans[locals + i])
      {
        var back := Invert(plans[locals + idx]);
        planReverse := planReverse + [back];
      }
    }

    /** Turn one plan around, bit by bit. */
    static method Invert(plan: Plan) returns (back: Plan)
      ensures back == Inverted(plan)
    {
      back := {};
      if 0 in plan { back := back + {1}; }
      if 1 in plan { back := back + {0}; }
      if 2 in plan { back := back + {3}; }
      if 3 in plan { back := back + {2}; }
      if 4 in plan { back := back + {5}; }
      if 5 in plan { back := back + {4}; }
    }

    /** Select the own ghosts that travel back in a direction. */
    method PackOwnGhosts(dir: Direction) returns (sentTags: seq<Tag>, sentPlans: seq<Plan>)
      requires Valid() && |netForce| == |tags| && PlansInverted()
      modifies this`copyReverse
      ensures Valid() && PlansInverted()
      ensures sentTags == EntryTags(Bound(Ghosts(), dir)) && sentPlans == EntryPlans(Bound(Ghosts(), dir))
      ensures copyReverse == old(copyReverse)[dir := sentTags]
    {
      var n := |tags| - locals;
      ghost var mine := Ghosts();
      sentTags, sentPlans := [], [];
      for idx := 0 to n
        invariant sentTags == EntryTags(Bound(mine[..idx], dir)) && sentPlans == EntryPlans(Bound(mine[..idx], dir))
      {
        assert mine[..idx + 1][..idx] == mine[..idx];
        if dir in planReverse[idx] {
          sentTags := sentTags + [tags[locals + idx]];
          sentPlans := sentPlans + [planReverse[idx]];
        }
      }
      assert mine[..n] == mine;
      copyReverse := copyReverse[dir := sentTags];
    }

    /** Select what was received from others and travels on in a direction, noting its positions. */
    method PackForwarded(dir: Direction, ghost received: seq<Entry>) returns (sentTags: seq<Tag>, sentPlans: seq<Plan>)
      requires Valid() && ReceivedIs(received)
      modifies this`forwardReverse
      ensures Valid() && ReceivedIs(received)
      ensures sentTags == EntryTags(Bound(received, dir)) && sentPlans == EntryPlans(Bound(received, dir))
      ensures forwardReverse == old(forwardReverse)[dir := BoundIndices(received, dir)]
    {
      var n := |tags| - locals;
      var forwarded: seq<nat> := [];
      sentTags, sentPlans := [], [];
      for idx := 0 to |tagReverse|
        invariant forwarded == BoundIndices(received[..idx], dir)
        invariant sentTags == EntryTags(Bound(received[..idx], dir)) && sentPlans == EntryPlans(Bound(received[..idx], dir))
        modifies {}
      {
        BoundNext(received, dir, idx);
        if dir in planReverse[n + idx] {
          forwarded := forwarded + [idx];
          sentTags := sentTags + [tagReverse[idx]];
          sentPlans := sentPlans + [planReverse[n + idx]];
        }
      }
      assert received[..|tagReverse|] == received;
      forwardReverse := forwardReverse[dir := forwarded];
    }

    /** What a rank sends back in a direction: its own ghosts first, then what it forwards. */
    method PackReverse(dir: Direction, ghost received: seq<Entry>) returns (sentTags: seq<Tag>, sentPlans: seq<Plan>)
      requires Valid() && |netForce| == |tags| && PlansInverted() && ReceivedIs(received)
      modifies this`copyReverse, this`forwardReverse
      ensures Valid() && PlansInverted() && ReceivedIs(received)
      ensures sentTags == EntryTags(Bound(Ghosts(), dir) + Bound(received, dir))
      ensures sentPlans == EntryPlans(Bound(Ghosts(), dir) + Bound(received, dir))
      ensures copyReverse == old(copyReverse)[dir := EntryTags(Bound(Ghosts(), dir))]
      ensures forwardReverse == old(forwardReverse)[dir := BoundIndices(received, dir)]
    {
      ghost var mine := Ghosts();
      var t1, p1 := PackOwnGhosts(dir);
      assert Ghosts() == mine;
      var t2, p2 := PackForwarded(dir, received);
      assert Ghosts() == mine;
      EntriesAppend(Bound(mine, dir), Bound(received, dir));
      sentTags, sentPlans := t1 + t2, p1 + p2;
    }

    /** Append what arrived from the sending neighbour. */
    method ReceiveReverse(sentTags: seq<Tag>, sentPlans: seq<Plan>, ghost received: seq<Entry>, ghost incoming: seq<Entry>)
      requires Valid() && PlansInverted() && ReceivedIs(received)
      requires sentTags == EntryTags(incoming) && sentPlans == EntryPlans(incoming)
      modifies this`planReverse, this`tagReverse
      ensures PlansInverted() && ReceivedIs(received + incoming)
    {
      planReverse := planReverse + sentPlans;
      tagReverse := tagReverse + sentTags;
    }

    /** Fill the force buffer of a direction from the saved lists. */
    method PackForces(dir: Direction) returns (message: seq<real>)
      requires Valid() && |netForce| == |tags|
      requires Found(Slots(), copyReverse[dir]) && Within(forwardReverse[dir], |reverseBuffer|)
      ensures message == ForceMessage(Slots(), netForce, reverseBuffer, copyReverse[dir], forwardReverse[dir])
    {
      message := [];
      var n := |copyReverse[dir]|;
      for i := 0 to n
        invariant message == ForceMessage(Slots(), netForce, reverseBuffer, copyReverse[dir], forwardReverse[dir])[..i]
      {
        message := message + [netForce[rtag[copyReverse[dir][i]]]];
      }
      for i := 0 to |forwardReverse[dir]|
        invariant message == ForceMessage(Slots(), netForce, reverseBuffer, copyReverse[dir], forwardReverse[dir])[..n + i]
      {
        message := message + [reverseBuffer[forwardReverse[dir][i]]];
      }
    }

    /** Append received forces to the buffer and add those of local particles. */
    method ReceiveForces(message: seq<real>)
      requires Valid() && |netForce| == |tags| && |reverseBuffer| + |message| <= |tagReverse|
      modifies this`netForce, this`reverseBuffer
      ensures Valid() && |netForce| == |tags|
      ensures reverseBuffer == old(reverseBuffer) + message
      ensures netForce == NetAfter(Slots(), locals, old(netForce), tagReverse, |old(reverseBuffer)|, message)
    {
      var start := |reverseBuffer|;
      ghost var window, slots, before := tagReverse[start..start + |message|], Slots(), netForce;
      reverseBuffer := reverseBuffer + message;
      for i := 0 to |message|
        invariant |netForce| == |tags| && reverseBuffer == old(reverseBuffer) + message
        invariant netForce == AddForces(slots, locals, before, window[..i], message[..i])
      {
        var tag := tagReverse[start + i];
        assert window[..i + 1][..i] == window[..i] && message[..i + 1][..i] == message[..i];
        assert tag == window[i] && window[..i + 1][i] == window[i] && rtag == ReverseTags(slots);
        if tag in rtag && rtag[tag] < locals {
          netForce := netForce[rtag[tag] := netForce[rtag[tag]] + message[i]];
        }
      }
      assert window[..|message|] == window && message[..|message|] == message;
    }
  }

  /** One more entry. */
  lemma BoundNext(entries: seq<Entry>, dir: Direction, n: nat)
    requires n < |entries|
    ensures var (before, next) := (entries[..n], entries[..n + 1]);
      if dir in entries[n].plan then
        && BoundIndices(next, dir) == BoundIndices(before, dir) + [n]
        && EntryTags(Bound(next, dir)) == EntryTags(Bound(before, dir)) + [entries[n].tag]
        && EntryPlans(Bound(next, dir)) == EntryPlans(Bound(before, dir)) + [entries[n].plan]
      else BoundIndices(next, dir) == BoundIndices(before, dir) && Bound(next, dir) == Bound(before, dir)
  {
    assert entries[..n + 1][..n] == entries[..n];
  }

  function EntryPlans(entries: seq<Entry>): (r: seq<Plan>)
    ensures |r| == |entries|
  {
    seq(|entries|, i requires 0 <= i < |entries| => entries[i].plan)
  }

  lemma EntriesAppend(a: seq<Entry>, b: seq<Entry>)
    ensures EntryTags(a + b) == EntryTags(a) + EntryTags(b) && EntryPlans(a + b) == EntryPlans(a) + EntryPlans(b)
  {
  }

  lemma {:induction false} ReverseTagsLayout(a: seq<Slot>, b: seq<Slot>)
    requires |a| == |b| && forall i :: 0 <= i < |a| ==> a[i].tag == b[i].tag
    ensures ReverseTags(a) == ReverseTags(b)
  {
    if a != [] {
      ReverseTagsLayout(a[..|a| - 1], b[..|a| - 1]);
    }
  }
}
