/**
Ghost update. Between exchanges ghosts are refreshed by replaying saved lists: in each
direction a rank looks up the tags it copied during the exchange and overwrites the array
range in which it then received. The result is what a new exchange would have produced.
 */
module GhostUpdate {
  import opened Grid
  import opened BoxDim
  import opened GhostExchange

  /** The reverse look-up table of a rank: a later slot of the same tag overwrites an earlier one. */
  function ReverseTags(slots: seq<Slot>): map<Tag, nat> {
    if slots == [] then map[]
    else ReverseTags(slots[..|slots| - 1])[slots[|slots| - 1].tag := |slots| - 1]
  }

  ghost predicate UniqueTags(slots: seq<Slot>) {
    forall i, j :: 0 <= i < j < |slots| ==> slots[i].tag != slots[j].tag
  }

  /** Without duplicates every slot is found under its tag, and nothing else is. */
  lemma {:induction false} ReverseTagsInverse(slots: seq<Slot>)
    requires UniqueTags(slots)
    ensures forall i :: 0 <= i < |slots| ==> slots[i].tag in ReverseTags(slots) && ReverseTags(slots)[slots[i].tag] == i
    ensures forall t :: t in ReverseTags(slots) ==> ReverseTags(slots)[t] < |slots| && slots[ReverseTags(slots)[t]].tag == t
  {
    if slots != [] {
      ReverseTagsInverse(slots[..|slots| - 1]);
    }
  }

  /** One copy of every tag means unique tags. */
  lemma SingleCopiesUnique(slots: seq<Slot>)
    requires forall i :: 0 <= i < |slots| ==> Copies(slots, slots[i].tag) <= 1
    ensures UniqueTags(slots)
  {
    forall i, j | 0 <= i < j < |slots| ensures slots[i].tag != slots[j].tag {
      if slots[i].tag == slots[j].tag {
        TwoCopies(slots, i, j);
      }
    }
  }

  lemma TwoCopies(slots: seq<Slot>, i: nat, j: nat)
    requires i < j < |slots| && slots[i].tag == slots[j].tag
    ensures Copies(slots, slots[i].tag) >= 2
  {
    assert slots == slots[..j] + slots[j..];
    CopiesAppend(slots[..j], slots[j..], slots[i].tag);
    CopiesOfMember(slots[..j], i);
    CopiesOfMember(slots[j..], 0);
  }

  ghost predicate KnownTags(slots: seq<Slot>, known: set<Tag>) {
    forall i :: 0 <= i < |slots| ==> slots[i].tag in known
  }

  /** Every tag in the system has one owner and a plan without opposite communicating directions. */
  ghost predicate WellPlanned(t: Decomposition, world: World, owners: map<Tag, nat>, plans: map<Tag, Plan>) {
    && owners.Keys == plans.Keys
    && (forall r :: 0 <= r < |world| ==> KnownTags(world[r], owners.Keys))
    && forall tag :: tag in owners.Keys ==>
         OwnedOnce(world, tag, owners[tag], plans[tag]) && NoOpposites(Active(t, plans[tag]))
  }

  /** An exchange brings no tag that was not there before. */
  lemma {:induction false} ExchangeKeepsTags(s: Setting, memory: Payload, world: World, k: nat, known: set<Tag>)
    requires s.Valid() && |world| == s.torus.Ranks() && k <= DIRECTIONS
    requires forall r :: 0 <= r < |world| ==> KnownTags(world[r], known)
    ensures forall r :: 0 <= r < |world| ==> KnownTags(Exchange(s, memory, world, k)[r], known)
  {
    if k > 0 {
      ExchangeKeepsTags(s, memory, world, k - 1, known);
      forall r | 0 <= r < |world| ensures KnownTags(Exchange(s, memory, world, k)[r], known) {
        DirectionKeepsTags(s, memory, Exchange(s, memory, world, k - 1), k - 1, known, r);
      }
    }
  }

  lemma DirectionKeepsTags(s: Setting, memory: Payload, world: World, d: Direction, known: set<Tag>, r: nat)
    requires s.Valid() && r < |world| == s.torus.Ranks()
    requires forall q :: 0 <= q < |world| ==> KnownTags(world[q], known)
    ensures KnownTags(ExchangeDirection(s, memory, world, d)[r], known)
  {
    if s.torus.IsCommunicating(d) {
      var from := Sender(s.torus, r, d);
      var sent := Outgoing(world[from], d);
      forall j | 0 <= j < |sent| ensures sent[j].tag in known {
        var i := OutgoingSource(world[from], d, j);
      }
      assert KnownTags(Arrivals(s, r, memory, sent), known);
      assert KnownTags(world[r] + Arrivals(s, r, memory, sent), known);
    }
  }

  /** If every particle is well planned, no rank ends up with a tag twice. */
  lemma ExchangeUnique(s: Setting, memory: Payload, world: World, owners: map<Tag, nat>, plans: map<Tag, Plan>, r: nat)
    requires s.Valid() && r < |world| == s.torus.Ranks() && WellPlanned(s.torus, world, owners, plans)
    ensures UniqueTags(Exchange(s, memory, world, DIRECTIONS)[r])
  {
    var after := Exchange(s, memory, world, DIRECTIONS)[r];
    ExchangeKeepsTags(s, memory, world, DIRECTIONS, owners.Keys);
    forall i | 0 <= i < |after| ensures Copies(after, after[i].tag) <= 1 {
      var tag := after[i].tag;
      GhostsDeliveredExactlyOnce(s, memory, world, tag, owners[tag], plans[tag], r);
    }
    SingleCopiesUnique(after);
  }

  // ----- what an exchange leaves behind -----------------------------------------------------

  function Tags(slots: seq<Slot>): (tags: seq<Tag>)
    ensures |tags| == |slots|
  {
    seq(|slots|, i requires 0 <= i < |slots| => slots[i].tag)
  }

  /** The lists saved during an exchange, per rank and direction. */
  datatype Saved = Saved(copied: seq<seq<seq<Tag>>>, received: seq<seq<nat>>)

  /** The rank that sends to `rank` in direction `dir`. */
  function Sender(t: Decomposition, rank: nat, dir: Direction): (r: nat)
    requires t.Valid() && rank < t.Ranks()
    ensures r < t.Ranks()
  {
    t.NeighborRank(rank, Opposite(dir))
  }

  /** The saved lists are those of the exchange that started from `world`. */
  ghost predicate SavedBy(s: Setting, memory: Payload, world: World, saved: Saved)
    requires s.Valid() && |world| == s.torus.Ranks()
  {
    && |saved.copied| == |saved.received| == |world|
    && (forall r :: 0 <= r < |world| ==> |saved.copied[r]| == |saved.received[r]| == DIRECTIONS)
    && forall r, d: Direction :: 0 <= r < |world| && s.torus.IsCommunicating(d) ==>
         && saved.copied[r][d] == Tags(Outgoing(Exchange(s, memory, world, d)[r], d))
         && saved.received[r][d] == |Outgoing(Exchange(s, memory, world, d)[Sender(s.torus, r, d)], d)|
  }

  // ----- one direction of the update --------------------------------------------------------

  /** A refreshed slot: positions are wrapped with a zero image, which is then dropped. */
  function Refreshed(flags: CommFlags, box: Box, memory: Payload, sent: Payload): Payload {
    Payload(if flags.position then box.Wrap(sent.position, Image(0, 0, 0), NO_FLAGS).0 else memory.position,
            memory.image,
            if flags.velocity then sent.velocity else memory.velocity,
            if flags.orientation then sent.orientation else memory.orientation)
  }

  /** All the tags are in the reverse look-up table. */
  ghost predicate Found(slots: seq<Slot>, tags: seq<Tag>) {
    forall i :: 0 <= i < |tags| ==> tags[i] in ReverseTags(slots) && ReverseTags(slots)[tags[i]] < |slots|
  }

  /** The message of a rank: the saved tags looked up in the current arrays. */
  function UpdateMessage(slots: seq<Slot>, tags: seq<Tag>): (m: seq<Payload>)
    requires Found(slots, tags)
    ensures |m| == |tags|
  {
    seq(|tags|, i requires 0 <= i < |tags| => slots[ReverseTags(slots)[tags[i]]].load)
  }

  /** Overwrite the slots from `start` on with a message. */
  function Overwrite(flags: CommFlags, box: Box, slots: seq<Slot>, start: nat, message: seq<Payload>): (r: seq<Slot>)
    requires start + |message| <= |slots|
    ensures |r| == |slots|
  {
    seq(|slots|, i requires 0 <= i < |slots| =>
      if start <= i < start + |message|
      then slots[i].(load := Refreshed(flags, box, slots[i].load, message[i - start]))
      else slots[i])
  }

  /** Can the direction run: are all saved tags present and all ranges inside the arrays? */
  ghost predicate Ready(s: Setting, world: World, saved: Saved, starts: seq<nat>, dir: Direction)
    requires s.Valid() && |world| == s.torus.Ranks()
  {
    && |saved.copied| == |starts| == |world|
    && (forall r :: 0 <= r < |world| ==> |saved.copied[r]| == DIRECTIONS)
    && (forall r :: 0 <= r < |world| ==> Found(world[r], saved.copied[r][dir]))
    && (forall r :: 0 <= r < |world| ==>
          starts[r] + |saved.copied[Sender(s.torus, r, dir)][dir]| <= |world[r]|)
  }

  function UpdateDirection(s: Setting, world: World, saved: Saved, starts: seq<nat>, dir: Direction): (r: World)
    requires s.Valid() && |world| == s.torus.Ranks()
    requires Ready(s, world, saved, starts, dir)
    ensures |r| == |world|
  {
    seq(|world|, rank requires 0 <= rank < |world| =>
      var from := Sender(s.torus, rank, dir);
      Overwrite(s.flags, s.boxes[rank], world[rank], starts[rank],
                UpdateMessage(world[from], saved.copied[from][dir])))
  }

  /** Where each rank's ranges begin: behind its local particles and everything received so far. */
  function Starts(s: Setting, locals: seq<nat>, saved: Saved, k: nat): (r: seq<nat>)
    requires s.Valid() && |locals| == |saved.received| && k <= DIRECTIONS
    requires forall r :: 0 <= r < |locals| ==> |saved.received[r]| == DIRECTIONS
    ensures |r| == |locals|
  {
    if k == 0 then locals
    else
      var before := Starts(s, locals, saved, k - 1);
      if s.torus.IsCommunicating(k - 1) then
        seq(|locals|, r requires 0 <= r < |locals| => before[r] + saved.received[r][k - 1])
      else before
  }

  // ----- shape does not depend on payloads --------------------------------------------------

  /** The same tags and plans in the same places. */
  ghost predicate SameLayout(a: seq<Slot>, b: seq<Slot>) {
    |a| == |b| && forall i :: 0 <= i < |a| ==> a[i].tag == b[i].tag && a[i].plan == b[i].plan
  }

  ghost predicate SameLayouts(a: World, b: World) {
    |a| == |b| && forall r :: 0 <= r < |a| ==> SameLayout(a[r], b[r])
  }

  lemma {:induction false} OutgoingLayout(a: seq<Slot>, b: seq<Slot>, dir: Direction)
    requires SameLayout(a, b)
    ensures SameLayout(Outgoing(a, dir), Outgoing(b, dir))
  {
    if a != [] {
      OutgoingLayout(a[..|a| - 1], b[..|a| - 1], dir);
    }
  }

  lemma {:induction false} ExchangeLayout(s: Setting, s': Setting, memory: Payload, memory': Payload, a: World, b: World, k: nat)
    requires s.Valid() && s'.Valid() && s.torus == s'.torus && |a| == s.torus.Ranks() && k <= DIRECTIONS
    requires SameLayouts(a, b)
    ensures SameLayouts(Exchange(s, memory, a, k), Exchange(s', memory', b, k))
  {
    if k > 0 {
      var j: nat := k - 1;
      ExchangeLayout(s, s', memory, memory', a, b, j);
      DirectionLayout(s, s', memory, memory', Exchange(s, memory, a, j), Exchange(s', memory', b, j), j);
    }
  }

  lemma DirectionLayout(s: Setting, s': Setting, memory: Payload, memory': Payload, a: World, b: World, d: Direction)
    requires s.Valid() && s'.Valid() && s.torus == s'.torus && |a| == s.torus.Ranks() && SameLayouts(a, b)
    ensures SameLayouts(ExchangeDirection(s, memory, a, d), ExchangeDirection(s', memory', b, d))
  {
    forall r | 0 <= r < |a| && s.torus.IsCommunicating(d)
      ensures SameLayout(ExchangeDirection(s, memory, a, d)[r], ExchangeDirection(s', memory', b, d)[r])
    {
      OutgoingLayout(a[Sender(s.torus, r, d)], b[Sender(s.torus, r, d)], d);
    }
  }

  /** Everything sent is somewhere in the array. */
  lemma {:induction false} OutgoingSource(slots: seq<Slot>, dir: Direction, j: nat) returns (i: nat)
    requires j < |Outgoing(slots, dir)|
    ensures i < |slots| && slots[i] == Outgoing(slots, dir)[j]
  {
    var n := |slots| - 1;
    if j < |Outgoing(slots[..n], dir)| {
      i := OutgoingSource(slots[..n], dir, j);
    } else {
      i := n;
    }
  }

  // ----- the update refines the exchange ----------------------------------------------------

  /** Agreement on the requested fields that are refreshed. */
  ghost predicate Agree(flags: CommFlags, a: Payload, b: Payload) {
    && (flags.position ==> a.position == b.position)
    && (flags.velocity ==> a.velocity == b.velocity)
    && (flags.orientation ==> a.orientation == b.orientation)
  }

  /** The updated arrays begin with what a new exchange has built so far. */
  ghost predicate Matches(flags: CommFlags, updated: seq<Slot>, built: seq<Slot>) {
    && |built| <= |updated|
    && forall i :: 0 <= i < |built| ==>
         && updated[i].tag == built[i].tag && updated[i].plan == built[i].plan
         && Agree(flags, updated[i].load, built[i].load)
  }

  ghost predicate AllMatch(flags: CommFlags, updated: World, built: World) {
    |updated| == |built| && forall r :: 0 <= r < |built| ==> Matches(flags, updated[r], built[r])
  }

  lemma MessageMatches(flags: CommFlags, updated: seq<Slot>, built: seq<Slot>, dir: Direction)
    requires UniqueTags(updated) && Matches(flags, updated, built)
    ensures var sent := Outgoing(built, dir);
            && Found(updated, Tags(sent))
            && forall j :: 0 <= j < |sent| ==> Agree(flags, UpdateMessage(updated, Tags(sent))[j], sent[j].load)
  {
    ReverseTagsInverse(updated);
    forall j | 0 <= j < |Outgoing(built, dir)|
      ensures var sent := Outgoing(built, dir)[j];
              && sent.tag in ReverseTags(updated) && ReverseTags(updated)[sent.tag] < |updated|
              && Agree(flags, updated[ReverseTags(updated)[sent.tag]].load, sent.load)
    {
      var i := OutgoingSource(built, dir, j);
      assert updated[i].tag == built[i].tag;
    }
  }

  lemma RefreshedAgrees(flags: CommFlags, box: Box, m1: Payload, m2: Payload, a: Payload, b: Payload)
    requires Agree(flags, a, b)
    ensures Agree(flags, Refreshed(flags, box, m1, a), Delivered(flags, box, m2, b))
  {
    WrapIgnoresImage(box, a.position, Image(0, 0, 0), if flags.image then b.image else m2.image, NO_FLAGS);
  }

  /** The slots from `at` on carry the tags and plans of a message. */
  ghost predicate Placed(slots: seq<Slot>, at: nat, sent: seq<Slot>) {
    && at + |sent| <= |slots|
    && forall j :: 0 <= j < |sent| ==> slots[at + j].tag == sent[j].tag && slots[at + j].plan == sent[j].plan
  }

  /** One rank, one direction: overwriting the right range keeps the match. */
  lemma OverwriteMatches(s: Setting, memory: Payload, rank: nat, mine: seq<Slot>, built: seq<Slot>,
                         message: seq<Payload>, sent: seq<Slot>)
    requires s.Valid() && rank < s.torus.Ranks()
    requires Matches(s.flags, mine, built) && Placed(mine, |built|, sent)
    requires |message| == |sent| && forall j :: 0 <= j < |sent| ==> Agree(s.flags, message[j], sent[j].load)
    ensures Matches(s.flags, Overwrite(s.flags, s.boxes[rank], mine, |built|, message),
                    built + Arrivals(s, rank, memory, sent))
  {
    var box := s.boxes[rank];
    var next, goal := Overwrite(s.flags, box, mine, |built|, message), built + Arrivals(s, rank, memory, sent);
    forall i | 0 <= i < |goal|
      ensures next[i].tag == goal[i].tag && next[i].plan == goal[i].plan && Agree(s.flags, next[i].load, goal[i].load)
    {
      if i >= |built| {
        var j := i - |built|;
        assert mine[|built| + j].tag == sent[j].tag;
        RefreshedAgrees(s.flags, box, mine[i].load, memory, message[j], sent[j].load);
      }
    }
  }

  /** The first `k` directions of an update, or None where an assertion of the source would fail. */
  ghost function Update(s: Setting, locals: seq<nat>, saved: Saved, world: World, k: nat): (r: Option<World>)
    requires s.Valid() && |world| == |locals| == |saved.received| == s.torus.Ranks() && k <= DIRECTIONS
    requires forall r :: 0 <= r < |locals| ==> |saved.received[r]| == DIRECTIONS
    ensures r.Some? ==> |r.value| == |world|
  {
    if k == 0 then Some(world)
    else
      var before := Update(s, locals, saved, world, k - 1);
      if before.None? || !s.torus.IsCommunicating(k - 1) then before
      else if Ready(s, before.value, saved, Starts(s, locals, saved, k - 1), k - 1) then
        Some(UpdateDirection(s, before.value, saved, Starts(s, locals, saved, k - 1), k - 1))
      else None
  }

  /** What an update leaves alone: images and everything that is not requested. */
  ghost predicate Spared(flags: CommFlags, a: Payload, b: Payload) {
    && a.image == b.image && (!flags.position ==> a.position == b.position) && (!flags.velocity ==> a.velocity == b.velocity)
    && (!flags.orientation ==> a.orientation == b.orientation)
  }

  /** In all slots an update spares what is not requested, and it changes nothing of local particles. */
  ghost predicate SparesRest(flags: CommFlags, locals: nat, a: seq<Slot>, b: seq<Slot>) {
    && |a| == |b| && (forall i :: 0 <= i < |a| ==> Spared(flags, a[i].load, b[i].load))
    && forall i :: 0 <= i < |a| && i < locals ==> a[i] == b[i]
  }

  lemma {:induction false} UpdateSparesRest(s: Setting, locals: seq<nat>, saved: Saved, world: World, k: nat, r: nat)
    requires s.Valid() && |world| == |locals| == |saved.received| == s.torus.Ranks() && k <= DIRECTIONS && r < |world|
    requires forall q :: 0 <= q < |locals| ==> |saved.received[q]| == DIRECTIONS
    requires Update(s, locals, saved, world, k).Some?
    ensures SparesRest(s.flags, locals[r], world[r], Update(s, locals, saved, world, k).value[r])
  {
    if k > 0 {
      var d: Direction := k - 1;
      UpdateSparesRest(s, locals, saved, world, d, r);
      StartsBehindLocals(s, locals, saved, d, r);
      NextSparesRest(s, locals, saved, world, world[r], d, k, r);
    }
  }

  lemma NextSparesRest(s: Setting, locals: seq<nat>, saved: Saved, world: World, slots: seq<Slot>, d: Direction, k: nat, r: nat)
    requires s.Valid() && |world| == |locals| == |saved.received| == s.torus.Ranks() && k == d + 1 && r < |world|
    requires forall q :: 0 <= q < |locals| ==> |saved.received[q]| == DIRECTIONS
    requires Update(s, locals, saved, world, k).Some? && Update(s, locals, saved, world, d).Some?
    requires locals[r] <= Starts(s, locals, saved, d)[r]
    requires SparesRest(s.flags, locals[r], slots, Update(s, locals, saved, world, d).value[r])
    ensures SparesRest(s.flags, locals[r], slots, Update(s, locals, saved, world, k).value[r])
  {
    if s.torus.IsCommunicating(d) {
      DirectionSparesRest(s, locals[r], saved, slots, Update(s, locals, saved, world, d).value, Starts(s, locals, saved, d), d, r);
    }
  }

  lemma DirectionSparesRest(s: Setting, locals: nat, saved: Saved, slots: seq<Slot>, before: World, starts: seq<nat>, d: Direction, r: nat)
    requires s.Valid() && r < |before| == s.torus.Ranks() && Ready(s, before, saved, starts, d) && locals <= starts[r]
    requires SparesRest(s.flags, locals, slots, before[r])
    ensures SparesRest(s.flags, locals, slots, UpdateDirection(s, before, saved, starts, d)[r])
  {
    var from := Sender(s.torus, r, d);
    OverwriteSparesRest(s.flags, s.boxes[r], slots, before[r], locals, starts[r], UpdateMessage(before[from], saved.copied[from][d]));
  }

  lemma OverwriteSparesRest(flags: CommFlags, box: Box, a: seq<Slot>, b: seq<Slot>, locals: nat, start: nat, message: seq<Payload>)
    requires SparesRest(flags, locals, a, b) && locals <= start && start + |message| <= |b|
    ensures SparesRest(flags, locals, a, Overwrite(flags, box, b, start, message))
  {
  }

  lemma {:induction false} StartsBehindLocals(s: Setting, locals: seq<nat>, saved: Saved, k: nat, r: nat)
    requires s.Valid() && |locals| == |saved.received| && k <= DIRECTIONS && r < |locals|
    requires forall q :: 0 <= q < |locals| ==> |saved.received[q]| == DIRECTIONS
    ensures locals[r] <= Starts(s, locals, saved, k)[r]
  {
    if k > 0 {
      StartsBehindLocals(s, locals, saved, k - 1, r);
    }
  }

  datatype Option<T> = None | Some(value: T)

  function Sizes(world: World): (r: seq<nat>)
    ensures |r| == |world|
  {
    seq(|world|, r requires 0 <= r < |world| => |world[r]|)
  }

  /** The saved counts add up to the array sizes of the exchange. */
  lemma {:induction false} StartsAreSizes(s: Setting, memory: Payload, world: World, saved: Saved, k: nat)
    requires s.Valid() && |world| == s.torus.Ranks() && k <= DIRECTIONS
    requires SavedBy(s, memory, world, saved)
    ensures Starts(s, Sizes(world), saved, k) == Sizes(Exchange(s, memory, world, k))
  {
    if k > 0 {
      StartsAreSizes(s, memory, world, saved, k - 1);
      var d: Direction := k - 1;
      if s.torus.IsCommunicating(d) {
        forall r | 0 <= r < |world|
          ensures Starts(s, Sizes(world), saved, k)[r] == Sizes(Exchange(s, memory, world, k))[r]
        {
          SizeStep(s, memory, Exchange(s, memory, world, d), d, r);
        }
      }
    }
  }

  lemma SizeStep(s: Setting, memory: Payload, world: World, d: Direction, r: nat)
    requires s.Valid() && r < |world| == s.torus.Ranks() && s.torus.IsCommunicating(d)
    ensures |ExchangeDirection(s, memory, world, d)[r]| == |world[r]| + |Outgoing(world[Sender(s.torus, r, d)], d)|
  {
  }

  /** Later directions only append. */
  lemma {:induction false} ExchangeGrows(s: Setting, memory: Payload, world: World, j: nat, k: nat, r: nat)
    requires s.Valid() && r < |world| == s.torus.Ranks() && j <= k <= DIRECTIONS
    ensures Exchange(s, memory, world, j)[r] <= Exchange(s, memory, world, k)[r]
  {
    if j < k {
      ExchangeGrows(s, memory, world, j, k - 1, r);
    }
  }

  /** Where the messages of one direction of an exchange end up in its later arrays. */
  lemma RangeOfDirection(s: Setting, memory: Payload, world: World, d: Direction, k: nat, r: nat)
    requires s.Valid() && r < |world| == s.torus.Ranks() && s.torus.IsCommunicating(d) && d < k <= DIRECTIONS
    ensures var before := Exchange(s, memory, world, d);
            Placed(Exchange(s, memory, world, k)[r], |before[r]|, Outgoing(before[Sender(s.torus, r, d)], d))
  {
    var before := Exchange(s, memory, world, d);
    var sent := Outgoing(before[Sender(s.torus, r, d)], d);
    var next, final := Exchange(s, memory, world, d + 1)[r], Exchange(s, memory, world, k)[r];
    assert next == before[r] + Arrivals(s, r, memory, sent);
    assert Placed(next, |before[r]|, sent);
    ExchangeGrows(s, memory, world, d + 1, k, r);
    PlacedInLonger(next, final, |before[r]|, sent);
  }

  lemma PlacedInLonger(a: seq<Slot>, b: seq<Slot>, at: nat, sent: seq<Slot>)
    requires a <= b && Placed(a, at, sent)
    ensures Placed(b, at, sent)
  {
    assert forall i :: 0 <= i < |a| ==> b[i] == a[i];
  }

  lemma PlacedLayout(a: seq<Slot>, b: seq<Slot>, at: nat, sent: seq<Slot>, sent': seq<Slot>)
    requires SameLayout(a, b) && SameLayout(sent, sent') && Placed(a, at, sent)
    ensures Placed(b, at, sent')
  {
  }

  lemma TagsOfLayout(a: seq<Slot>, b: seq<Slot>)
    requires SameLayout(a, b)
    ensures Tags(a) == Tags(b)
  {
  }

  /** The saved lists fit the arrays `u` and the arrays `built` a new exchange has reached. */
  ghost predicate ListsFit(s: Setting, saved: Saved, u: World, built: World, d: Direction)
    requires s.Valid() && |u| == |built| == s.torus.Ranks()
  {
    && |saved.copied| == |u|
    && forall r :: 0 <= r < |u| ==>
         && |saved.copied[r]| == DIRECTIONS
         && saved.copied[r][d] == Tags(Outgoing(built[r], d))
         && Placed(u[r], |built[r]|, Outgoing(built[Sender(s.torus, r, d)], d))
  }

  lemma SavedListsFit(made: Setting, memory: Payload, prior: World, saved: Saved,
                      s: Setting, u: World, built: World, d: Direction, k: nat)
    requires made.Valid() && s.Valid() && made.torus == s.torus && s.torus.IsCommunicating(d) && d < k <= DIRECTIONS
    requires |prior| == s.torus.Ranks() && SavedBy(made, memory, prior, saved)
    requires SameLayouts(Exchange(made, memory, prior, k), u) && SameLayouts(Exchange(made, memory, prior, d), built)
    ensures ListsFit(s, saved, u, built, d)
  {
    forall r | 0 <= r < |u|
      ensures |saved.copied[r]| == DIRECTIONS && saved.copied[r][d] == Tags(Outgoing(built[r], d))
      ensures Placed(u[r], |built[r]|, Outgoing(built[Sender(s.torus, r, d)], d))
    {
      SavedTagsFit(made, memory, prior, saved, s, built, d, r);
      SavedRangeFits(made, memory, prior, s, u, built, d, k, r);
    }
  }

  lemma SavedTagsFit(made: Setting, memory: Payload, prior: World, saved: Saved, s: Setting, built: World, d: Direction, r: nat)
    requires made.Valid() && s.Valid() && made.torus == s.torus && s.torus.IsCommunicating(d)
    requires r < |prior| == s.torus.Ranks() && SavedBy(made, memory, prior, saved)
    requires SameLayouts(Exchange(made, memory, prior, d), built)
    ensures |saved.copied[r]| == DIRECTIONS && saved.copied[r][d] == Tags(Outgoing(built[r], d))
  {
    var before := Exchange(made, memory, prior, d);
    OutgoingLayout(before[r], built[r], d);
    TagsOfLayout(Outgoing(before[r], d), Outgoing(built[r], d));
  }

  lemma SavedRangeFits(made: Setting, memory: Payload, prior: World, s: Setting, u: World, built: World, d: Direction, k: nat, r: nat)
    requires made.Valid() && s.Valid() && made.torus == s.torus && s.torus.IsCommunicating(d) && d < k <= DIRECTIONS
    requires r < |prior| == s.torus.Ranks()
    requires SameLayouts(Exchange(made, memory, prior, k), u) && SameLayouts(Exchange(made, memory, prior, d), built)
    ensures Placed(u[r], |built[r]|, Outgoing(built[Sender(s.torus, r, d)], d))
  {
    var before, from := Exchange(made, memory, prior, d), Sender(s.torus, r, d);
    RangeOfDirection(made, memory, prior, d, k, r);
    OutgoingLayout(before[from], built[from], d);
    PlacedLayout(Exchange(made, memory, prior, k)[r], u[r], |built[r]|, Outgoing(before[from], d), Outgoing(built[from], d));
  }

  lemma StepReady(saved: Saved, s: Setting, built: World, u: World, d: Direction)
    requires s.Valid() && |u| == |built| == s.torus.Ranks()
    requires ListsFit(s, saved, u, built, d) && AllMatch(s.flags, u, built)
    requires forall r :: 0 <= r < |u| ==> UniqueTags(u[r])
    ensures Ready(s, u, saved, Sizes(built), d)
  {
    forall r | 0 <= r < |u| ensures Found(u[r], saved.copied[r][d]) {
      MessageMatches(s.flags, u[r], built[r], d);
    }
  }

  lemma OverwriteLayout(flags: CommFlags, box: Box, slots: seq<Slot>, start: nat, message: seq<Payload>)
    requires start + |message| <= |slots|
    ensures SameLayout(slots, Overwrite(flags, box, slots, start, message))
  {
  }

  lemma StepRank(saved: Saved, s: Setting, memory: Payload, built: World, u: World, d: Direction, r: nat)
    requires s.Valid() && s.torus.IsCommunicating(d) && r < |u| == |built| == s.torus.Ranks()
    requires ListsFit(s, saved, u, built, d) && AllMatch(s.flags, u, built)
    requires UniqueTags(u[Sender(s.torus, r, d)]) && Ready(s, u, saved, Sizes(built), d)
    ensures var next := UpdateDirection(s, u, saved, Sizes(built), d)[r];
            SameLayout(u[r], next) && Matches(s.flags, next, ExchangeDirection(s, memory, built, d)[r])
  {
    var from := Sender(s.torus, r, d);
    var sent := Outgoing(built[from], d);
    MessageMatches(s.flags, u[from], built[from], d);
    var message := UpdateMessage(u[from], Tags(sent));
    OverwriteMatches(s, memory, r, u[r], built[r], message, sent);
    OverwriteLayout(s.flags, s.boxes[r], u[r], |built[r]|, message);
    assert UpdateDirection(s, u, saved, Sizes(built), d)[r] == Overwrite(s.flags, s.boxes[r], u[r], |built[r]|, message);
    assert ExchangeDirection(s, memory, built, d)[r] == built[r] + Arrivals(s, r, memory, sent);
  }

  lemma UniqueLayout(a: seq<Slot>, b: seq<Slot>)
    requires UniqueTags(a) && SameLayout(a, b)
    ensures UniqueTags(b)
  {
    forall i, j | 0 <= i < j < |b| ensures b[i].tag != b[j].tag {
      assert a[i].tag != a[j].tag;
    }
  }

  /** The arrays keep their layout and match what the new exchange has reached. */
  ghost predicate Caught(flags: CommFlags, arrays: World, u: World, built: World) {
    SameLayouts(arrays, u) && AllMatch(flags, u, built)
  }

  /** One direction of the update, on arrays that match what a new exchange has built so far. */
  lemma UpdateStep(saved: Saved, s: Setting, memory: Payload, arrays: World, built: World, u: World, d: Direction)
    requires s.Valid() && s.torus.IsCommunicating(d) && |u| == |built| == s.torus.Ranks()
    requires ListsFit(s, saved, u, built, d) && Caught(s.flags, arrays, u, built)
    requires forall r :: 0 <= r < |arrays| ==> UniqueTags(arrays[r])
    ensures Ready(s, u, saved, Sizes(built), d)
    ensures Caught(s.flags, arrays, UpdateDirection(s, u, saved, Sizes(built), d), ExchangeDirection(s, memory, built, d))
  {
    forall r | 0 <= r < |u| ensures UniqueTags(u[r]) {
      UniqueLayout(arrays[r], u[r]);
    }
    StepReady(saved, s, built, u, d);
    var next, after := UpdateDirection(s, u, saved, Sizes(built), d), ExchangeDirection(s, memory, built, d);
    forall r | 0 <= r < |u| ensures SameLayout(arrays[r], next[r]) && Matches(s.flags, next[r], after[r]) {
      StepRank(saved, s, memory, built, u, d, r);
      LayoutTransitive(arrays[r], u[r], next[r]);
    }
  }

  lemma LayoutTransitive(a: seq<Slot>, b: seq<Slot>, c: seq<Slot>)
    requires SameLayout(a, b) && SameLayout(b, c)
    ensures SameLayout(a, c)
  {
  }

  /**
  Replaying the saved lists refines a new exchange. `prior` is the population the lists were made
  with, `now` the same particles with their current payloads, `arrays` the current arrays, whose
  ghost part is arbitrary. If no rank holds a tag twice, the update succeeds and afterwards every
  slot, one hop or several hops away, agrees on all requested fields with the slot that
  exchanging `now` would build.
   */
  lemma {:induction false} UpdateRefinesExchange(made: Setting, memory: Payload, prior: World, saved: Saved,
                                                 s: Setting, memory': Payload, now: World, arrays: World, k: nat)
    requires made.Valid() && s.Valid() && made.torus == s.torus && k <= DIRECTIONS
    requires |prior| == s.torus.Ranks() && SavedBy(made, memory, prior, saved)
    requires SameLayouts(prior, now)
    requires SameLayouts(Exchange(made, memory, prior, DIRECTIONS), arrays) && AllMatch(s.flags, arrays, now)
    requires forall r :: 0 <= r < |arrays| ==> UniqueTags(arrays[r])
    ensures var u := Update(s, Sizes(prior), saved, arrays, k);
            u.Some? && Caught(s.flags, arrays, u.value, Exchange(s, memory', now, k))
  {
    if k == 0 {
    } else {
      var d: Direction := k - 1;
      UpdateRefinesExchange(made, memory, prior, saved, s, memory', now, arrays, d);
      if s.torus.IsCommunicating(d) {
        StartsMatch(made, memory, prior, saved, s, memory', now, d);
        UpdateNext(made, memory, prior, saved, s, memory', now, arrays, Update(s, Sizes(prior), saved, arrays, d).value, d);
      }
    }
  }

  /** One communicating direction of an update that has kept up so far. */
  lemma UpdateNext(made: Setting, memory: Payload, prior: World, saved: Saved,
                   s: Setting, memory': Payload, now: World, arrays: World, u: World, d: Direction)
    requires made.Valid() && s.Valid() && made.torus == s.torus && s.torus.IsCommunicating(d)
    requires |prior| == s.torus.Ranks() && SavedBy(made, memory, prior, saved) && SameLayouts(prior, now)
    requires SameLayouts(Exchange(made, memory, prior, DIRECTIONS), arrays)
    requires forall r :: 0 <= r < |arrays| ==> UniqueTags(arrays[r])
    requires Caught(s.flags, arrays, u, Exchange(s, memory', now, d))
    ensures var built := Exchange(s, memory', now, d);
      && Ready(s, u, saved, Sizes(built), d)
      && Caught(s.flags, arrays, UpdateDirection(s, u, saved, Sizes(built), d), ExchangeDirection(s, memory', built, d))
  {
    var built := Exchange(s, memory', now, d);
    ExchangeLayout(made, s, memory, memory', prior, now, d);
    LayoutsTransitive(Exchange(made, memory, prior, DIRECTIONS), arrays, u);
    SavedListsFit(made, memory, prior, saved, s, u, built, d, DIRECTIONS);
    UpdateStep(saved, s, memory', arrays, built, u, d);
  }

  lemma LayoutsTransitive(a: World, b: World, c: World)
    requires SameLayouts(a, b) && SameLayouts(b, c)
    ensures SameLayouts(a, c)
  {
    forall r | 0 <= r < |a| ensures SameLayout(a[r], c[r]) {
      LayoutTransitive(a[r], b[r], c[r]);
    }
  }

  /** The saved counts also give the array sizes of the new exchange. */
  /** From a well planned world, lists saved once serve every later update of the same particles. */
  lemma UpdateOfWellPlanned(made: Setting, memory: Payload, prior: World, owners: map<Tag, nat>, plans: map<Tag, Plan>, saved: Saved,
                            s: Setting, memory': Payload, now: World, arrays: World)
    requires made.Valid() && s.Valid() && made.torus == s.torus
    requires |prior| == s.torus.Ranks() && WellPlanned(s.torus, prior, owners, plans) && SavedBy(made, memory, prior, saved)
    requires SameLayouts(prior, now)
    requires SameLayouts(Exchange(made, memory, prior, DIRECTIONS), arrays) && AllMatch(s.flags, arrays, now)
    ensures var u := Update(s, Sizes(prior), saved, arrays, DIRECTIONS);
            u.Some? && Caught(s.flags, arrays, u.value, Exchange(s, memory', now, DIRECTIONS))
  {
    forall r | 0 <= r < |arrays| ensures UniqueTags(arrays[r]) {
      ExchangeUnique(made, memory, prior, owners, plans, r);
      UniqueLayout(Exchange(made, memory, prior, DIRECTIONS)[r], arrays[r]);
    }
    UpdateRefinesExchange(made, memory, prior, saved, s, memory', now, arrays, DIRECTIONS);
  }

  lemma StartsMatch(made: Setting, memory: Payload, prior: World, saved: Saved,
                    s: Setting, memory': Payload, now: World, k: nat)
    requires made.Valid() && s.Valid() && made.torus == s.torus && k <= DIRECTIONS
    requires |prior| == s.torus.Ranks() && SavedBy(made, memory, prior, saved) && SameLayouts(prior, now)
    ensures Starts(s, Sizes(prior), saved, k) == Sizes(Exchange(s, memory', now, k))
  {
    StartsAreSizes(made, memory, prior, saved, k);
    StartsSameTorus(s, made, Sizes(prior), saved, k);
    ExchangeLayout(made, s, memory, memory', prior, now, k);
  }

  lemma {:induction false} StartsSameTorus(s: Setting, s': Setting, locals: seq<nat>, saved: Saved, k: nat)
    requires s.Valid() && s'.Valid() && s.torus == s'.torus && |locals| == |saved.received| && k <= DIRECTIONS
    requires forall r :: 0 <= r < |locals| ==> |saved.received[r]| == DIRECTIONS
    ensures Starts(s, locals, saved, k) == Starts(s', locals, saved, k)
  {
    if k > 0 {
      StartsSameTorus(s, s', locals, saved, k - 1);
    }
  }
}
