/**
Migration of bonded groups. A group is stored on every rank that owns one of its members, with
a table of the ranks that own the members. When particles move in one direction, the ranks
first exchange table updates and then the groups themselves. The messages of a phase may
arrive in any order.
 */
module GroupMigration {
  import opened Grid

  type Tag = nat
  type GroupTag = nat

  /** Directions a particle is flagged to leave in. */
  type Flags = set<Direction>

  /** A stored group: member tags, type or constraint value, and the rank table. */
  datatype Group = Group(members: seq<Tag>, typeval: int, ranks: seq<nat>)

  type RankGroups = map<GroupTag, Group>

  /** A rank update: the sender's table, which entries of it to take, and the group. */
  datatype RankElement = RankElement(ranks: seq<nat>, mask: set<nat>, tag: GroupTag)

  /** A group on its way to another rank. */
  datatype Packed = Packed(tag: GroupTag, group: Group)

  // ----- neighbours -------------------------------------------------------------------------

  predicate NearAxis(a: nat, b: nat, len: nat) {
    a == b || Wrapped(a + 1, len) == b || Wrapped(a - 1, len) == b
  }

  /** The 26-neighbourhood on the torus, without the rank itself. */
  predicate Neighbors(t: Decomposition, a: nat, b: nat)
    requires t.Valid() && a < t.Ranks() && b < t.Ranks()
  {
    var p, q := t.Position(a), t.Position(b);
    a != b && NearAxis(p.x, q.x, t.grid.w) && NearAxis(p.y, q.y, t.grid.h) && NearAxis(p.z, q.z, t.grid.d)
  }

  /** The rank a flagged particle is sent to, from the offsets of its flags. */
  function FlagDestination(t: Decomposition, rank: nat, flags: Flags): (r: nat)
    requires t.Valid() && rank < t.Ranks()
    ensures r < t.Ranks()
  {
    var p := t.Position(rank);
    var ix := if 0 in flags then 1 else if 1 in flags then -1 else 0;
    var iy := if 2 in flags then 1 else if 3 in flags then -1 else 0;
    var iz := if 4 in flags then 1 else if 5 in flags then -1 else 0;
    t.RankAt(Cell(Wrapped(p.x + ix, t.grid.w), Wrapped(p.y + iy, t.grid.h), Wrapped(p.z + iz, t.grid.d)))
  }

  /** A particle flagged in one direction goes where the particle migration sends it. */
  lemma FlagDestinationIsNeighbor(t: Decomposition, rank: nat, dir: Direction)
    requires t.Valid() && rank < t.Ranks()
    ensures FlagDestination(t, rank, {dir}) == t.NeighborRank(rank, dir)
    ensures t.IsCommunicating(dir) ==> Neighbors(t, rank, t.NeighborRank(rank, dir))
  {
    PositionOfRankAt(t, Hop(t.grid, t.Position(rank), dir));
    NeighborOnlyIfCommunicating(t, rank, dir);
  }

  lemma NeighborOnlyIfCommunicating(t: Decomposition, rank: nat, dir: Direction)
    requires t.Valid() && rank < t.Ranks()
    ensures t.IsCommunicating(dir) ==> t.NeighborRank(rank, dir) != rank
  {
    if t.IsCommunicating(dir) {
      NeighborIsOther(t, rank, dir);
    }
  }

  // ----- phase 1: rank updates --------------------------------------------------------------

  /** The new table entry of a member, as far as this rank knows. */
  function MarkEntry(t: Decomposition, rank: nat, g: Group, local: map<Tag, Flags>, incomplete: bool, i: nat): nat
    requires t.Valid() && rank < t.Ranks() && i < |g.members| == |g.ranks|
  {
    if g.members[i] !in local then g.ranks[i]
    else if local[g.members[i]] != {} then FlagDestination(t, rank, local[g.members[i]])
    else if incomplete then rank
    else g.ranks[i]
  }

  function Marked(t: Decomposition, rank: nat, g: Group, local: map<Tag, Flags>, incomplete: bool): (r: Group)
    requires t.Valid() && rank < t.Ranks() && |g.members| == |g.ranks|
    ensures r.members == g.members && r.typeval == g.typeval && |r.ranks| == |g.ranks|
  {
    g.(ranks := seq(|g.ranks|, i requires 0 <= i < |g.ranks| => MarkEntry(t, rank, g, local, incomplete, i)))
  }

  /** The entries this rank is the authority on and reports. */
  function Mask(g: Group, local: map<Tag, Flags>, incomplete: bool): set<nat> {
    set i | 0 <= i < |g.members| && g.members[i] in local && (incomplete || local[g.members[i]] != {})
  }

  /** Is some member elsewhere or about to leave? */
  predicate NeedsUpdate(g: Group, local: map<Tag, Flags>) {
    exists i :: 0 <= i < |g.members| && (g.members[i] !in local || local[g.members[i]] != {})
  }

  function Element(t: Decomposition, rank: nat, tag: GroupTag, g: Group, local: map<Tag, Flags>, incomplete: bool): RankElement
    requires t.Valid() && rank < t.Ranks() && |g.members| == |g.ranks|
  {
    RankElement(Marked(t, rank, g, local, incomplete).ranks,
                if NeedsUpdate(g, local) then Mask(g, local, incomplete) else {}, tag)
  }

  /** Is `el` addressed to `q`? The first pass addresses everyone, later ones other owners. */
  predicate Addressed(rank: nat, el: RankElement, incomplete: bool, q: nat) {
    && el.mask != {}
    && (incomplete || (q != rank && exists j :: 0 <= j < |el.ranks| && el.ranks[j] == q && j !in el.mask))
  }

  /** Nothing is reported of a group whose members are all on the rank and stay there. */
  lemma NothingToReport(t: Decomposition, rank: nat, tag: GroupTag, g: Group, local: map<Tag, Flags>, incomplete: bool, q: nat)
    requires t.Valid() && rank < t.Ranks() && |g.members| == |g.ranks|
    requires forall i :: 0 <= i < |g.members| ==> g.members[i] in local && local[g.members[i]] == {}
    ensures !Addressed(rank, Element(t, rank, tag, g, local, incomplete), incomplete, q)
  {
  }

  /** A later pass reports only to ranks that, by the table, own a member which is elsewhere, and only if a local member leaves. */
  lemma ReportsGoToOwners(t: Decomposition, rank: nat, tag: GroupTag, g: Group, local: map<Tag, Flags>, q: nat)
    requires t.Valid() && rank < t.Ranks() && |g.members| == |g.ranks|
    requires forall i :: 0 <= i < |g.members| && g.members[i] in local ==> g.ranks[i] == rank
    requires Addressed(rank, Element(t, rank, tag, g, local, false), false, q)
    ensures exists j :: 0 <= j < |g.members| && g.members[j] !in local && g.ranks[j] == q
    ensures exists i :: 0 <= i < |g.members| && g.members[i] in local && local[g.members[i]] != {}
  {
    var el := Element(t, rank, tag, g, local, false);
    var j :| 0 <= j < |el.ranks| && el.ranks[j] == q && j !in el.mask;
    assert g.members[j] !in local && g.ranks[j] == q;
    var i :| i in el.mask;
    assert g.members[i] in local;
  }

  ghost predicate TablesSized(groups: RankGroups) {
    forall g :: g in groups ==> |groups[g].ranks| == |groups[g].members|
  }

  function MarkAll(t: Decomposition, rank: nat, groups: RankGroups, local: map<Tag, Flags>, incomplete: bool): RankGroups
    requires t.Valid() && rank < t.Ranks() && TablesSized(groups)
  {
    map g | g in groups :: Marked(t, rank, groups[g], local, incomplete)
  }

  /** Take over the masked entries of an update. */
  function TakeEntries(g: Group, el: RankElement): (r: Group)
    ensures r.members == g.members && r.typeval == g.typeval && |r.ranks| == |g.ranks|
  {
    g.(ranks := seq(|g.ranks|, i requires 0 <= i < |g.ranks| =>
      if i in el.mask && i < |el.ranks| then el.ranks[i] else g.ranks[i]))
  }

  function ApplyUpdate(groups: RankGroups, el: RankElement): RankGroups {
    if el.tag in groups then groups[el.tag := TakeEntries(groups[el.tag], el)] else groups
  }

  function ApplyUpdates(groups: RankGroups, els: seq<RankElement>): RankGroups {
    if els == [] then groups
    else ApplyUpdate(ApplyUpdates(groups, els[..|els| - 1]), els[|els| - 1])
  }

  // ----- phase 2: groups --------------------------------------------------------------------

  /** Does a member leave this rank? */
  predicate Leaving(g: Group, local: map<Tag, Flags>, i: nat) {
    i < |g.members| && g.members[i] in local && local[g.members[i]] != {}
  }

  predicate Staying(g: Group, local: map<Tag, Flags>, i: nat) {
    i < |g.members| && g.members[i] in local && local[g.members[i]] == {}
  }

  /** A group is kept unless a member leaves and none stays. */
  predicate Kept(g: Group, local: map<Tag, Flags>) {
    (exists i :: 0 <= i < |g.members| && Leaving(g, local, i)) ==> exists i :: 0 <= i < |g.members| && Staying(g, local, i)
  }

  function KeepAll(groups: RankGroups, local: map<Tag, Flags>): RankGroups {
    map g | g in groups && Kept(groups[g], local) :: groups[g]
  }

  /** Is the group sent to `q`, the table entry of one of its leaving members? */
  predicate GroupSent(groups: RankGroups, local: map<Tag, Flags>, q: nat, el: Packed) {
    && el.tag in groups && el.group == groups[el.tag]
    && exists i :: 0 <= i < |el.group.ranks| && Leaving(el.group, local, i) && el.group.ranks[i] == q
  }

  /** Add the groups that are not there yet; of several copies the first counts. */
  function AddGroups(groups: RankGroups, els: seq<Packed>): RankGroups {
    if els == [] then groups
    else
      var before := AddGroups(groups, els[..|els| - 1]);
      var el := els[|els| - 1];
      if el.tag in before then before else before[el.tag := el.group]
  }

  // ----- all ranks --------------------------------------------------------------------------

  /** What a group is, wherever it is stored. */
  datatype Bond = Bond(members: seq<Tag>, typeval: int)

  /** One direction step of all ranks: who owns what, what leaves, and whether it is a first pass. */
  datatype Step = Step(t: Decomposition, bonds: map<GroupTag, Bond>, owner: map<Tag, nat>, flags: map<Tag, Flags>, incomplete: bool) {

    ghost predicate Valid() {
      && t.Valid() && owner.Keys == flags.Keys
      && (forall p :: p in owner ==> owner[p] < t.Ranks())
      && (forall g, i :: g in bonds && 0 <= i < |bonds[g].members| ==> bonds[g].members[i] in owner)
    }

    /** What one rank knows: the flags of its own particles. */
    function Local(rank: nat): map<Tag, Flags>
      requires owner.Keys == flags.Keys
    {
      map p | p in owner && owner[p] == rank :: flags[p]
    }

    /** The owner of a particle after it has moved. */
    function NewOwner(p: Tag): (r: nat)
      requires Valid() && p in owner
      ensures r < t.Ranks()
    {
      if flags[p] == {} then owner[p] else FlagDestination(t, owner[p], flags[p])
    }

    /** The owners after the step. */
    function Moved(): (m: map<Tag, nat>)
      requires Valid()
    {
      map p | p in owner :: NewOwner(p)
    }

    /** One direction of a particle migration: all flagged particles leave in the same direction. */
    ghost predicate OneDirection(dir: Direction) {
      && owner.Keys == flags.Keys && t.IsCommunicating(dir)
      && forall p :: p in flags ==> flags[p] == {} || flags[p] == {dir}
    }
  }

  predicate Owns(bonds: map<GroupTag, Bond>, owner: map<Tag, nat>, rank: nat, g: GroupTag) {
    && g in bonds
    && exists i :: 0 <= i < |bonds[g].members| && bonds[g].members[i] in owner && owner[bonds[g].members[i]] == rank
  }

  /** The stored group is the group, with a table of the right size. */
  predicate Stores(b: Bond, g: Group) {
    g.members == b.members && g.typeval == b.typeval && |g.ranks| == |g.members|
  }

  /** Every rank stores exactly the groups it owns a member of. */
  ghost predicate Held(bonds: map<GroupTag, Bond>, owner: map<Tag, nat>, world: seq<RankGroups>) {
    forall r :: 0 <= r < |world| ==>
      && (forall g :: g in world[r] <==> Owns(bonds, owner, r, g))
      && (forall g :: g in world[r] ==> Stores(bonds[g], world[r][g]))
  }

  /** The table names the true owner of every member. */
  ghost predicate TableRight(owner: map<Tag, nat>, g: Group) {
    && |g.ranks| == |g.members|
    && forall i :: 0 <= i < |g.members| ==> g.members[i] in owner && g.ranks[i] == owner[g.members[i]]
  }

  ghost predicate Agreed(bonds: map<GroupTag, Bond>, owner: map<Tag, nat>, world: seq<RankGroups>) {
    && Held(bonds, owner, world)
    && forall r, g :: 0 <= r < |world| && g in world[r] ==> TableRight(owner, world[r][g])
  }

  // ----- the messages of a step -------------------------------------------------------------

  ghost predicate IsUpdate(s: Step, world: seq<RankGroups>, r: nat, q: nat, el: RankElement)
    requires s.Valid() && r < |world| == s.t.Ranks() && TablesSized(world[r])
  {
    && el.tag in world[r] && el == Element(s.t, r, el.tag, world[r][el.tag], s.Local(r), s.incomplete)
    && Addressed(r, el, s.incomplete, q)
  }

  /** A rank receives exactly the updates its neighbours address to it, in any order. */
  ghost predicate UpdatesArrive(s: Step, world: seq<RankGroups>, q: nat, els: seq<RankElement>)
    requires s.Valid() && q < |world| == s.t.Ranks() && forall r :: 0 <= r < |world| ==> TablesSized(world[r])
  {
    forall el :: el in els <==>
      exists r :: 0 <= r < |world| && Neighbors(s.t, r, q) && IsUpdate(s, world, r, q, el)
  }

  ghost predicate GroupsArrive(s: Step, world: seq<RankGroups>, q: nat, els: seq<Packed>)
    requires s.Valid() && q < |world| == s.t.Ranks()
  {
    forall el :: el in els <==>
      exists r :: 0 <= r < |world| && Neighbors(s.t, r, q) && GroupSent(world[r], s.Local(r), q, el)
  }

  /** The tables after the rank updates. */
  ghost predicate AfterUpdates(s: Step, world: seq<RankGroups>, updates: seq<seq<RankElement>>, next: seq<RankGroups>)
    requires s.Valid() && |world| == s.t.Ranks() && forall r :: 0 <= r < |world| ==> TablesSized(world[r])
  {
    && |updates| == |next| == |world|
    && forall q :: 0 <= q < |world| ==>
         && UpdatesArrive(s, world, q, updates[q])
         && next[q] == ApplyUpdates(MarkAll(s.t, q, world[q], s.Local(q), s.incomplete), updates[q])
  }

  ghost predicate AfterGroups(s: Step, world: seq<RankGroups>, sent: seq<seq<Packed>>, next: seq<RankGroups>)
    requires s.Valid() && |world| == s.t.Ranks()
  {
    && |sent| == |next| == |world|
    && forall q :: 0 <= q < |world| ==>
         && GroupsArrive(s, world, q, sent[q])
         && next[q] == AddGroups(KeepAll(world[q], s.Local(q)), sent[q])
  }

  // ----- folding updates --------------------------------------------------------------------

  lemma {:induction false} UpdatesKeepGroups(groups: RankGroups, els: seq<RankElement>, g: GroupTag)
    ensures g in ApplyUpdates(groups, els) <==> g in groups
    ensures g in groups ==>
      var h := ApplyUpdates(groups, els)[g];
      h.members == groups[g].members && h.typeval == groups[g].typeval && |h.ranks| == |groups[g].ranks|
  {
    if els != [] {
      UpdatesKeepGroups(groups, els[..|els| - 1], g);
    }
  }

  /** Does an update in the sequence report entry `i` of group `g`? */
  ghost predicate Reported(els: seq<RankElement>, g: GroupTag, i: nat) {
    exists el :: el in els && el.tag == g && i in el.mask
  }

  /** If all updates of an entry agree on its value, the order of arrival does not matter. */
  lemma {:induction false} UpdatedEntry(groups: RankGroups, els: seq<RankElement>, g: GroupTag, i: nat, v: nat)
    requires g in groups && i < |groups[g].ranks|
    requires forall el :: el in els && el.tag == g && i in el.mask ==> i < |el.ranks| && el.ranks[i] == v
    ensures g in ApplyUpdates(groups, els) && i < |ApplyUpdates(groups, els)[g].ranks|
    ensures ApplyUpdates(groups, els)[g].ranks[i] == if Reported(els, g, i) then v else groups[g].ranks[i]
  {
    UpdatesKeepGroups(groups, els, g);
    if els != [] {
      var n := |els| - 1;
      UpdatesKeepGroups(groups, els[..n], g);
      forall el | el in els[..n] ensures el in els {
      }
      UpdatedEntry(groups, els[..n], g, i, v);
      assert els[n] in els;
      assert Reported(els, g, i) <==> Reported(els[..n], g, i) || (els[n].tag == g && i in els[n].mask) by {
        assert els == els[..n] + [els[n]];
      }
    }
  }

  // ----- phase 1 ----------------------------------------------------------------------------

  /** Only the owner of a member reports it, and it reports where the member goes. */
  lemma UpdateComesFromOwner(s: Step, world: seq<RankGroups>, r: nat, q: nat, el: RankElement, i: nat)
    requires s.Valid() && r < |world| == s.t.Ranks() && Held(s.bonds, s.owner, world) && TablesSized(world[r])
    requires IsUpdate(s, world, r, q, el) && i in el.mask
    ensures el.tag in s.bonds && i < |s.bonds[el.tag].members| == |el.ranks|
    ensures var p := s.bonds[el.tag].members[i]; s.owner[p] == r && el.ranks[i] == s.NewOwner(p)
  {
    assert Owns(s.bonds, s.owner, r, el.tag);
    assert Stores(s.bonds[el.tag], world[r][el.tag]);
  }

  /** Is a rank told about member `i` of group `g` in the first phase? */
  ghost predicate Told(s: Step, q: nat, g: GroupTag, i: nat)
    requires s.Valid() && q < s.t.Ranks() && g in s.bonds && i < |s.bonds[g].members|
  {
    var p := s.bonds[g].members[i];
    s.owner[p] == q || Neighbors(s.t, s.owner[p], q)
  }

  /** A neighbour that stores the group is addressed by the owner of a member to report. */
  lemma ReportIsSent(s: Step, world: seq<RankGroups>, q: nat, g: GroupTag, i: nat)
    requires s.Valid() && q < |world| == s.t.Ranks() && Held(s.bonds, s.owner, world)
    requires forall r :: 0 <= r < |world| ==> TablesSized(world[r])
    requires !s.incomplete ==> Agreed(s.bonds, s.owner, world)
    requires g in world[q] && g in s.bonds && i < |s.bonds[g].members|
    requires var p := s.bonds[g].members[i]; s.owner[p] != q && (s.incomplete || s.flags[p] != {})
    ensures var r := s.owner[s.bonds[g].members[i]];
            && g in world[r]
            && var el := Element(s.t, r, g, world[r][g], s.Local(r), s.incomplete);
            IsUpdate(s, world, r, q, el) && i in el.mask
  {
    var members := s.bonds[g].members;
    var r := s.owner[members[i]];
    assert Owns(s.bonds, s.owner, r, g);
    assert Owns(s.bonds, s.owner, q, g);
    var j :| 0 <= j < |members| && members[j] in s.owner && s.owner[members[j]] == q;
    var h, local := world[r][g], s.Local(r);
    assert Stores(s.bonds[g], h);
    assert h.members[j] !in local;
    assert NeedsUpdate(h, local);
    var el := Element(s.t, r, g, h, local, s.incomplete);
    assert h.members[i] in local && i in Mask(h, local, s.incomplete);
    if !s.incomplete {
      assert TableRight(s.owner, h);
      assert el.ranks[j] == q && j !in el.mask;
    }
  }

  /**
  The first phase, exactly: after it, a rank's table entry for a member names the member's new
  owner if the rank is told about it (and, outside the first pass, also if the member does not
  move); otherwise the entry is what it was. This holds for every order of arrival.
   */
  lemma PhaseOneEntry(s: Step, world: seq<RankGroups>, updates: seq<seq<RankElement>>, next: seq<RankGroups>,
                      q: nat, g: GroupTag, i: nat)
    requires s.Valid() && q < |world| == s.t.Ranks() && Held(s.bonds, s.owner, world)
    requires forall r :: 0 <= r < |world| ==> TablesSized(world[r])
    requires !s.incomplete ==> Agreed(s.bonds, s.owner, world)
    requires AfterUpdates(s, world, updates, next)
    requires g in world[q] && g in s.bonds && i < |s.bonds[g].members|
    ensures g in next[q] && Stores(s.bonds[g], next[q][g])
    ensures var p := s.bonds[g].members[i];
            next[q][g].ranks[i]
            == if Told(s, q, g, i) || (!s.incomplete && s.flags[p] == {}) then s.NewOwner(p) else world[q][g].ranks[i]
  {
    var p := s.bonds[g].members[i];
    var marked := MarkAll(s.t, q, world[q], s.Local(q), s.incomplete);
    assert Stores(s.bonds[g], world[q][g]);
    UpdatesKeepGroups(marked, updates[q], g);
    forall el | el in updates[q] && el.tag == g && i in el.mask
      ensures i < |el.ranks| && el.ranks[i] == s.NewOwner(p) && s.owner[p] != q && Neighbors(s.t, s.owner[p], q)
    {
      var r :| 0 <= r < |world| && Neighbors(s.t, r, q) && IsUpdate(s, world, r, q, el);
      UpdateComesFromOwner(s, world, r, q, el, i);
    }
    UpdatedEntry(marked, updates[q], g, i, s.NewOwner(p));
    var r := s.owner[p];
    if r != q && Neighbors(s.t, r, q) && (s.incomplete || s.flags[p] != {}) {
      ReportIsSent(s, world, q, g, i);
      var el := Element(s.t, r, g, world[r][g], s.Local(r), s.incomplete);
      assert el in updates[q];
      assert Reported(updates[q], g, i);
    }
    if !s.incomplete {
      assert TableRight(s.owner, world[q][g]);
    }
  }

  // ----- phase 2 ----------------------------------------------------------------------------

  lemma {:induction false} AddedGroup(groups: RankGroups, els: seq<Packed>, g: GroupTag)
    ensures g in AddGroups(groups, els) <==> g in groups || exists el :: el in els && el.tag == g
    ensures g in groups ==> AddGroups(groups, els)[g] == groups[g]
    ensures g in AddGroups(groups, els) && g !in groups ==> Packed(g, AddGroups(groups, els)[g]) in els
  {
    if els != [] {
      var n := |els| - 1;
      AddedGroup(groups, els[..n], g);
      assert els == els[..n] + [els[n]];
    }
  }

  /** The rank owns a member of the group that does not leave. */
  ghost predicate HasStaying(s: Step, rank: nat, g: GroupTag)
    requires s.Valid()
  {
    && g in s.bonds
    && exists i :: 0 <= i < |s.bonds[g].members| && s.owner[s.bonds[g].members[i]] == rank && s.flags[s.bonds[g].members[i]] == {}
  }

  /** Between the phases: groups where they were, and each owner's own entries up to date. */
  ghost predicate Marked1(s: Step, world: seq<RankGroups>)
    requires s.Valid()
  {
    && Held(s.bonds, s.owner, world)
    && forall r, g, i :: 0 <= r < |world| && g in world[r] && g in s.bonds && 0 <= i < |s.bonds[g].members|
                         && s.owner[s.bonds[g].members[i]] == r && s.flags[s.bonds[g].members[i]] != {} ==>
         |world[r][g].ranks| == |s.bonds[g].members| && world[r][g].ranks[i] == s.NewOwner(s.bonds[g].members[i])
  }

  lemma KeptIffStaying(s: Step, world: seq<RankGroups>, q: nat, g: GroupTag)
    requires s.Valid() && q < |world| == s.t.Ranks() && Held(s.bonds, s.owner, world)
    ensures g in KeepAll(world[q], s.Local(q)) <==> HasStaying(s, q, g)
  {
    if g in world[q] {
      var h, local := world[q][g], s.Local(q);
      assert Owns(s.bonds, s.owner, q, g) && Stores(s.bonds[g], h);
      var members := s.bonds[g].members;
      var j :| 0 <= j < |members| && members[j] in s.owner && s.owner[members[j]] == q;
      assert Leaving(h, local, j) || Staying(h, local, j);
      if HasStaying(s, q, g) {
        var i :| 0 <= i < |members| && s.owner[members[i]] == q && s.flags[members[i]] == {};
        assert Staying(h, local, i);
      }
      if i :| 0 <= i < |h.members| && Staying(h, local, i) {
        assert s.owner[members[i]] == q && s.flags[members[i]] == {};
      }
    } else if HasStaying(s, q, g) {
      assert Owns(s.bonds, s.owner, q, g);
    }
  }

  /** A leaving member takes its group along. */
  lemma LeavingIsSent(s: Step, world: seq<RankGroups>, g: GroupTag, i: nat)
    requires s.Valid() && |world| == s.t.Ranks() && Marked1(s, world)
    requires g in s.bonds && i < |s.bonds[g].members| && s.flags[s.bonds[g].members[i]] != {}
    ensures var p := s.bonds[g].members[i];
            g in world[s.owner[p]]
            && GroupSent(world[s.owner[p]], s.Local(s.owner[p]), s.NewOwner(p), Packed(g, world[s.owner[p]][g]))
  {
    var p := s.bonds[g].members[i];
    var r := s.owner[p];
    assert Owns(s.bonds, s.owner, r, g);
    assert Stores(s.bonds[g], world[r][g]);
    assert Leaving(world[r][g], s.Local(r), i);
  }

  /** A group that is sent somewhere has a member that moves there. */
  lemma SentHasMember(s: Step, world: seq<RankGroups>, r: nat, q: nat, el: Packed)
    requires s.Valid() && r < |world| == s.t.Ranks() && Marked1(s, world)
    requires GroupSent(world[r], s.Local(r), q, el)
    ensures el.tag in s.bonds && Stores(s.bonds[el.tag], el.group)
    ensures exists i :: 0 <= i < |s.bonds[el.tag].members| && s.owner[s.bonds[el.tag].members[i]] == r
                        && s.flags[s.bonds[el.tag].members[i]] != {} && s.NewOwner(s.bonds[el.tag].members[i]) == q
  {
    assert Owns(s.bonds, s.owner, r, el.tag);
    var i :| 0 <= i < |el.group.ranks| && Leaving(el.group, s.Local(r), i) && el.group.ranks[i] == q;
    assert s.owner[s.bonds[el.tag].members[i]] == r;
  }

  /** Every leaving particle goes to a neighbour of its rank. */
  ghost predicate FlagsReachNeighbors(s: Step)
    requires s.Valid()
  {
    forall p :: p in s.owner && s.flags[p] != {} ==> Neighbors(s.t, s.owner[p], s.NewOwner(p))
  }

  /**
  Whatever the tables of other members say, after the second phase every rank stores exactly the
  groups it will own a member of, once.
   */
  lemma HoldersExact(s: Step, world: seq<RankGroups>, sent: seq<seq<Packed>>, next: seq<RankGroups>)
    requires s.Valid() && |world| == s.t.Ranks() && Marked1(s, world) && FlagsReachNeighbors(s)
    requires AfterGroups(s, world, sent, next)
    ensures Held(s.bonds, s.Moved(), next)
  {
    forall q, g | 0 <= q < |world|
      ensures g in next[q] <==> Owns(s.bonds, s.Moved(), q, g)
      ensures g in next[q] ==> Stores(s.bonds[g], next[q][g])
    {
      HolderExact(s, world, sent, next, q, g);
    }
  }

  lemma HolderExact(s: Step, world: seq<RankGroups>, sent: seq<seq<Packed>>, next: seq<RankGroups>, q: nat, g: GroupTag)
    requires s.Valid() && q < |world| == s.t.Ranks() && Marked1(s, world) && FlagsReachNeighbors(s)
    requires AfterGroups(s, world, sent, next)
    ensures g in next[q] <==> Owns(s.bonds, s.Moved(), q, g)
    ensures g in next[q] ==> Stores(s.bonds[g], next[q][g])
  {
    var kept := KeepAll(world[q], s.Local(q));
    AddedGroup(kept, sent[q], g);
    KeptIffStaying(s, world, q, g);
    if HasStaying(s, q, g) {
      StayingOwns(s, q, g);
    } else if g in next[q] {
      ArrivedOwns(s, world, sent[q], q, Packed(g, next[q][g]));
    } else if Owns(s.bonds, s.Moved(), q, g) {
      NewOwnerReceives(s, world, sent[q], q, g);
    }
  }

  lemma StayingOwns(s: Step, q: nat, g: GroupTag)
    requires s.Valid() && HasStaying(s, q, g)
    ensures Owns(s.bonds, s.owner, q, g) && Owns(s.bonds, s.Moved(), q, g)
  {
    var i :| 0 <= i < |s.bonds[g].members| && s.owner[s.bonds[g].members[i]] == q && s.flags[s.bonds[g].members[i]] == {};
    assert s.Moved()[s.bonds[g].members[i]] == q;
  }

  lemma ArrivedOwns(s: Step, world: seq<RankGroups>, els: seq<Packed>, q: nat, el: Packed)
    requires s.Valid() && q < |world| == s.t.Ranks() && Marked1(s, world) && GroupsArrive(s, world, q, els) && el in els
    ensures Owns(s.bonds, s.Moved(), q, el.tag) && Stores(s.bonds[el.tag], el.group)
  {
    var r :| 0 <= r < |world| && Neighbors(s.t, r, q) && GroupSent(world[r], s.Local(r), q, el);
    SentHasMember(s, world, r, q, el);
    var members := s.bonds[el.tag].members;
    var i :| 0 <= i < |members| && s.owner[members[i]] == r && s.flags[members[i]] != {} && s.NewOwner(members[i]) == q;
    assert s.Moved()[members[i]] == q;
  }

  lemma NewOwnerReceives(s: Step, world: seq<RankGroups>, els: seq<Packed>, q: nat, g: GroupTag)
    requires s.Valid() && q < |world| == s.t.Ranks() && Marked1(s, world) && FlagsReachNeighbors(s)
    requires GroupsArrive(s, world, q, els) && Owns(s.bonds, s.Moved(), q, g) && !HasStaying(s, q, g)
    ensures exists el :: el in els && el.tag == g
  {
    var members := s.bonds[g].members;
    var i :| 0 <= i < |members| && members[i] in s.Moved() && s.Moved()[members[i]] == q;
    assert s.flags[members[i]] != {};
    LeavingIsSent(s, world, g, i);
    assert Packed(g, world[s.owner[members[i]]][g]) in els;
  }

  // ----- the whole step ---------------------------------------------------------------------

  /** Every member that moves away from another rank is reported to this one. */
  ghost predicate Informed(s: Step, rank: nat, g: GroupTag)
    requires s.Valid() && rank < s.t.Ranks()
  {
    g in s.bonds ==> forall i :: 0 <= i < |s.bonds[g].members| && s.flags[s.bonds[g].members[i]] != {} ==> Told(s, rank, g, i)
  }

  /**
  Every member of a stored group is reported to this rank, stays where it is in a later pass, or is
  already entered with its new owner.
   */
  ghost predicate Knows(s: Step, world: seq<RankGroups>, rank: nat, g: GroupTag)
    requires s.Valid() && rank < |world| == s.t.Ranks()
  {
    g in s.bonds && g in world[rank] ==>
      forall i :: 0 <= i < |s.bonds[g].members| ==> KnowsMember(s, world[rank][g], rank, g, i)
  }

  ghost predicate KnowsMember(s: Step, h: Group, rank: nat, g: GroupTag, i: nat)
    requires s.Valid() && rank < s.t.Ranks() && g in s.bonds && i < |s.bonds[g].members|
  {
    var p := s.bonds[g].members[i];
    || Told(s, rank, g, i) || (!s.incomplete && s.flags[p] == {})
    || (i < |h.ranks| && h.ranks[i] == s.NewOwner(p))
  }

  /** Tables between the phases are right exactly on the ranks that know all members. */
  lemma TableRightIffKnown(s: Step, world: seq<RankGroups>, updates: seq<seq<RankElement>>, mid: seq<RankGroups>, q: nat, g: GroupTag)
    requires s.Valid() && q < |world| == s.t.Ranks() && Held(s.bonds, s.owner, world)
    requires forall r :: 0 <= r < |world| ==> TablesSized(world[r])
    requires !s.incomplete ==> Agreed(s.bonds, s.owner, world)
    requires AfterUpdates(s, world, updates, mid) && g in world[q]
    ensures g in mid[q] && g in s.bonds && (TableRight(s.Moved(), mid[q][g]) <==> Knows(s, world, q, g))
  {
    assert Owns(s.bonds, s.owner, q, g) && Stores(s.bonds[g], world[q][g]);
    forall i | 0 <= i < |s.bonds[g].members|
      ensures g in mid[q] && Stores(s.bonds[g], mid[q][g])
      ensures mid[q][g].ranks[i] == s.Moved()[s.bonds[g].members[i]] <==> KnowsMember(s, world[q][g], q, g, i)
    {
      PhaseOneEntry(s, world, updates, mid, q, g, i);
    }
    UpdatesKeepGroups(MarkAll(s.t, q, world[q], s.Local(q), s.incomplete), updates[q], g);
  }

  /** In a later pass from agreement, knowing all members is being told of every move. */
  lemma KnowsIffInformed(s: Step, world: seq<RankGroups>, q: nat, g: GroupTag)
    requires s.Valid() && q < |world| == s.t.Ranks() && !s.incomplete && FlagsReachNeighbors(s)
    requires Agreed(s.bonds, s.owner, world) && g in world[q]
    ensures Knows(s, world, q, g) <==> Informed(s, q, g)
  {
    assert Owns(s.bonds, s.owner, q, g) && TableRight(s.owner, world[q][g]) && Stores(s.bonds[g], world[q][g]);
    forall i | 0 <= i < |s.bonds[g].members|
      ensures KnowsMember(s, world[q][g], q, g, i) <==> (s.flags[s.bonds[g].members[i]] != {} ==> Told(s, q, g, i))
    {
      var p := s.bonds[g].members[i];
      assert world[q][g].ranks[i] == s.owner[p];
      assert s.flags[p] != {} ==> s.NewOwner(p) != s.owner[p];
    }
  }

  /** Tables between the phases are right exactly on the informed ranks. */
  lemma TableRightIffInformed(s: Step, world: seq<RankGroups>, updates: seq<seq<RankElement>>, mid: seq<RankGroups>,
                              q: nat, g: GroupTag)
    requires s.Valid() && q < |world| == s.t.Ranks() && !s.incomplete && FlagsReachNeighbors(s)
    requires Agreed(s.bonds, s.owner, world) && (forall r :: 0 <= r < |world| ==> TablesSized(world[r]))
    requires AfterUpdates(s, world, updates, mid) && g in world[q]
    ensures g in mid[q] && g in s.bonds && (TableRight(s.Moved(), mid[q][g]) <==> Informed(s, q, g))
  {
    TableRightIffKnown(s, world, updates, mid, q, g);
    KnowsIffInformed(s, world, q, g);
  }

  lemma MidMarked(s: Step, world: seq<RankGroups>, updates: seq<seq<RankElement>>, mid: seq<RankGroups>)
    requires s.Valid() && |world| == s.t.Ranks() && Held(s.bonds, s.owner, world)
    requires forall r :: 0 <= r < |world| ==> TablesSized(world[r])
    requires !s.incomplete ==> Agreed(s.bonds, s.owner, world)
    requires AfterUpdates(s, world, updates, mid)
    ensures Marked1(s, mid)
  {
    forall q, g | 0 <= q < |world|
      ensures g in mid[q] <==> Owns(s.bonds, s.owner, q, g)
      ensures g in mid[q] ==> Stores(s.bonds[g], mid[q][g])
    {
      UpdatesKeepGroups(MarkAll(s.t, q, world[q], s.Local(q), s.incomplete), updates[q], g);
    }
    forall r, g, i | 0 <= r < |world| && g in mid[r] && g in s.bonds && 0 <= i < |s.bonds[g].members|
                     && s.owner[s.bonds[g].members[i]] == r
      ensures |mid[r][g].ranks| == |s.bonds[g].members|
      ensures s.flags[s.bonds[g].members[i]] != {} ==> mid[r][g].ranks[i] == s.NewOwner(s.bonds[g].members[i])
    {
      PhaseOneEntry(s, world, updates, mid, r, g, i);
    }
  }

  /** One direction step, both phases. */
  ghost predicate Migrates(s: Step, world: seq<RankGroups>, updates: seq<seq<RankElement>>, mid: seq<RankGroups>,
                           sent: seq<seq<Packed>>, next: seq<RankGroups>)
    requires s.Valid() && |world| == s.t.Ranks()
  {
    && (forall r :: 0 <= r < |world| ==> TablesSized(world[r]))
    && AfterUpdates(s, world, updates, mid) && AfterGroups(s, mid, sent, next)
  }

  lemma OneDirectionReaches(s: Step, dir: Direction)
    requires s.Valid() && s.OneDirection(dir)
    ensures FlagsReachNeighbors(s)
    ensures forall p :: p in s.owner && s.flags[p] != {} ==> s.NewOwner(p) == s.t.NeighborRank(s.owner[p], dir)
  {
    forall p | p in s.owner && s.flags[p] != {}
      ensures Neighbors(s.t, s.owner[p], s.NewOwner(p)) && s.NewOwner(p) == s.t.NeighborRank(s.owner[p], dir)
    {
      FlagDestinationIsNeighbor(s.t, s.owner[p], dir);
    }
  }

  /** Does the rank's copy of a group live on, at the rank itself or at the one it is sent to? */
  ghost predicate CopySurvives(s: Step, dir: Direction, rank: nat, g: GroupTag)
    requires s.Valid() && rank < s.t.Ranks()
  {
    HasStaying(s, rank, g) || !HasStaying(s, s.t.NeighborRank(rank, dir), g)
  }

  /** The rank a new holder takes its copy from: itself if a member stays, else the one behind it. */
  lemma CopySource(s: Step, mid: seq<RankGroups>, sent: seq<seq<Packed>>, next: seq<RankGroups>, dir: Direction,
                   q: nat, g: GroupTag)
    requires s.Valid() && s.OneDirection(dir) && q < |mid| == s.t.Ranks() && Marked1(s, mid)
    requires AfterGroups(s, mid, sent, next) && g in next[q]
    ensures HasStaying(s, q, g) ==> g in mid[q] && next[q][g] == mid[q][g]
    ensures var r := s.t.NeighborRank(q, Opposite(dir));
            !HasStaying(s, q, g) ==> g in mid[r] && next[q][g] == mid[r][g]
  {
    var kept := KeepAll(mid[q], s.Local(q));
    AddedGroup(kept, sent[q], g);
    KeptIffStaying(s, mid, q, g);
    if !HasStaying(s, q, g) {
      var el := Packed(g, next[q][g]);
      var r :| 0 <= r < |mid| && Neighbors(s.t, r, q) && GroupSent(mid[r], s.Local(r), q, el);
      SentHasMember(s, mid, r, q, el);
      OneDirectionReaches(s, dir);
      NeighborOpposite(s.t, r, dir);
    }
  }

  /**
  The exact condition for a direction step to end in agreement, for first and later passes: every rank
  whose copy of a group lives on knows all members of the group.
   */
  lemma AgreementIffKnown(s: Step, world: seq<RankGroups>, updates: seq<seq<RankElement>>, mid: seq<RankGroups>,
                          sent: seq<seq<Packed>>, next: seq<RankGroups>, dir: Direction)
    requires s.Valid() && s.OneDirection(dir) && |world| == s.t.Ranks() && Held(s.bonds, s.owner, world)
    requires (!s.incomplete ==> Agreed(s.bonds, s.owner, world)) && Migrates(s, world, updates, mid, sent, next)
    ensures Agreed(s.bonds, s.Moved(), next)
            <==> forall x, g :: 0 <= x < |world| && Owns(s.bonds, s.owner, x, g) && CopySurvives(s, dir, x, g) ==> Knows(s, world, x, g)
  {
    OneDirectionReaches(s, dir);
    MidMarked(s, world, updates, mid);
    HoldersExact(s, mid, sent, next);
    forall q, g | 0 <= q < |world| && g in next[q]
      ensures var r := if HasStaying(s, q, g) then q else s.t.NeighborRank(q, Opposite(dir));
              && Owns(s.bonds, s.owner, r, g) && CopySurvives(s, dir, r, g)
              && (TableRight(s.Moved(), next[q][g]) <==> Knows(s, world, r, g))
    {
      NewHolder(s, world, updates, mid, sent, next, dir, q, g);
    }
    forall x, g | 0 <= x < |world| && Owns(s.bonds, s.owner, x, g) && CopySurvives(s, dir, x, g)
      ensures var q := if HasStaying(s, x, g) then x else s.t.NeighborRank(x, dir);
              && g in next[q]
              && (TableRight(s.Moved(), next[q][g]) <==> Knows(s, world, x, g))
    {
      SurvivingCopy(s, world, updates, mid, sent, next, dir, x, g);
    }
  }

  /**
  The exact condition for a direction step to keep all ranks in agreement: if before the step the
  ranks agree, then afterwards every rank stores exactly the groups it owns a member of, once, and
  all tables name the true owners, if and only if every rank whose copy of a group lives on is
  equal to or a neighbour of each rank that moves a member of that group.
   */
  lemma AgreementIffInformed(s: Step, world: seq<RankGroups>, updates: seq<seq<RankElement>>, mid: seq<RankGroups>,
                             sent: seq<seq<Packed>>, next: seq<RankGroups>, dir: Direction)
    requires s.Valid() && s.OneDirection(dir) && !s.incomplete && |world| == s.t.Ranks()
    requires Agreed(s.bonds, s.owner, world) && Migrates(s, world, updates, mid, sent, next)
    ensures Agreed(s.bonds, s.Moved(), next)
            <==> forall x, g :: 0 <= x < |world| && Owns(s.bonds, s.owner, x, g) && CopySurvives(s, dir, x, g) ==> Informed(s, x, g)
  {
    AgreementIffKnown(s, world, updates, mid, sent, next, dir);
    OneDirectionReaches(s, dir);
    forall x, g | 0 <= x < |world| && Owns(s.bonds, s.owner, x, g) ensures Knows(s, world, x, g) <==> Informed(s, x, g) {
      KnowsIffInformed(s, world, x, g);
    }
  }

  lemma NewHolder(s: Step, world: seq<RankGroups>, updates: seq<seq<RankElement>>, mid: seq<RankGroups>,
                  sent: seq<seq<Packed>>, next: seq<RankGroups>, dir: Direction, q: nat, g: GroupTag)
    requires s.Valid() && s.OneDirection(dir) && q < |world| == s.t.Ranks() && Held(s.bonds, s.owner, world)
    requires (!s.incomplete ==> Agreed(s.bonds, s.owner, world)) && Migrates(s, world, updates, mid, sent, next)
    requires Marked1(s, mid) && FlagsReachNeighbors(s) && g in next[q]
    ensures var r := if HasStaying(s, q, g) then q else s.t.NeighborRank(q, Opposite(dir));
            && Owns(s.bonds, s.owner, r, g) && CopySurvives(s, dir, r, g)
            && (TableRight(s.Moved(), next[q][g]) <==> Knows(s, world, r, g))
  {
    var r := if HasStaying(s, q, g) then q else s.t.NeighborRank(q, Opposite(dir));
    SourceOwns(s, mid, sent, next, dir, q, g);
    TableRightIffKnown(s, world, updates, mid, r, g);
  }

  lemma SourceOwns(s: Step, mid: seq<RankGroups>, sent: seq<seq<Packed>>, next: seq<RankGroups>, dir: Direction,
                   q: nat, g: GroupTag)
    requires s.Valid() && s.OneDirection(dir) && q < |mid| == s.t.Ranks() && Marked1(s, mid)
    requires AfterGroups(s, mid, sent, next) && g in next[q]
    ensures var r := if HasStaying(s, q, g) then q else s.t.NeighborRank(q, Opposite(dir));
            && Owns(s.bonds, s.owner, r, g) && CopySurvives(s, dir, r, g)
            && g in mid[r] && next[q][g] == mid[r][g]
  {
    CopySource(s, mid, sent, next, dir, q, g);
    NeighborOpposite(s.t, q, Opposite(dir));
  }

  lemma SurvivingCopy(s: Step, world: seq<RankGroups>, updates: seq<seq<RankElement>>, mid: seq<RankGroups>,
                      sent: seq<seq<Packed>>, next: seq<RankGroups>, dir: Direction, x: nat, g: GroupTag)
    requires s.Valid() && s.OneDirection(dir) && x < |world| == s.t.Ranks() && Held(s.bonds, s.owner, world)
    requires (!s.incomplete ==> Agreed(s.bonds, s.owner, world)) && Migrates(s, world, updates, mid, sent, next)
    requires Marked1(s, mid) && FlagsReachNeighbors(s) && Held(s.bonds, s.Moved(), next)
    requires Owns(s.bonds, s.owner, x, g) && CopySurvives(s, dir, x, g)
    ensures var q := if HasStaying(s, x, g) then x else s.t.NeighborRank(x, dir);
            && g in next[q]
            && (TableRight(s.Moved(), next[q][g]) <==> Knows(s, world, x, g))
  {
    var members := s.bonds[g].members;
    var q := if HasStaying(s, x, g) then x else s.t.NeighborRank(x, dir);
    var i :| 0 <= i < |members| && members[i] in s.owner && s.owner[members[i]] == x
             && (HasStaying(s, x, g) ==> s.flags[members[i]] == {});
    OneDirectionReaches(s, dir);
    assert s.Moved()[members[i]] == q;
    assert Owns(s.bonds, s.Moved(), q, g);
    NewHolder(s, world, updates, mid, sent, next, dir, q, g);
    NeighborOpposite(s.t, x, dir);
  }

  // ----- sufficient conditions and whole runs -----------------------------------------------

  /** The owners of every group are pairwise equal or neighbouring. */
  ghost predicate CloseOwners(s: Step)
    requires s.Valid()
  {
    forall g, i, j :: g in s.bonds && 0 <= i < |s.bonds[g].members| && 0 <= j < |s.bonds[g].members| ==>
      var a, b := s.owner[s.bonds[g].members[i]], s.owner[s.bonds[g].members[j]];
      a == b || Neighbors(s.t, a, b)
  }

  lemma CloseOwnersAreTold(s: Step, q: nat, g: GroupTag, i: nat)
    requires s.Valid() && CloseOwners(s) && q < s.t.Ranks()
    requires Owns(s.bonds, s.owner, q, g) && i < |s.bonds[g].members|
    ensures Told(s, q, g, i)
  {
    var members := s.bonds[g].members;
    var j :| 0 <= j < |members| && members[j] in s.owner && s.owner[members[j]] == q;
    assert s.owner[members[i]] == q || Neighbors(s.t, s.owner[members[i]], q);
  }

  /** If all tables are right between the phases, all ranks agree after them. */
  lemma AgreementFromRightTables(s: Step, mid: seq<RankGroups>, sent: seq<seq<Packed>>, next: seq<RankGroups>)
    requires s.Valid() && |mid| == s.t.Ranks() && Marked1(s, mid) && FlagsReachNeighbors(s)
    requires AfterGroups(s, mid, sent, next)
    requires forall r, g :: 0 <= r < |mid| && g in mid[r] ==> TableRight(s.Moved(), mid[r][g])
    ensures Agreed(s.bonds, s.Moved(), next)
  {
    HoldersExact(s, mid, sent, next);
    forall q, g | 0 <= q < |mid| && g in next[q] ensures TableRight(s.Moved(), next[q][g]) {
      var kept := KeepAll(mid[q], s.Local(q));
      AddedGroup(kept, sent[q], g);
      if g !in kept {
        var el := Packed(g, next[q][g]);
        var r :| 0 <= r < |mid| && Neighbors(s.t, r, q) && GroupSent(mid[r], s.Local(r), q, el);
      }
    }
  }

  /**
  With close owners a step re-establishes agreement. In a first pass it does so from arbitrary
  rank tables, as long as every rank stores the groups it owns a member of.
   */
  lemma CloseOwnersAgree(s: Step, world: seq<RankGroups>, updates: seq<seq<RankElement>>, mid: seq<RankGroups>,
                         sent: seq<seq<Packed>>, next: seq<RankGroups>)
    requires s.Valid() && |world| == s.t.Ranks() && CloseOwners(s) && FlagsReachNeighbors(s)
    requires Held(s.bonds, s.owner, world) && (!s.incomplete ==> Agreed(s.bonds, s.owner, world))
    requires Migrates(s, world, updates, mid, sent, next)
    ensures Agreed(s.bonds, s.Moved(), next)
  {
    MidMarked(s, world, updates, mid);
    forall q, g | 0 <= q < |mid| && g in mid[q] ensures TableRight(s.Moved(), mid[q][g]) {
      CloseTableRight(s, world, updates, mid, q, g);
    }
    AgreementFromRightTables(s, mid, sent, next);
  }

  lemma CloseTableRight(s: Step, world: seq<RankGroups>, updates: seq<seq<RankElement>>, mid: seq<RankGroups>, q: nat, g: GroupTag)
    requires s.Valid() && q < |world| == s.t.Ranks() && CloseOwners(s)
    requires Held(s.bonds, s.owner, world) && (!s.incomplete ==> Agreed(s.bonds, s.owner, world))
    requires (forall r :: 0 <= r < |world| ==> TablesSized(world[r])) && AfterUpdates(s, world, updates, mid)
    requires Marked1(s, mid) && g in mid[q]
    ensures TableRight(s.Moved(), mid[q][g])
  {
    assert Owns(s.bonds, s.owner, q, g) && Stores(s.bonds[g], mid[q][g]);
    forall i | 0 <= i < |s.bonds[g].members| ensures mid[q][g].ranks[i] == s.Moved()[s.bonds[g].members[i]] {
      CloseOwnersAreTold(s, q, g, i);
      PhaseOneEntry(s, world, updates, mid, q, g, i);
    }
  }

  /** A step of a run with everything that is sent in it. */
  datatype Event = Event(step: Step, updates: seq<seq<RankElement>>, mid: seq<RankGroups>, sent: seq<seq<Packed>>, next: seq<RankGroups>)

  /** The events follow each other from the given owners and stored groups. */
  ghost predicate IsRun(bonds: map<GroupTag, Bond>, owner: map<Tag, nat>, world: seq<RankGroups>, run: seq<Event>)
    decreases |run|
  {
    run == [] ||
    var e := run[0];
    && e.step.bonds == bonds && e.step.owner == owner && e.step.Valid() && |world| == e.step.t.Ranks()
    && FlagsReachNeighbors(e.step) && Migrates(e.step, world, e.updates, e.mid, e.sent, e.next)
    && IsRun(bonds, e.step.Moved(), e.next, run[1..])
  }

  /**
  Agreement over whole runs: starting from agreement, or from a first pass over arbitrary tables,
  every state along a run in which the owners of each group stay close is in agreement.
   */
  lemma {:induction false} RunKeepsAgreement(bonds: map<GroupTag, Bond>, owner: map<Tag, nat>, world: seq<RankGroups>, run: seq<Event>)
    requires IsRun(bonds, owner, world, run)
    requires Held(bonds, owner, world)
    requires run == [] || run[0].step.incomplete || Agreed(bonds, owner, world)
    requires forall k :: 0 <= k < |run| ==> run[k].step.Valid() && CloseOwners(run[k].step)
    ensures forall k :: 0 <= k < |run| ==> Agreed(bonds, run[k].step.Moved(), run[k].next)
    decreases |run|
  {
    if run != [] {
      var e := run[0];
      CloseOwnersAgree(e.step, world, e.updates, e.mid, e.sent, e.next);
      RunKeepsAgreement(bonds, e.step.Moved(), e.next, run[1..]);
      forall k | 0 <= k < |run| ensures Agreed(bonds, run[k].step.Moved(), run[k].next) {
        if k > 0 {
          assert run[k] == run[1..][k - 1];
        }
      }
    }
  }
}
