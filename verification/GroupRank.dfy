/**
The group arrays of one rank and the loops of a migration step: marking tables, applying
updates, selecting and compacting groups, and adding received ones.
 */
module GroupRank {
  import opened Grid
  import opened GroupMigration

  /** Parallel arrays and their reverse look-up table, read as a map from group tags to groups. */
  function ViewOf(members: seq<seq<Tag>>, typevals: seq<int>, ranks: seq<seq<nat>>, rtag: map<GroupTag, nat>): RankGroups
    requires |members| == |typevals| == |ranks| && forall g :: g in rtag ==> rtag[g] < |members|
  {
    map g | g in rtag :: Group(members[rtag[g]], typevals[rtag[g]], ranks[rtag[g]])
  }

  lemma ViewAppends(members: seq<seq<Tag>>, typevals: seq<int>, ranks: seq<seq<nat>>, rtag: map<GroupTag, nat>, tag: GroupTag, g: Group)
    requires |members| == |typevals| == |ranks| && forall h :: h in rtag ==> rtag[h] < |members|
    ensures ViewOf(members + [g.members], typevals + [g.typeval], ranks + [g.ranks], rtag[tag := |members|])
            == ViewOf(members, typevals, ranks, rtag)[tag := g]
  {
  }

  /** The new table of one group and the entries to report. */
  method MarkGroup(t: Decomposition, rank: nat, g: Group, local: map<Tag, Flags>, incomplete: bool)
    returns (r: seq<nat>, mask: set<nat>)
    requires t.Valid() && rank < t.Ranks() && |g.members| == |g.ranks|
    ensures r == Marked(t, rank, g, local, incomplete).ranks
    ensures mask == if NeedsUpdate(g, local) then Mask(g, local, incomplete) else {}
  {
    r, mask := g.ranks, {};
    var update := false;
    for i := 0 to |g.members|
      invariant |r| == |g.ranks|
      invariant forall k :: 0 <= k < |r| ==> r[k] == if k < i then MarkEntry(t, rank, g, local, incomplete, k) else g.ranks[k]
      invariant mask == set k | 0 <= k < i && g.members[k] in local && (incomplete || local[g.members[k]] != {})
      invariant update <==> exists k :: 0 <= k < i && (g.members[k] !in local || local[g.members[k]] != {})
    {
      var tag := g.members[i];
      if tag !in local {
        update := true;
      } else {
        if incomplete {
          r := r[i := rank];
          mask := mask + {i};
        }
        if local[tag] != {} {
          mask := mask + {i};
          r := r[i := FlagDestination(t, rank, local[tag])];
          update := true;
        }
      }
    }
    if !update {
      mask := {};
    }
  }

  /** The ranks an update is addressed to. */
  method Destinations(rank: nat, el: RankElement, neighbors: seq<nat>, incomplete: bool) returns (to: seq<nat>)
    ensures forall q :: q in to <==> Addressed(rank, el, incomplete, q) && (incomplete ==> q in neighbors)
  {
    to := [];
    if el.mask != {} {
      if incomplete {
        to := neighbors;
      } else {
        for j := 0 to |el.ranks|
          invariant forall q :: q in to <==> q != rank && exists k :: 0 <= k < j && el.ranks[k] == q && k !in el.mask
        {
          if el.ranks[j] != rank && j !in el.mask {
            to := to + [el.ranks[j]];
          }
        }
      }
    }
  }

  /** The look-up table without the groups among `done` that are not kept. */
  ghost predicate Dropped(rtag: map<GroupTag, nat>, before: RankGroups, was: map<GroupTag, nat>, local: map<Tag, Flags>, done: seq<GroupTag>)
    requires before.Keys == was.Keys
  {
    && (forall g :: g in rtag <==> g in before && (g in done ==> Kept(before[g], local)))
    && (forall g :: g in rtag ==> rtag[g] == was[g])
  }

  lemma DropNext(rtag: map<GroupTag, nat>, before: RankGroups, was: map<GroupTag, nat>, local: map<Tag, Flags>, done: seq<GroupTag>, tag: GroupTag)
    requires before.Keys == was.Keys && tag in before && Dropped(rtag, before, was, local, done)
    ensures Dropped(if Kept(before[tag], local) then rtag else rtag - {tag}, before, was, local, done + [tag])
  {
  }

  /** The groups with a look-up position below `idx`, moved to the front of new arrays. */
  ghost predicate Fronted(members: seq<seq<Tag>>, typevals: seq<int>, tags: seq<GroupTag>, ranks: seq<seq<nat>>,
                          moved: map<GroupTag, nat>, rtag: map<GroupTag, nat>, before: RankGroups, idx: nat)
  {
    && |members| == |typevals| == |tags| == |ranks| && rtag.Keys == before.Keys
    && (forall i :: 0 <= i < |members| ==> |ranks[i]| == |members[i]|)
    && (forall i :: 0 <= i < |tags| ==> tags[i] in moved && moved[tags[i]] == i)
    && (forall g :: g in moved <==> g in rtag && rtag[g] < idx)
    && (forall g :: g in moved ==>
          moved[g] < |tags| && tags[moved[g]] == g && Group(members[moved[g]], typevals[moved[g]], ranks[moved[g]]) == before[g])
  }

  lemma FrontNext(members: seq<seq<Tag>>, typevals: seq<int>, tags: seq<GroupTag>, ranks: seq<seq<nat>>,
                  moved: map<GroupTag, nat>, rtag: map<GroupTag, nat>, before: RankGroups, idx: nat, tag: GroupTag)
    requires Fronted(members, typevals, tags, ranks, moved, rtag, before, idx) && tag in before && rtag[tag] == idx
    requires |before[tag].ranks| == |before[tag].members| && forall g :: g in rtag && rtag[g] == idx ==> g == tag
    ensures Fronted(members + [before[tag].members], typevals + [before[tag].typeval], tags + [tag], ranks + [before[tag].ranks],
                    moved[tag := |tags|], rtag, before, idx + 1)
  {
  }

  lemma FrontedAll(members: seq<seq<Tag>>, typevals: seq<int>, tags: seq<GroupTag>, ranks: seq<seq<nat>>,
                   moved: map<GroupTag, nat>, rtag: map<GroupTag, nat>, before: RankGroups, idx: nat)
    requires Fronted(members, typevals, tags, ranks, moved, rtag, before, idx) && forall g :: g in rtag ==> rtag[g] < idx
    ensures ViewOf(members, typevals, ranks, moved) == before
  {
    assert moved.Keys == before.Keys;
  }

  class GroupArrays {
    var members: seq<seq<Tag>>
    var typevals: seq<int>
    var tags: seq<GroupTag>
    var ranks: seq<seq<nat>>
    var rtag: map<GroupTag, nat>

    /** All arrays have one length. */
    ghost predicate Parallel()
      reads this
    {
      && |members| == |typevals| == |tags| == |ranks|
      && forall i :: 0 <= i < |members| ==> |ranks[i]| == |members[i]|
    }

    /** Tags and reverse look-up are mutually inverse. */
    ghost predicate Valid()
      reads this
    {
      && Parallel()
      && (forall i :: 0 <= i < |tags| ==> tags[i] in rtag && rtag[tags[i]] == i)
      && (forall g :: g in rtag ==> rtag[g] < |tags| && tags[rtag[g]] == g)
    }

    function View(): RankGroups
      requires |members| == |typevals| == |ranks| && forall g :: g in rtag ==> rtag[g] < |members|
      reads this`members, this`typevals, this`ranks, this`rtag
    {
      ViewOf(members, typevals, ranks, rtag)
    }

    function GroupAt(i: nat): Group
      requires i < |members| == |typevals| == |ranks|
      reads this`members, this`typevals, this`ranks
    {
      Group(members[i], typevals[i], ranks[i])
    }

    /** The groups before `idx` are marked, the others are as they were. */
    ghost predicate MarkedUpTo(t: Decomposition, rank: nat, before: RankGroups, local: map<Tag, Flags>, incomplete: bool, idx: nat)
      requires Parallel() && t.Valid() && rank < t.Ranks() && TablesSized(before)
      reads this
    {
      forall i :: 0 <= i < |tags| ==>
        && tags[i] in before
        && GroupAt(i) == if i < idx then Marked(t, rank, before[tags[i]], local, incomplete) else before[tags[i]]
    }

    lemma MarkedView(t: Decomposition, rank: nat, before: RankGroups, local: map<Tag, Flags>, incomplete: bool)
      requires Valid() && t.Valid() && rank < t.Ranks() && TablesSized(before) && before.Keys == rtag.Keys
      requires MarkedUpTo(t, rank, before, local, incomplete, |tags|)
      ensures View() == MarkAll(t, rank, before, local, incomplete)
    {
      forall g | g in rtag ensures View()[g] == Marked(t, rank, before[g], local, incomplete) {
        assert GroupAt(rtag[g]) == Marked(t, rank, before[tags[rtag[g]]], local, incomplete);
      }
    }

    /** Mark one group. */
    method MarkAt(t: Decomposition, rank: nat, local: map<Tag, Flags>, incomplete: bool, idx: nat, ghost before: RankGroups)
      returns (el: RankElement)
      requires Valid() && t.Valid() && rank < t.Ranks() && TablesSized(before) && idx < |tags|
      requires MarkedUpTo(t, rank, before, local, incomplete, idx)
      modifies this`ranks
      ensures Valid() && MarkedUpTo(t, rank, before, local, incomplete, idx + 1)
      ensures el == Element(t, rank, tags[idx], before[tags[idx]], local, incomplete)
    {
      assert GroupAt(idx) == before[tags[idx]];
      var r, mask := MarkGroup(t, rank, GroupAt(idx), local, incomplete);
      ranks := ranks[idx := r];
      el := RankElement(r, mask, tags[idx]);
    }

    /** Mark the tables of all groups and collect the rank updates to send. */
    method MarkRanks(t: Decomposition, rank: nat, local: map<Tag, Flags>, neighbors: seq<nat>, incomplete: bool)
      returns (sends: seq<(nat, RankElement)>)
      requires Valid() && t.Valid() && rank < t.Ranks()
      modifies this`ranks
      ensures Valid() && TablesSized(old(View()))
      ensures View() == MarkAll(t, rank, old(View()), local, incomplete)
      ensures SendsOf(t, rank, old(View()), local, incomplete, neighbors, tags, sends)
    {
      ghost var before := View();
      assert TablesSized(before);
      sends := [];
      for idx := 0 to |tags|
        invariant Valid() && MarkedUpTo(t, rank, before, local, incomplete, idx)
        invariant SendsOf(t, rank, before, local, incomplete, neighbors, tags[..idx], sends)
      {
        var el := MarkAt(t, rank, local, incomplete, idx, before);
        var to := Destinations(rank, el, neighbors, incomplete);
        ExtendSends(t, rank, before, local, incomplete, neighbors, tags[..idx], sends, tags[idx], to);
        sends := sends + Pairs(to, el);
        assert tags[..idx + 1] == tags[..idx] + [tags[idx]];
      }
      assert tags[..|tags|] == tags;
      MarkedView(t, rank, before, local, incomplete);
    }

    /** Take over the reported entries of groups that are stored here. */
    method ApplyRankUpdates(els: seq<RankElement>)
      requires Valid()
      modifies this`ranks
      ensures Valid() && View() == ApplyUpdates(old(View()), els)
    {
      ghost var before := View();
      for k := 0 to |els|
        invariant Valid() && View() == ApplyUpdates(before, els[..k])
      {
        assert els[..k + 1][..k] == els[..k];
        var el := els[k];
        if el.tag in rtag {
          var gidx := rtag[el.tag];
          ghost var g := GroupAt(gidx);
          ghost var views := View();
          ranks := ranks[gidx := TakeEntries(GroupAt(gidx), el).ranks];
          assert View() == views[el.tag := TakeEntries(g, el)];
        }
      }
      assert els[..|els|] == els;
    }

    /** Collect the groups to send and drop those without a staying member from the look-up table. */
    method SelectGroups(local: map<Tag, Flags>) returns (sends: seq<(nat, Packed)>)
      requires Valid()
      modifies this`rtag
      ensures Compactable() && View() == KeepAll(old(View()), local)
      ensures forall m :: m in sends <==> GroupSent(old(View()), local, m.0, m.1)
    {
      ghost var before, was := View(), rtag;
      sends := [];
      for idx := 0 to |tags|
        invariant Dropped(rtag, before, was, local, tags[..idx]) && GroupSendsOf(before, local, tags[..idx], sends)
      {
        sends := SelectAt(idx, local, sends, before, was);
      }
      assert tags[..|tags|] == tags;
      assert forall g :: g in before ==> g in tags;
    }

    /** Send one group to where its members leave, and drop it if none stays. */
    method SelectAt(idx: nat, local: map<Tag, Flags>, sends: seq<(nat, Packed)>, ghost before: RankGroups, ghost was: map<GroupTag, nat>)
      returns (sends': seq<(nat, Packed)>)
      requires Parallel() && idx < |tags| && before.Keys == was.Keys && tags[idx] in before && before[tags[idx]] == GroupAt(idx)
      requires Dropped(rtag, before, was, local, tags[..idx]) && GroupSendsOf(before, local, tags[..idx], sends)
      modifies this`rtag
      ensures Dropped(rtag, before, was, local, tags[..idx + 1]) && GroupSendsOf(before, local, tags[..idx + 1], sends')
    {
      var g := GroupAt(idx);
      var to, keep := LeavingTo(g, local);
      ExtendGroupSends(before, local, tags[..idx], sends, tags[idx], to);
      sends' := sends + PackedPairs(to, Packed(tags[idx], g));
      assert tags[..idx + 1] == tags[..idx] + [tags[idx]];
      DropNext(rtag, before, was, local, tags[..idx], tags[idx]);
      if !keep {
        rtag := rtag - {tags[idx]};
      }
    }

    /** The look-up table may lack tags, but what it holds is right. */
    ghost predicate Compactable()
      reads this
    {
      && Parallel()
      && (forall g :: g in rtag ==> rtag[g] < |tags| && tags[rtag[g]] == g)
      && (forall i :: 0 <= i < |tags| && tags[i] in rtag ==> rtag[tags[i]] == i)
    }

    /** Move the groups that are still in the look-up table to the front of new arrays. */
    method Compact()
      requires Compactable()
      modifies this
      ensures Valid() && View() == old(View())
    {
      ghost var before := View();
      var altMembers, altTypevals, altTags, altRanks := [], [], [], [];
      var newRtag: map<GroupTag, nat> := map[];
      for idx := 0 to |tags|
        invariant Fronted(altMembers, altTypevals, altTags, altRanks, newRtag, rtag, before, idx)
        modifies {}
      {
        var groupTag := tags[idx];
        if groupTag in rtag {
          FrontNext(altMembers, altTypevals, altTags, altRanks, newRtag, rtag, before, idx, groupTag);
          newRtag := newRtag[groupTag := |altTags|];
          altMembers := altMembers + [members[idx]];
          altTypevals := altTypevals + [typevals[idx]];
          altTags := altTags + [groupTag];
          altRanks := altRanks + [ranks[idx]];
        }
      }
      FrontedAll(altMembers, altTypevals, altTags, altRanks, newRtag, rtag, before, |tags|);
      members, typevals, tags, ranks, rtag := altMembers, altTypevals, altTags, altRanks, newRtag;
    }

    /** Append one group. */
    method Append(tag: GroupTag, g: Group)
      requires Valid() && tag !in rtag && |g.ranks| == |g.members|
      modifies this
      ensures Valid() && View() == old(View())[tag := g]
    {
      ViewAppends(members, typevals, ranks, rtag, tag, g);
      rtag := rtag[tag := |tags|];
      members := members + [g.members];
      typevals := typevals + [g.typeval];
      tags := tags + [tag];
      ranks := ranks + [g.ranks];
    }

    /** What is stored wins over what is received; `todo` is still to be looked at. */
    ghost predicate Merged(received: RankGroups, todo: set<GroupTag>, before: RankGroups)
      requires Valid()
      reads this
    {
      && (forall g :: g in View() <==> g in before || (g in received && g !in todo))
      && (forall g :: g in View() ==> View()[g] == if g in before then before[g] else received[g])
    }

    /** Filter duplicates among the received groups and append those not stored yet. */
    method AddReceived(els: seq<Packed>)
      requires Valid() && forall el :: el in els ==> |el.group.ranks| == |el.group.members|
      modifies this
      ensures Valid() && View() == AddGroups(old(View()), els)
    {
      ghost var before := View();
      var received := FirstOfEach(els);
      // the map is visited in tag order; the stored groups do not depend on the order
      var todo := received.Keys;
      while todo != {}
        invariant todo <= received.Keys && Valid() && Merged(received, todo, before)
        decreases todo
      {
        var tag :| tag in todo;
        if tag !in rtag {
          Append(tag, received[tag]);
        }
        todo := todo - {tag};
      }
      assert View() == received + before;
      AddGroupsMerge(before, els);
    }
  }

  function Pairs(to: seq<nat>, el: RankElement): (r: seq<(nat, RankElement)>)
    ensures forall m :: m in r <==> m.0 in to && m.1 == el
  {
    if to == [] then [] else [(to[0], el)] + Pairs(to[1..], el)
  }

  /** The updates sent for the groups with the given tags, each to everyone it is addressed to. */
  ghost predicate SendsOf(t: Decomposition, rank: nat, groups: RankGroups, local: map<Tag, Flags>, incomplete: bool,
                          neighbors: seq<nat>, tags: seq<GroupTag>, sends: seq<(nat, RankElement)>)
    requires t.Valid() && rank < t.Ranks() && TablesSized(groups)
  {
    forall m :: m in sends <==>
      && m.1.tag in tags && m.1.tag in groups
      && m.1 == Element(t, rank, m.1.tag, groups[m.1.tag], local, incomplete)
      && Addressed(rank, m.1, incomplete, m.0) && (incomplete ==> m.0 in neighbors)
  }

  lemma ExtendSends(t: Decomposition, rank: nat, groups: RankGroups, local: map<Tag, Flags>, incomplete: bool,
                    neighbors: seq<nat>, tags: seq<GroupTag>, sends: seq<(nat, RankElement)>, tag: GroupTag, to: seq<nat>)
    requires t.Valid() && rank < t.Ranks() && TablesSized(groups) && tag in groups
    requires SendsOf(t, rank, groups, local, incomplete, neighbors, tags, sends)
    requires forall q :: q in to <==>
      Addressed(rank, Element(t, rank, tag, groups[tag], local, incomplete), incomplete, q) && (incomplete ==> q in neighbors)
    ensures SendsOf(t, rank, groups, local, incomplete, neighbors, tags + [tag],
                    sends + Pairs(to, Element(t, rank, tag, groups[tag], local, incomplete)))
  {
    var el := Element(t, rank, tag, groups[tag], local, incomplete);
    var all := sends + Pairs(to, el);
    forall m: (nat, RankElement)
      ensures m in all <==>
              && m.1.tag in tags + [tag] && m.1.tag in groups
              && m.1 == Element(t, rank, m.1.tag, groups[m.1.tag], local, incomplete)
              && Addressed(rank, m.1, incomplete, m.0) && (incomplete ==> m.0 in neighbors)
    {
      assert m in all <==> m in sends || (m.0 in to && m.1 == el);
      assert m.1.tag in tags + [tag] <==> m.1.tag in tags || m.1.tag == tag;
    }
  }

  function PackedPairs(to: seq<nat>, el: Packed): (r: seq<(nat, Packed)>)
    ensures forall m :: m in r <==> m.0 in to && m.1 == el
  {
    if to == [] then [] else [(to[0], el)] + PackedPairs(to[1..], el)
  }

  /** Where a group is sent, and whether it stays stored here. */
  method LeavingTo(g: Group, local: map<Tag, Flags>) returns (to: seq<nat>, keep: bool)
    requires |g.ranks| == |g.members|
    ensures forall q :: q in to <==> exists i :: 0 <= i < |g.ranks| && Leaving(g, local, i) && g.ranks[i] == q
    ensures keep <==> Kept(g, local)
  {
    to := [];
    var isLocal := false;
    for i := 0 to |g.members|
      invariant forall q :: q in to <==> exists k :: 0 <= k < i && Leaving(g, local, k) && g.ranks[k] == q
      invariant to != [] <==> exists k :: 0 <= k < i && Leaving(g, local, k)
      invariant isLocal <==> exists k :: 0 <= k < i && Staying(g, local, k)
    {
      var tag := g.members[i];
      if tag in local {
        if local[tag] != {} {
          assert Leaving(g, local, i);
          to := to + [g.ranks[i]];
        } else {
          assert Staying(g, local, i);
          isLocal := true;
        }
      }
    }
    keep := to == [] || isLocal;
  }

  /** Adding to what is stored is adding to nothing and letting what is stored win. */
  lemma {:induction false} AddGroupsMerge(groups: RankGroups, els: seq<Packed>)
    ensures AddGroups(groups, els) == AddGroups(map[], els) + groups
  {
    if els != [] {
      AddGroupsMerge(groups, els[..|els| - 1]);
    }
  }

  /** The first of each group among the received ones. */
  method FirstOfEach(els: seq<Packed>) returns (received: RankGroups)
    requires forall el :: el in els ==> |el.group.ranks| == |el.group.members|
    ensures received == AddGroups(map[], els) && TablesSized(received)
  {
    received := map[];
    for k := 0 to |els|
      invariant received == AddGroups(map[], els[..k]) && TablesSized(received)
    {
      assert els[..k + 1][..k] == els[..k];
      if els[k].tag !in received {
        received := received[els[k].tag := els[k].group];
      }
    }
    assert els[..|els|] == els;
  }

  /** The groups among `done` that are sent, each to every rank it is sent to. */
  ghost predicate GroupSendsOf(groups: RankGroups, local: map<Tag, Flags>, done: seq<GroupTag>, sends: seq<(nat, Packed)>) {
    forall m :: m in sends <==> m.1.tag in done && GroupSent(groups, local, m.0, m.1)
  }

  lemma ExtendGroupSends(groups: RankGroups, local: map<Tag, Flags>, done: seq<GroupTag>, sends: seq<(nat, Packed)>,
                         tag: GroupTag, to: seq<nat>)
    requires tag in groups && GroupSendsOf(groups, local, done, sends)
    requires forall q :: q in to <==>
      exists i :: 0 <= i < |groups[tag].ranks| && Leaving(groups[tag], local, i) && groups[tag].ranks[i] == q
    ensures GroupSendsOf(groups, local, done + [tag], sends + PackedPairs(to, Packed(tag, groups[tag])))
  {
    var el := Packed(tag, groups[tag]);
    var all := sends + PackedPairs(to, el);
    forall m: (nat, Packed) ensures m in all <==> m.1.tag in done + [tag] && GroupSent(groups, local, m.0, m.1) {
      assert m in all <==> m in sends || (m.0 in to && m.1 == el);
      assert m.1.tag in done + [tag] <==> m.1.tag in done || m.1.tag == tag;
    }
  }

  // ----- neighbour arrays -------------------------------------------------------------------

  datatype Offset = Offset(x: int, y: int, z: int)

  /** Not the rank itself, and nothing along an axis with a single domain. */
  predicate Counts(t: Decomposition, o: Offset) {
    && o != Offset(0, 0, 0)
    && (o.x == 0 || t.grid.w != 1) && (o.y == 0 || t.grid.h != 1) && (o.z == 0 || t.grid.d != 1)
  }

  predicate Small(o: Offset) {
    -1 <= o.x <= 1 && -1 <= o.y <= 1 && -1 <= o.z <= 1
  }

  function RankAtOffset(t: Decomposition, rank: nat, o: Offset): (q: nat)
    requires t.Valid() && rank < t.Ranks() && Small(o)
    ensures q < t.Ranks()
  {
    var p := t.Position(rank);
    t.RankAt(Cell(Wrapped(p.x + o.x, t.grid.w), Wrapped(p.y + o.y, t.grid.h), Wrapped(p.z + o.z, t.grid.d)))
  }

  function OffsetTo(a: nat, b: nat, len: nat): int {
    if a == b then 0 else if Wrapped(a + 1, len) == b then 1 else -1
  }

  /** The neighbours are the ranks at the offsets that count. */
  lemma NeighborsByOffset(t: Decomposition, rank: nat, q: nat)
    requires t.Valid() && rank < t.Ranks() && q < t.Ranks()
    ensures Neighbors(t, rank, q) <==> exists o :: Small(o) && Counts(t, o) && RankAtOffset(t, rank, o) == q
  {
    if Neighbors(t, rank, q) {
      var o := OffsetOfNeighbor(t, rank, q);
      assert Small(o) && Counts(t, o) && RankAtOffset(t, rank, o) == q;
    }
    if o :| Small(o) && Counts(t, o) && RankAtOffset(t, rank, o) == q {
      NeighborAtOffset(t, rank, o);
    }
  }

  lemma OffsetOfNeighbor(t: Decomposition, rank: nat, q: nat) returns (o: Offset)
    requires t.Valid() && rank < t.Ranks() && q < t.Ranks() && Neighbors(t, rank, q)
    ensures Small(o) && Counts(t, o) && RankAtOffset(t, rank, o) == q
  {
    var a, b := t.Position(rank), t.Position(q);
    RankAtPosition(t, rank);
    RankAtPosition(t, q);
    o := Offset(OffsetTo(a.x, b.x, t.grid.w), OffsetTo(a.y, b.y, t.grid.h), OffsetTo(a.z, b.z, t.grid.d));
  }

  lemma NeighborAtOffset(t: Decomposition, rank: nat, o: Offset)
    requires t.Valid() && rank < t.Ranks() && Small(o) && Counts(t, o)
    ensures Neighbors(t, rank, RankAtOffset(t, rank, o))
  {
    var a := t.Position(rank);
    RankAtPosition(t, rank);
    PositionOfRankAt(t, Cell(Wrapped(a.x + o.x, t.grid.w), Wrapped(a.y + o.y, t.grid.h), Wrapped(a.z + o.z, t.grid.d)));
  }

  /** Offsets visited before (x, y, z) in the order of the nested loops. */
  predicate Before(o: Offset, x: int, y: int, z: int) {
    o.x < x || (o.x == x && (o.y < y || (o.y == y && o.z < z)))
  }

  ghost predicate FoundBefore(t: Decomposition, rank: nat, unique: seq<nat>, x: int, y: int, z: int)
    requires t.Valid() && rank < t.Ranks()
  {
    && (forall q :: q in unique <==>
          q < t.Ranks() && exists o :: Small(o) && Before(o, x, y, z) && Counts(t, o) && RankAtOffset(t, rank, o) == q)
    && (forall i, j :: 0 <= i < j < |unique| ==> unique[i] != unique[j])
  }

  lemma FoundSame(t: Decomposition, rank: nat, unique: seq<nat>, x: int, y: int, z: int, x': int, y': int, z': int)
    requires t.Valid() && rank < t.Ranks() && FoundBefore(t, rank, unique, x, y, z)
    requires forall o :: Small(o) && Counts(t, o) ==> (Before(o, x, y, z) <==> Before(o, x', y', z'))
    ensures FoundBefore(t, rank, unique, x', y', z')
  {
  }

  /** The ranks in the 26-neighbourhood, each once; axes with a single domain are skipped. */
  method UniqueNeighbors(t: Decomposition, rank: nat) returns (unique: seq<nat>)
    requires t.Valid() && rank < t.Ranks()
    ensures forall q: nat :: q in unique <==> q < t.Ranks() && Neighbors(t, rank, q)
    ensures forall i, j :: 0 <= i < j < |unique| ==> unique[i] != unique[j]
  {
    unique := [];
    for ix := -1 to 2
      invariant FoundBefore(t, rank, unique, ix, -1, -1)
    {
      for iy := -1 to 2
        invariant FoundBefore(t, rank, unique, ix, iy, -1)
      {
        for iz := -1 to 2
          invariant FoundBefore(t, rank, unique, ix, iy, iz)
        {
          unique := VisitOffset(t, rank, unique, ix, iy, iz);
        }
        FoundSame(t, rank, unique, ix, iy, 2, ix, iy + 1, -1);
      }
      FoundSame(t, rank, unique, ix, 2, -1, ix + 1, -1, -1);
    }
    forall q: nat | q < t.Ranks() ensures q in unique <==> Neighbors(t, rank, q) {
      NeighborsByOffset(t, rank, q);
    }
  }

  method VisitOffset(t: Decomposition, rank: nat, unique: seq<nat>, ix: int, iy: int, iz: int) returns (r: seq<nat>)
    requires t.Valid() && rank < t.Ranks() && Small(Offset(ix, iy, iz)) && FoundBefore(t, rank, unique, ix, iy, iz)
    ensures FoundBefore(t, rank, r, ix, iy, iz + 1)
  {
    var o := Offset(ix, iy, iz);
    r := unique;
    FoundNext(t, rank, unique, ix, iy, iz, iz + 1);
    if Counts(t, o) {
      var neighbor := RankAtOffset(t, rank, o);
      if neighbor !in unique {
        r := r + [neighbor];
      }
    }
  }

  /** What one more offset adds. */
  lemma FoundNext(t: Decomposition, rank: nat, unique: seq<nat>, ix: int, iy: int, iz: int, next: int)
    requires t.Valid() && rank < t.Ranks() && Small(Offset(ix, iy, iz)) && FoundBefore(t, rank, unique, ix, iy, iz) && next == iz + 1
    ensures var o := Offset(ix, iy, iz);
      FoundBefore(t, rank,
                  if Counts(t, o) && RankAtOffset(t, rank, o) !in unique then unique + [RankAtOffset(t, rank, o)] else unique,
                  ix, iy, next)
  {
    var o := Offset(ix, iy, iz);
    var r := if Counts(t, o) && RankAtOffset(t, rank, o) !in unique then unique + [RankAtOffset(t, rank, o)] else unique;
    forall q ensures q in r <==>
      q < t.Ranks() && exists o' :: Small(o') && Before(o', ix, iy, next) && Counts(t, o') && RankAtOffset(t, rank, o') == q
    {
      if q in unique {
        var o' :| Small(o') && Before(o', ix, iy, iz) && Counts(t, o') && RankAtOffset(t, rank, o') == q;
        assert Before(o', ix, iy, next);
      } else if q in r {
        assert Before(o, ix, iy, next);
      }
      if o' :| Small(o') && Before(o', ix, iy, next) && Counts(t, o') && RankAtOffset(t, rank, o') == q {
        assert Before(o', ix, iy, iz) || o' == o;
      }
    }
  }
}
