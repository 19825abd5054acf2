/**
The table of groups by particle: for every particle the groups it is a member of, each with the
other members, the type or the index of the group, and the position of the particle in it.
 */
module GroupTable {
  import opened BondedGroups
  import opened Sequences

  /** A member of a group, by position. */
  datatype Member = Member(group: nat, pos: nat)

  /** The groups and where particles are; `index` maps particle tags to particle indices. */
  datatype Input = Input(groups: seq<Group>, size: nat, index: seq<nat>, particles: nat, hasTypeMapping: bool) {

    ghost predicate Valid() {
      && 1 <= size && 1 <= particles && particles <= NOT_LOCAL
      && (forall g :: 0 <= g < |groups| ==> |groups[g].members| == size && (hasTypeMapping ==> groups[g].typeval.OfType?))
      && (forall g, i :: 0 <= g < |groups| && 0 <= i < size ==> groups[g].members[i] < |index|)
      && (forall t :: 0 <= t < |index| ==> index[t] == NOT_LOCAL || index[t] < particles)
    }

    predicate Exists(m: Member) {
      m.group < |groups| && m.pos < size
    }

    /** The particle index of a member, or NOT_LOCAL. */
    function At(m: Member): (p: nat)
      requires Valid() && Exists(m)
      ensures p == NOT_LOCAL || p < particles
    {
      index[groups[m.group].members[m.pos]]
    }

    /** All members are on this rank. */
    ghost predicate IsComplete()
      requires Valid()
    {
      forall m :: Exists(m) ==> At(m) != NOT_LOCAL
    }
  }

  /** Members are visited group by group; those before position `i` of group `g` were visited. */
  ghost predicate Before(m: Member, g: nat, i: nat) {
    m.group < g || (m.group == g && m.pos < i)
  }

  /** The visited members at a particle, in order. */
  ghost function Entries(s: Input, p: nat, g: nat, i: nat): seq<Member>
    requires s.Valid() && g <= |s.groups| && i <= s.size && (g == |s.groups| ==> i == 0)
    decreases g, i
  {
    if i > 0 then Entries(s, p, g, i - 1) + if s.At(Member(g, i - 1)) == p then [Member(g, i - 1)] else []
    else if g > 0 then Entries(s, p, g - 1, s.size)
    else []
  }

  ghost function AllEntries(s: Input, p: nat): seq<Member>
    requires s.Valid()
  {
    Entries(s, p, |s.groups|, 0)
  }

  /** Every visited member is listed at its particle, once. */
  lemma {:induction false} EntriesExact(s: Input, p: nat, g: nat, i: nat)
    requires s.Valid() && g <= |s.groups| && i <= s.size && (g == |s.groups| ==> i == 0)
    ensures forall m :: m in Entries(s, p, g, i) <==> s.Exists(m) && Before(m, g, i) && s.At(m) == p
    ensures Distinct(Entries(s, p, g, i))
    decreases g, i
  {
    if i > 0 {
      EntriesExact(s, p, g, i - 1);
      var (before, m) := (Entries(s, p, g, i - 1), Member(g, i - 1));
      assert m !in before;
      forall k ensures k in Entries(s, p, g, i) <==> s.Exists(k) && Before(k, g, i) && s.At(k) == p {
        assert k in Entries(s, p, g, i) <==> k in before || (s.At(m) == p && k == m);
      }
    } else if g > 0 {
      EntriesExact(s, p, g - 1, s.size);
    }
  }

  /** In the order of the groups, and of positions within a group. */
  ghost predicate InOrder(e: seq<Member>) {
    forall k, l :: 0 <= k < l < |e| ==> Before(e[k], e[l].group, e[l].pos)
  }

  /** The members at a particle are listed in the order in which they are visited. */
  lemma {:induction false} EntriesOrdered(s: Input, p: nat, g: nat, i: nat)
    requires s.Valid() && g <= |s.groups| && i <= s.size && (g == |s.groups| ==> i == 0)
    ensures InOrder(Entries(s, p, g, i))
    decreases g, i
  {
    if i > 0 {
      EntriesOrdered(s, p, g, i - 1);
      EntriesExact(s, p, g, i - 1);
      OrderGrows(Entries(s, p, g, i - 1), Member(g, i - 1));
    } else if g > 0 {
      EntriesOrdered(s, p, g - 1, s.size);
      NextGroup(s, p, g - 1, g);
    }
  }

  lemma OrderGrows(e: seq<Member>, m: Member)
    requires InOrder(e) && forall k :: k in e ==> Before(k, m.group, m.pos)
    ensures InOrder(e + [m])
  {
  }

  lemma {:induction false} EntriesGrow(s: Input, p: nat, g: nat, i: nat, g': nat, i': nat)
    requires s.Valid() && g <= |s.groups| && i <= s.size && (g == |s.groups| ==> i == 0)
    requires g' <= |s.groups| && i' <= s.size && (g' == |s.groups| ==> i' == 0) && (g < g' || (g == g' && i <= i'))
    ensures Entries(s, p, g, i) <= Entries(s, p, g', i')
    decreases g', i'
  {
    if g == g' && i == i' {
    } else if i' > 0 {
      EntriesGrow(s, p, g, i, g', i' - 1);
    } else {
      EntriesGrow(s, p, g, i, g' - 1, s.size);
    }
  }

  lemma NextGroup(s: Input, p: nat, g: nat, next: nat)
    requires s.Valid() && g < |s.groups| && next == g + 1
    ensures Entries(s, p, next, 0) == Entries(s, p, g, s.size)
  {
  }

  /** A member that is still to be visited finds a free slot. */
  lemma RoomLeft(s: Input, g: nat, i: nat)
    requires s.Valid() && g < |s.groups| && i < s.size
    ensures var p := s.At(Member(g, i));
      |Entries(s, p, g, i)| < |AllEntries(s, p)| && AllEntries(s, p)[|Entries(s, p, g, i)|] == Member(g, i)
  {
    var p := s.At(Member(g, i));
    EntriesGrow(s, p, g, i + 1, |s.groups|, 0);
    assert Entries(s, p, g, i + 1) == Entries(s, p, g, i) + [Member(g, i)];
  }

  /** The count of every particle after a visit. */
  ghost predicate Counted(s: Input, counts: seq<nat>, g: nat, i: nat)
    requires s.Valid() && g <= |s.groups| && i <= s.size && (g == |s.groups| ==> i == 0)
  {
    |counts| == s.particles && forall p: nat :: p < s.particles ==> counts[p] == |Entries(s, p, g, i)|
  }

  lemma CountedNext(s: Input, counts: seq<nat>, g: nat, i: nat)
    requires s.Valid() && g < |s.groups| && i < s.size && Counted(s, counts, g, i) && s.At(Member(g, i)) < s.particles
    ensures var p := s.At(Member(g, i)); Counted(s, counts[p := counts[p] + 1], g, i + 1)
  {
    var p := s.At(Member(g, i));
    forall q: nat | q < s.particles
      ensures |Entries(s, q, g, i + 1)| == |Entries(s, q, g, i)| + if q == p then 1 else 0
    {
    }
  }

  /** Count the groups per particle; fails if a member is not on this rank. */
  method CountGroups(s: Input) returns (ok: bool, counts: seq<nat>)
    requires s.Valid()
    ensures ok <==> s.IsComplete()
    ensures ok ==> Counted(s, counts, |s.groups|, 0)
  {
    counts := seq(s.particles, _ => 0);
    for g := 0 to |s.groups|
      invariant Counted(s, counts, g, 0)
      invariant forall m :: s.Exists(m) && Before(m, g, 0) ==> s.At(m) != NOT_LOCAL
    {
      for i := 0 to s.size
        invariant Counted(s, counts, g, i)
        invariant forall m :: s.Exists(m) && Before(m, g, i) ==> s.At(m) != NOT_LOCAL
      {
        var p := s.At(Member(g, i));
        if p == NOT_LOCAL {
          return false, counts;
        }
        CountedNext(s, counts, g, i);
        counts := counts[p := counts[p] + 1];
      }
      assert Counted(s, counts, g + 1, 0);
    }
    ok := true;
  }

  method Highest(counts: seq<nat>) returns (height: nat)
    requires |counts| > 0
    ensures height in counts && forall p :: 0 <= p < |counts| ==> counts[p] <= height
  {
    height := counts[0];
    for p := 1 to |counts|
      invariant height in counts && forall q :: 0 <= q < p ==> counts[q] <= height
    {
      if counts[p] > height {
        height := counts[p];
      }
    }
  }

  class ParticleTable {
    var counts: seq<nat>
    var table: array2<seq<nat>>
    var posTable: array2<nat>

    constructor ()
      ensures counts == []
    {
      counts := [];
      table := new seq<nat>[0, 0];
      posTable := new nat[0, 0];
    }

    /** The first slots of a particle hold the listed members. */
    ghost predicate RowHolds(s: Input, p: nat, list: seq<Member>)
      requires s.Valid()
      reads this, table, posTable
    {
      && p < table.Length0 && p < posTable.Length0 && |list| <= table.Length1 && |list| <= posTable.Length1
      && forall k :: 0 <= k < |list| ==> SlotHolds(s, list[k], table[p, k], posTable[p, k])
    }

    /** The visited members of every particle are in its first slots. */
    ghost predicate Holds(s: Input, g: nat, i: nat)
      requires s.Valid() && g <= |s.groups| && i <= s.size && (g == |s.groups| ==> i == 0)
      reads this, table, posTable
    {
      && table.Length0 == posTable.Length0 == s.particles && table.Length1 == posTable.Length1 && Counted(s, counts, g, i)
      && forall p: nat :: p < s.particles ==> RowHolds(s, p, Entries(s, p, g, i))
    }

    /** Rebuild the table. */
    method Rebuild(s: Input) returns (ok: bool)
      requires s.Valid()
      modifies this
      ensures ok <==> s.IsComplete()
      ensures ok ==> Holds(s, |s.groups|, 0) && fresh(table) && fresh(posTable)
      ensures ok ==> forall p :: 0 <= p < s.particles ==> counts[p] <= table.Length1
      ensures ok ==> table.Length1 in counts
    {
      ok, counts := CountGroups(s);
      if !ok {
        return;
      }
      var height := Highest(counts);
      table := new seq<nat>[s.particles, height];
      posTable := new nat[s.particles, height];
      ghost var all := counts;
      counts := seq(s.particles, _ => 0);
      FillGroups(s, all);
      assert counts == all;
    }

    /** Enter the members of all groups. */
    method FillGroups(s: Input, ghost all: seq<nat>)
      requires s.Valid() && s.IsComplete() && Holds(s, 0, 0)
      requires Counted(s, all, |s.groups|, 0) && forall p :: 0 <= p < s.particles ==> all[p] <= table.Length1
      modifies `counts, table, posTable
      ensures Holds(s, |s.groups|, 0)
    {
      for g := 0 to |s.groups|
        invariant Holds(s, g, 0)
      {
        FillGroup(s, g, all);
      }
    }

    /** Enter all members of a group. */
    method FillGroup(s: Input, g: nat, ghost all: seq<nat>)
      requires s.Valid() && s.IsComplete() && g < |s.groups| && Holds(s, g, 0)
      requires Counted(s, all, |s.groups|, 0) && forall p :: 0 <= p < s.particles ==> all[p] <= table.Length1
      modifies `counts, table, posTable
      ensures Holds(s, g + 1, 0)
    {
      for i := 0 to s.size
        invariant Holds(s, g, i)
      {
        Enter(s, g, i, all);
      }
      ghost var next: nat := g + 1;
      forall p: nat ensures Entries(s, p, next, 0) == Entries(s, p, g, s.size) {
        NextGroup(s, p, g, next);
      }
      assert Holds(s, next, 0);
    }

    /** Enter one member in the next slot of its particle. */
    method Enter(s: Input, g: nat, i: nat, ghost all: seq<nat>)
      requires s.Valid() && s.IsComplete() && g < |s.groups| && i < s.size && Holds(s, g, i)
      requires Counted(s, all, |s.groups|, 0) && forall p :: 0 <= p < s.particles ==> all[p] <= table.Length1
      modifies `counts, table, posTable
      ensures Holds(s, g, i + 1)
    {
      var m := Member(g, i);
      var p := s.At(m);
      assert s.Exists(m);
      RoomLeft(s, g, i);
      CountedNext(s, counts, g, i);
      var num := counts[p];
      counts := counts[p := num + 1];
      var row, pos := MakeRow(s, m);
      table[p, num] := row;
      posTable[p, num] := pos;
      ghost var next: nat := i + 1;
      forall q: nat | q < s.particles ensures RowHolds(s, q, Entries(s, q, g, next)) {
        assert old(RowHolds(s, q, Entries(s, q, g, i)));
      }
      assert Holds(s, g, next);
    }

    /** The entry of one member. */
    static method MakeRow(s: Input, m: Member) returns (row: seq<nat>, pos: nat)
      requires s.Valid() && s.Exists(m)
      ensures SlotHolds(s, m, row, pos)
    {
      row, pos := [], 0;
      for j := 0 to s.size
        invariant pos == if j > m.pos then m.pos else 0
        invariant |row| == (if j > m.pos then j - 1 else j) && forall k :: 0 <= k < |row| ==> row[k] == s.At(Other(m, k))
      {
        if j == m.pos {
          pos := j;
          continue;
        }
        row := row + [s.At(Member(m.group, j))];
      }
      row := row + [if s.hasTypeMapping then s.groups[m.group].typeval.id else m.group];
    }
  }

  /** The `k`-th of the other members of a group. */
  function Other(m: Member, k: nat): Member {
    Member(m.group, if k < m.pos then k else k + 1)
  }

  /** A slot holds a member: the other members in order, then the type or the index of the group. */
  ghost predicate SlotHolds(s: Input, m: Member, row: seq<nat>, pos: nat)
    requires s.Valid()
  {
    && s.Exists(m) && pos == m.pos && |row| == s.size
    && (forall k :: 0 <= k < s.size - 1 ==> row[k] == s.At(Other(m, k)))
    && row[s.size - 1] == if s.hasTypeMapping then s.groups[m.group].typeval.id else m.group
  }

  /** Slot `k` of particle `p` is for member `m`. */
  ghost predicate SlotFor(s: Input, p: nat, k: nat, m: Member)
    requires s.Valid()
  {
    k < |AllEntries(s, p)| && AllEntries(s, p)[k] == m
  }

  /** Slots and members correspond one to one. */
  lemma SlotsMatchMembers(s: Input, m: Member)
    requires s.Valid() && s.Exists(m)
    ensures exists k :: SlotFor(s, s.At(m), k, m)
    ensures forall p, k, q, l :: SlotFor(s, p, k, m) && SlotFor(s, q, l, m) ==> p == q && k == l
  {
    EntriesExact(s, s.At(m), |s.groups|, 0);
    assert m in AllEntries(s, s.At(m));
    var k: nat :| k < |AllEntries(s, s.At(m))| && AllEntries(s, s.At(m))[k] == m;
    assert SlotFor(s, s.At(m), k, m);
    forall p, k, q, l | SlotFor(s, p, k, m) && SlotFor(s, q, l, m) ensures p == q && k == l {
      EntriesExact(s, p, |s.groups|, 0);
      EntriesExact(s, q, |s.groups|, 0);
      assert m in AllEntries(s, p) && m in AllEntries(s, q);
    }
  }
}
