/**
Executions of the group migration: for all owners there is a world in which the ranks agree, every
step can be executed from every world, and with distant owners a step does break agreement.
 */
module GroupExecutions {
  import opened Grid
  import opened GroupMigration

  /** The elements of a set, in some order. */
  ghost function Listed<T(!new)>(s: set<T>): (list: seq<T>)
    ensures forall x :: x in list <==> x in s
  {
    if s == {} then []
    else
      var x :| x in s;
      [x] + Listed(s - {x})
  }

  // ----- a world in agreement ---------------------------------------------------------------

  function TrueGroup(b: Bond, owner: map<Tag, nat>): Group
    requires forall i :: 0 <= i < |b.members| ==> b.members[i] in owner
  {
    Group(b.members, b.typeval, seq(|b.members|, i requires 0 <= i < |b.members| => owner[b.members[i]]))
  }

  /** Every rank stores the groups it owns a member of, with true tables. */
  function TrueWorld(s: Step): (world: seq<RankGroups>)
    requires s.Valid()
  {
    seq(s.t.Ranks(), r requires 0 <= r => map g | g in s.bonds && Owns(s.bonds, s.owner, r, g) :: TrueGroup(s.bonds[g], s.owner))
  }

  lemma TrueWorldAgrees(s: Step)
    requires s.Valid()
    ensures |TrueWorld(s)| == s.t.Ranks() && Agreed(s.bonds, s.owner, TrueWorld(s))
    ensures forall r :: 0 <= r < |TrueWorld(s)| ==> TablesSized(TrueWorld(s)[r])
  {
  }

  // ----- every step can be executed ---------------------------------------------------------

  /** All updates for a rank, in some order. */
  ghost function UpdatesFor(s: Step, world: seq<RankGroups>, q: nat): (els: seq<RankElement>)
    requires s.Valid() && q < |world| == s.t.Ranks() && forall r :: 0 <= r < |world| ==> TablesSized(world[r])
    ensures UpdatesArrive(s, world, q, els)
  {
    Listed(set r, g | 0 <= r < |world| && g in world[r] && Neighbors(s.t, r, q) && IsUpdate(s, world, r, q, ElementOf(s, world, r, g))
             :: ElementOf(s, world, r, g))
  }

  ghost function ElementOf(s: Step, world: seq<RankGroups>, r: nat, g: GroupTag): RankElement
    requires s.Valid() && r < |world| == s.t.Ranks() && TablesSized(world[r]) && g in world[r]
  {
    Element(s.t, r, g, world[r][g], s.Local(r), s.incomplete)
  }

  /** All groups for a rank, in some order. */
  ghost function GroupsFor(s: Step, world: seq<RankGroups>, q: nat): (els: seq<Packed>)
    requires s.Valid() && q < |world| == s.t.Ranks()
    ensures GroupsArrive(s, world, q, els)
  {
    Listed(set r, g | 0 <= r < |world| && g in world[r] && Neighbors(s.t, r, q) && GroupSent(world[r], s.Local(r), q, Packed(g, world[r][g]))
             :: Packed(g, world[r][g]))
  }

  /** Every step can be executed from every world with tables of the right size. */
  lemma StepExists(s: Step, world: seq<RankGroups>)
    returns (updates: seq<seq<RankElement>>, mid: seq<RankGroups>, sent: seq<seq<Packed>>, next: seq<RankGroups>)
    requires s.Valid() && |world| == s.t.Ranks() && forall r :: 0 <= r < |world| ==> TablesSized(world[r])
    ensures Migrates(s, world, updates, mid, sent, next)
  {
    updates := seq(|world|, q requires 0 <= q < |world| => UpdatesFor(s, world, q));
    mid := seq(|world|, q requires 0 <= q < |world| => ApplyUpdates(MarkAll(s.t, q, world[q], s.Local(q), s.incomplete), updates[q]));
    sent := seq(|world|, q requires 0 <= q < |world| => GroupsFor(s, mid, q));
    next := seq(|world|, q requires 0 <= q < |world| => AddGroups(KeepAll(mid[q], s.Local(q)), sent[q]));
  }

  // ----- distant owners ---------------------------------------------------------------------

  /** A group of two members on ranks `a` and `b`, of which the first moves in a direction. */
  function DistantStep(t: Decomposition, a: nat, b: nat, dir: Direction): Step {
    Step(t, map[7 := Bond([3, 4], 0)], map[3 := a, 4 := b], map[3 := {dir}, 4 := {}], false)
  }

  /**
  Whenever the two members of a group are on ranks that are not neighbours and one of them moves on, the
  rank of the other one keeps its copy but is not told: the ranks agree before the step, and no longer
  after it.
   */
  lemma DistantOwnersDisagree(t: Decomposition, a: nat, b: nat, dir: Direction)
    returns (world: seq<RankGroups>, updates: seq<seq<RankElement>>, mid: seq<RankGroups>, sent: seq<seq<Packed>>, next: seq<RankGroups>)
    requires t.Valid() && a < t.Ranks() && b < t.Ranks() && a != b && !Neighbors(t, a, b) && t.IsCommunicating(dir)
    ensures var s := DistantStep(t, a, b, dir);
      && s.Valid() && s.OneDirection(dir) && |world| == t.Ranks() && Agreed(s.bonds, s.owner, world)
      && Migrates(s, world, updates, mid, sent, next) && !Agreed(s.bonds, s.Moved(), next)
  {
    var s := DistantStep(t, a, b, dir);
    world := TrueWorld(s);
    TrueWorldAgrees(s);
    updates, mid, sent, next := StepExists(s, world);
    AgreementIffInformed(s, world, updates, mid, sent, next, dir);
    NotTold(t, a, b, dir);
  }

  lemma NotTold(t: Decomposition, a: nat, b: nat, dir: Direction)
    requires t.Valid() && a < t.Ranks() && b < t.Ranks() && a != b && !Neighbors(t, a, b)
    ensures var s := DistantStep(t, a, b, dir);
      s.Valid() && Owns(s.bonds, s.owner, b, 7) && CopySurvives(s, dir, b, 7) && !Informed(s, b, 7)
  {
    var s := DistantStep(t, a, b, dir);
    var members := s.bonds[7].members;
    assert s.owner[members[1]] == b && s.flags[members[1]] == {};
    assert s.flags[members[0]] == {dir} && !Told(s, b, 7, 0);
  }

  /** It happens wherever five domains lie along x, with members on the second and the fourth. */
  lemma FiveDomainsDisagree(t: Decomposition)
    returns (a: nat, b: nat, world: seq<RankGroups>, updates: seq<seq<RankElement>>, mid: seq<RankGroups>,
             sent: seq<seq<Packed>>, next: seq<RankGroups>)
    requires t.Valid() && t.grid.w == 5
    ensures a < t.Ranks() && t.Position(a) == Cell(1, 0, 0) && b < t.Ranks() && t.Position(b) == Cell(3, 0, 0)
    ensures var s := DistantStep(t, a, b, 0);
      && s.Valid() && s.OneDirection(0) && |world| == t.Ranks() && Agreed(s.bonds, s.owner, world)
      && Migrates(s, world, updates, mid, sent, next) && !Agreed(s.bonds, s.Moved(), next)
  {
    a := RankOf(t, Cell(1, 0, 0));
    b := RankOf(t, Cell(3, 0, 0));
    world, updates, mid, sent, next := DistantOwnersDisagree(t, a, b, 0);
  }

  lemma RankOf(t: Decomposition, c: Cell) returns (r: nat)
    requires t.Valid() && t.grid.Contains(c)
    ensures r < t.Ranks() && t.Position(r) == c
  {
    r := t.RankAt(c);
    PositionOfRankAt(t, c);
  }
}
