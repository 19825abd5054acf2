/**
Bonded groups on one rank without ghosts: groups are stored densely, found by tag through a reverse
table, and the tags of removed groups are used again.
 */
module BondedGroups {
  import opened Sequences

  type Tag = nat

  const NOT_LOCAL: nat := 0xffffffff

  /** The type of a bond or the value of a constraint. */
  datatype Typeval = OfType(id: nat) | OfValue(value: real)

  datatype Group = Group(typeval: Typeval, members: seq<Tag>)

  datatype Result<T> = Ok(value: T) | Err

  // ----- the tables -------------------------------------------------------------------------

  /** Tags and reverse tags are mutually inverse. */
  ghost predicate Inverse(tags: seq<Tag>, rtag: seq<nat>) {
    && |tags| < NOT_LOCAL
    && (forall i :: 0 <= i < |tags| ==> tags[i] < |rtag| && rtag[tags[i]] == i)
    && (forall t :: 0 <= t < |rtag| && rtag[t] != NOT_LOCAL ==> rtag[t] < |tags| && tags[rtag[t]] == t)
  }

  /** Active and recycled tags partition [0, |rtag|). */
  ghost predicate Partition(rtag: seq<nat>, active: set<Tag>, recycled: seq<Tag>) {
    && Distinct(recycled)
    && (forall t: Tag :: t in active <==> t < |rtag| && rtag[t] != NOT_LOCAL)
    && (forall t: Tag :: t in recycled <==> t < |rtag| && rtag[t] == NOT_LOCAL)
  }

  /** The groups by tag. */
  ghost function Contents(tags: seq<Tag>, groups: seq<Group>): map<Tag, Group>
    requires |tags| == |groups|
  {
    if tags == [] then map[]
    else
      var n := |tags| - 1;
      Contents(tags[..n], groups[..n])[tags[n] := groups[n]]
  }

  lemma {:induction false} ContentsExact(tags: seq<Tag>, groups: seq<Group>, t: Tag)
    requires |tags| == |groups| && Distinct(tags)
    ensures t in Contents(tags, groups) <==> t in tags
    ensures forall i :: 0 <= i < |tags| && tags[i] == t ==> Contents(tags, groups)[t] == groups[i]
  {
    if tags != [] {
      var n := |tags| - 1;
      ContentsExact(tags[..n], groups[..n], t);
      assert tags == tags[..n] + [tags[n]];
    }
  }

  lemma InverseIsDistinct(tags: seq<Tag>, rtag: seq<nat>)
    requires Inverse(tags, rtag)
    ensures Distinct(tags)
  {
  }

  /** The contents are determined by the reverse table. */
  lemma ContentsByTag(tags: seq<Tag>, groups: seq<Group>, rtag: seq<nat>, t: Tag)
    requires |tags| == |groups| && Inverse(tags, rtag)
    ensures t in Contents(tags, groups) <==> t < |rtag| && rtag[t] != NOT_LOCAL
    ensures t < |rtag| && rtag[t] != NOT_LOCAL ==> Contents(tags, groups)[t] == groups[rtag[t]]
  {
    InverseIsDistinct(tags, rtag);
    ContentsExact(tags, groups, t);
    if t in tags {
      var i :| 0 <= i < |tags| && tags[i] == t;
    }
  }

  /** A new group at the end. */
  lemma Appended(tags: seq<Tag>, groups: seq<Group>, rtag: seq<nat>, rtag': seq<nat>, t: Tag, g: Group)
    requires |tags| == |groups| && Inverse(tags, rtag) && |tags| + 1 < NOT_LOCAL && t < |rtag'| && |rtag| <= |rtag'|
    requires t < |rtag| ==> rtag[t] == NOT_LOCAL
    requires rtag'[t] == |tags| && forall u :: 0 <= u < |rtag'| && u != t ==> u < |rtag| && rtag'[u] == rtag[u]
    ensures Inverse(tags + [t], rtag') && t !in Contents(tags, groups)
    ensures Contents(tags + [t], groups + [g]) == Contents(tags, groups)[t := g]
  {
    ContentsByTag(tags, groups, rtag, t);
    assert (tags + [t])[..|tags|] == tags && (groups + [g])[..|groups|] == groups;
  }

  /** The last group moves into the gap. */
  function Moved<T>(s: seq<T>, i: nat): seq<T>
    requires i < |s|
  {
    if i < |s| - 1 then s[i := s[|s| - 1]][..|s| - 1] else s[..|s| - 1]
  }

  lemma Removed(tags: seq<Tag>, groups: seq<Group>, rtag: seq<nat>, rtag': seq<nat>, t: Tag)
    requires |tags| == |groups| && Inverse(tags, rtag) && t < |rtag| && rtag[t] != NOT_LOCAL && |rtag'| == |rtag|
    requires rtag'[t] == NOT_LOCAL
    requires forall u :: 0 <= u < |rtag| && u != t ==> rtag'[u] == if rtag[u] == |tags| - 1 then rtag[t] else rtag[u]
    ensures Inverse(Moved(tags, rtag[t]), rtag')
    ensures Contents(Moved(tags, rtag[t]), Moved(groups, rtag[t])) == Contents(tags, groups) - {t}
  {
    var (ts, gs) := (Moved(tags, rtag[t]), Moved(groups, rtag[t]));
    MovedInverse(tags, rtag, rtag', t);
    forall u: Tag ensures u in Contents(ts, gs) <==> u in Contents(tags, groups) && u != t {
      ContentsByTag(tags, groups, rtag, u);
      ContentsByTag(ts, gs, rtag', u);
    }
    forall u | u in Contents(ts, gs) ensures Contents(ts, gs)[u] == Contents(tags, groups)[u] {
      ContentsByTag(tags, groups, rtag, u);
      ContentsByTag(ts, gs, rtag', u);
    }
  }

  lemma MovedInverse(tags: seq<Tag>, rtag: seq<nat>, rtag': seq<nat>, t: Tag)
    requires Inverse(tags, rtag) && t < |rtag| && rtag[t] != NOT_LOCAL && |rtag'| == |rtag|
    requires rtag'[t] == NOT_LOCAL
    requires forall u :: 0 <= u < |rtag| && u != t ==> rtag'[u] == if rtag[u] == |tags| - 1 then rtag[t] else rtag[u]
    ensures Inverse(Moved(tags, rtag[t]), rtag')
  {
    var ts := Moved(tags, rtag[t]);
    forall i | 0 <= i < |ts| ensures ts[i] < |rtag'| && rtag'[ts[i]] == i {
    }
    forall u | 0 <= u < |rtag'| && rtag'[u] != NOT_LOCAL ensures rtag'[u] < |ts| && ts[rtag'[u]] == u {
    }
  }

  // ----- tags in order ----------------------------------------------------------------------

  /** The elements of a set below `n` in increasing order. */
  function Ascending(s: set<Tag>, n: nat): (r: seq<Tag>)
    ensures forall t :: t in r ==> t < n && t in s
  {
    if n == 0 then [] else Ascending(s, n - 1) + if n - 1 in s then [n - 1] else []
  }

  lemma {:induction false} AscendingExact(s: set<Tag>, n: nat)
    ensures Increasing(Ascending(s, n)) && forall t: Tag :: t in Ascending(s, n) <==> t < n && t in s
  {
    if n > 0 {
      AscendingExact(s, n - 1);
      var below := Ascending(s, n - 1);
      forall i | 0 <= i < |below| ensures below[i] < n - 1 {
        assert below[i] in below;
      }
    }
  }

  ghost function Below(active: set<Tag>, n: Tag): set<Tag> {
    set t | t in active && t < n
  }

  /** Position k of an increasing list has exactly k elements below it. */
  lemma RankInOrder(s: seq<Tag>, active: set<Tag>, k: nat)
    requires Increasing(s) && k < |s| && (forall t: Tag :: t in s <==> t in active)
    ensures s[k] in active && |Below(active, s[k])| == k
  {
    IncreasingCount(s[..k]);
    forall t: Tag ensures t in s[..k] <==> t in active && t < s[k] {
      if t in active && t < s[k] {
        var i :| 0 <= i < |s| && s[i] == t;
        assert i < k;
        assert s[..k][i] == t;
      }
    }
    assert Members(s[..k]) == Below(active, s[k]);
  }

  /** The groups in the order of their tags. */
  ghost function InOrder(contents: map<Tag, Group>, order: seq<Tag>): seq<Group>
    requires forall t :: t in order ==> t in contents
  {
    seq(|order|, i requires 0 <= i < |order| => contents[order[i]])
  }

  // ----- one change -------------------------------------------------------------------------

  /** Taking the top of the stack into use again. */
  lemma PartitionReuses(rtag: seq<nat>, active: set<Tag>, recycled: seq<Tag>, id: nat)
    requires Partition(rtag, active, recycled) && recycled != [] && id != NOT_LOCAL
    ensures var (n, tag) := (|recycled| - 1, recycled[|recycled| - 1]);
      tag < |rtag| && rtag[tag] == NOT_LOCAL && Partition(rtag[tag := id], active + {tag}, recycled[..n])
  {
    var (n, tag) := (|recycled| - 1, recycled[|recycled| - 1]);
    assert tag in recycled;
    var rest := recycled[..n];
    forall t: Tag ensures t in rest <==> t in recycled && t != tag {
      if t in recycled && t != tag {
        var i :| 0 <= i < |recycled| && recycled[i] == t;
        assert rest[i] == t;
      }
    }
  }

  /** A tag beyond the table. */
  lemma PartitionGrows(rtag: seq<nat>, active: set<Tag>, recycled: seq<Tag>, id: nat)
    requires Partition(rtag, active, recycled) && id != NOT_LOCAL
    ensures Partition(rtag + [id], active + {|rtag|}, recycled)
  {
  }

  /** Putting a tag on the stack. */
  lemma PartitionFrees(rtag: seq<nat>, rtag': seq<nat>, active: set<Tag>, recycled: seq<Tag>, tag: Tag)
    requires Partition(rtag, active, recycled) && tag < |rtag| == |rtag'| && rtag[tag] != NOT_LOCAL
    requires forall t :: 0 <= t < |rtag| ==> (rtag'[t] == NOT_LOCAL <==> t == tag || rtag[t] == NOT_LOCAL)
    ensures Partition(rtag', active - {tag}, recycled + [tag])
  {
    assert tag !in recycled;
    forall t: Tag ensures t in recycled + [tag] <==> t in recycled || t == tag {
    }
  }

  /** Everything but the cache. */
  ghost predicate Consistent(tags: seq<Tag>, groups: seq<Group>, rtag: seq<nat>, recycled: seq<Tag>, active: set<Tag>) {
    && |groups| == |tags| && Inverse(tags, rtag) && Partition(rtag, active, recycled) && |rtag| == |tags| + |recycled|
  }

  lemma AddReused(tags: seq<Tag>, groups: seq<Group>, rtag: seq<nat>, recycled: seq<Tag>, active: set<Tag>, g: Group)
    requires Consistent(tags, groups, rtag, recycled, active) && recycled != [] && |tags| + 1 < NOT_LOCAL
    ensures var tag := recycled[|recycled| - 1];
      && tag < |rtag| && tag !in Contents(tags, groups)
      && Consistent(tags + [tag], groups + [g], rtag[tag := |tags|], recycled[..|recycled| - 1], active + {tag})
      && Contents(tags + [tag], groups + [g]) == Contents(tags, groups)[tag := g]
  {
    var tag := recycled[|recycled| - 1];
    PartitionReuses(rtag, active, recycled, |tags|);
    Appended(tags, groups, rtag, rtag[tag := |tags|], tag, g);
  }

  lemma AddNew(tags: seq<Tag>, groups: seq<Group>, rtag: seq<nat>, active: set<Tag>, g: Group)
    requires Consistent(tags, groups, rtag, [], active) && |tags| + 1 < NOT_LOCAL
    ensures var tag := |tags|;
      && tag !in Contents(tags, groups)
      && Consistent(tags + [tag], groups + [g], rtag + [|tags|], [], active + {tag})
      && Contents(tags + [tag], groups + [g]) == Contents(tags, groups)[tag := g]
  {
    PartitionGrows(rtag, active, [], |tags|);
    Appended(tags, groups, rtag, rtag + [|tags|], |tags|, g);
  }

  /** The reverse table after a removal: the last group takes the place of the removed one. */
  function Unlinked(tags: seq<Tag>, rtag: seq<nat>, tag: Tag): seq<nat>
    requires tag < |rtag| && rtag[tag] < |tags| && tags[|tags| - 1] < |rtag|
  {
    if rtag[tag] < |tags| - 1 then rtag[tag := NOT_LOCAL][tags[|tags| - 1] := rtag[tag]] else rtag[tag := NOT_LOCAL]
  }

  lemma RemoveOne(tags: seq<Tag>, groups: seq<Group>, rtag: seq<nat>, recycled: seq<Tag>, active: set<Tag>, tag: Tag)
    requires Consistent(tags, groups, rtag, recycled, active) && tag < |rtag| && rtag[tag] != NOT_LOCAL
    ensures rtag[tag] < |tags| && tags[|tags| - 1] < |rtag|
    ensures Consistent(Moved(tags, rtag[tag]), Moved(groups, rtag[tag]), Unlinked(tags, rtag, tag), recycled + [tag], active - {tag})
    ensures Contents(Moved(tags, rtag[tag]), Moved(groups, rtag[tag])) == Contents(tags, groups) - {tag}
  {
    var rtag' := Unlinked(tags, rtag, tag);
    UnlinkedExact(tags, rtag, tag);
    Removed(tags, groups, rtag, rtag', tag);
    PartitionFrees(rtag, rtag', active, recycled, tag);
  }

  lemma UnlinkedExact(tags: seq<Tag>, rtag: seq<nat>, tag: Tag)
    requires Inverse(tags, rtag) && tag < |rtag| && rtag[tag] != NOT_LOCAL
    ensures var rtag' := Unlinked(tags, rtag, tag);
      && |rtag'| == |rtag| && rtag'[tag] == NOT_LOCAL
      && (forall u :: 0 <= u < |rtag| && u != tag ==> rtag'[u] == if rtag[u] == |tags| - 1 then rtag[tag] else rtag[u])
      && (forall u :: 0 <= u < |rtag| ==> (rtag'[u] == NOT_LOCAL <==> u == tag || rtag[u] == NOT_LOCAL))
  {
  }

  /** Tags in the order of the positions. */
  ghost predicate IsIdentity(s: seq<Tag>) {
    forall i :: 0 <= i < |s| ==> s[i] == i
  }

  /** If the tags are 0, 1, 2, ..., the tag order is the storage order. */
  lemma IdentityOrder(tags: seq<Tag>, groups: seq<Group>, rtag: seq<nat>, active: set<Tag>)
    requires Consistent(tags, groups, rtag, [], active) && IsIdentity(tags)
    ensures Ascending(active, |rtag|) == tags && (forall t :: t in tags ==> t in Contents(tags, groups))
    ensures InOrder(Contents(tags, groups), tags) == groups
  {
    forall t: Tag | t < |rtag| ensures t in active {
      assert rtag[t] != NOT_LOCAL by {
        assert rtag[tags[t]] == t;
      }
    }
    AscendingAll(active, |rtag|);
    assert tags == Ascending(active, |rtag|);
    forall i | 0 <= i < |tags| ensures tags[i] in Contents(tags, groups) && Contents(tags, groups)[tags[i]] == groups[i] {
      ContentsByTag(tags, groups, rtag, tags[i]);
    }
  }

  lemma {:induction false} AscendingAll(s: set<Tag>, n: nat)
    requires forall t: Tag :: t < n ==> t in s
    ensures |Ascending(s, n)| == n && IsIdentity(Ascending(s, n))
  {
    if n > 0 {
      AscendingAll(s, n - 1);
    }
  }

  /** The active tags in order all have a group, and there are as many as groups. */
  lemma OrderIsComplete(tags: seq<Tag>, groups: seq<Group>, rtag: seq<nat>, recycled: seq<Tag>, active: set<Tag>)
    requires Consistent(tags, groups, rtag, recycled, active)
    ensures var order := Ascending(active, |rtag|);
      && |order| == |tags| && Increasing(order) && (forall t: Tag :: t in order <==> t in active)
      && forall t :: t in order ==> t in Contents(tags, groups) && rtag[t] < |groups| && Contents(tags, groups)[t] == groups[rtag[t]]
  {
    var order := Ascending(active, |rtag|);
    AscendingExact(active, |rtag|);
    forall t | t in order ensures t in Contents(tags, groups) && rtag[t] < |groups| && Contents(tags, groups)[t] == groups[rtag[t]] {
      ContentsByTag(tags, groups, rtag, t);
    }
    IncreasingCount(order);
    InverseIsDistinct(tags, rtag);
    DistinctCount(tags);
    forall t: Tag ensures t in Members(order) <==> t in Members(tags) {
      assert t in tags ==> t in active by {
        if i :| 0 <= i < |tags| && tags[i] == t {
        }
      }
    }
    assert Members(order) == Members(tags);
  }

  /** Where the tags of a list are. */
  ghost predicate IndexOf(index: map<Tag, nat>, order: seq<Tag>) {
    && (forall t :: t in index <==> t in order)
    && forall t :: t in index ==> index[t] < |order| && order[index[t]] == t
  }

  lemma IndexGrows(index: map<Tag, nat>, order: seq<Tag>, i: nat)
    requires i < |order| && IndexOf(index, order[..i])
    ensures IndexOf(index[order[i] := i], order[..i + 1])
  {
    assert order[..i + 1] == order[..i] + [order[i]];
  }

  // ----- the data of one rank ---------------------------------------------------------------

  class BondedGroupData {
    const groupSize: nat
    const hasTypeMapping: bool
    var types: nat
    var groups: seq<Group>
    var tags: seq<Tag>
    var rtag: seq<nat>
    var recycled: seq<Tag>
    var active: set<Tag>
    var nglobal: nat
    var cachedTags: seq<Tag>
    var invalidCache: bool

    ghost predicate Valid()
      reads this
    {
      && |tags| == nglobal && Consistent(tags, groups, rtag, recycled, active)
      && (!invalidCache ==> cachedTags == Ascending(active, |rtag|))
    }

    ghost function Map(): map<Tag, Group>
      requires |groups| == |tags|
      reads this
    {
      Contents(tags, groups)
    }

    constructor (groupSize: nat, hasTypeMapping: bool, types: nat)
      ensures Valid() && Map() == map[] && this.groupSize == groupSize && this.hasTypeMapping == hasTypeMapping && this.types == types
    {
      this.groupSize, this.hasTypeMapping, this.types := groupSize, hasTypeMapping, types;
      groups, tags, rtag, recycled, active, nglobal, cachedTags, invalidCache := [], [], [], [], {}, 0, [], true;
    }

    method Initialize()
      modifies this
      ensures Valid() && Map() == map[] && rtag == [] && types == old(types) && groups == [] && recycled == [] && nglobal == 0
    {
      groups, tags, rtag, recycled, active, nglobal, cachedTags, invalidCache := [], [], [], [], {}, 0, cachedTags, true;
    }

    /** A group that may be added: existing particles, each once, and a known type. */
    ghost predicate Acceptable(g: Group, maxTag: Tag)
      requires |g.members| == groupSize
      reads this
    {
      && (forall i :: 0 <= i < groupSize ==> g.members[i] <= maxTag) && Distinct(g.members)
      && (hasTypeMapping && g.typeval.OfType? ==> g.typeval.id < types)
    }

    /** Check a group as a user gave it. */
    method Validate(g: Group, maxTag: Tag) returns (ok: bool)
      requires |g.members| == groupSize
      ensures ok <==> Acceptable(g, maxTag)
    {
      for i := 0 to groupSize
        invariant forall k :: 0 <= k < i ==> g.members[k] <= maxTag
      {
        if g.members[i] > maxTag {
          return false;
        }
      }
      for i := 0 to groupSize
        invariant forall k, j :: 0 <= k < i && 0 <= j < groupSize && k != j ==> g.members[k] != g.members[j]
      {
        for j := 0 to groupSize
          invariant forall l :: 0 <= l < j && i != l ==> g.members[i] != g.members[l]
        {
          if i != j && g.members[i] == g.members[j] {
            assert !Distinct(g.members);
            return false;
          }
        }
      }
      ok := !(hasTypeMapping && g.typeval.OfType? && g.typeval.id >= types);
    }

    /** Add a group under a recycled tag, the last one removed first, or under a new one. */
    method AddBondedGroup(g: Group, maxTag: Tag) returns (r: Result<Tag>)
      requires Valid() && |g.members| == groupSize && nglobal + 1 < NOT_LOCAL
      modifies this
      ensures Valid() && types == old(types)
      ensures r.Ok? <==> old(Acceptable(g, maxTag))
      ensures r.Err? ==> Map() == old(Map()) && rtag == old(rtag) && tags == old(tags) && groups == old(groups)
      ensures r.Ok? ==> r.value !in old(Map()) && Map() == old(Map())[r.value := g] && nglobal == old(nglobal) + 1
      ensures r.Ok? ==> r.value == if old(recycled) == [] then old(nglobal) else old(recycled)[|old(recycled)| - 1]
      ensures r.Ok? ==> tags == old(tags) + [r.value] && groups == old(groups) + [g]
      ensures r.Ok? ==> recycled == if old(recycled) == [] then [] else old(recycled)[..|old(recycled)| - 1]
    {
      var ok := Validate(g, maxTag);
      if !ok {
        return Err;
      }
      var tag := Insert(g);
      return Ok(tag);
    }

    method Insert(g: Group) returns (tag: Tag)
      requires Valid() && nglobal + 1 < NOT_LOCAL
      modifies this
      ensures Valid() && types == old(types)
      ensures tag !in old(Map()) && Map() == old(Map())[tag := g] && nglobal == old(nglobal) + 1
      ensures tag == if old(recycled) == [] then old(nglobal) else old(recycled)[|old(recycled)| - 1]
      ensures tags == old(tags) + [tag] && groups == old(groups) + [g]
      ensures recycled == if old(recycled) == [] then [] else old(recycled)[..|old(recycled)| - 1]
    {
      if |recycled| > 0 {
        AddReused(tags, groups, rtag, recycled, active, g);
        tag := recycled[|recycled| - 1];
        recycled := recycled[..|recycled| - 1];
        rtag := rtag[tag := nglobal];
      } else {
        AddNew(tags, groups, rtag, active, g);
        tag := nglobal;
        rtag := rtag + [nglobal];
      }
      groups := groups + [g];
      tags := tags + [tag];
      active := active + {tag};
      invalidCache := true;
      nglobal := nglobal + 1;
    }

    /** Remove a group; the last one takes its place. Fails if there is no such group. */
    method RemoveBondedGroup(tag: Tag) returns (r: Result<()>)
      requires Valid()
      modifies this
      ensures Valid() && types == old(types)
      ensures r.Ok? <==> tag in old(Map())
      ensures r.Err? ==> Map() == old(Map()) && rtag == old(rtag) && recycled == old(recycled)
      ensures r.Ok? ==> Map() == old(Map()) - {tag} && nglobal + 1 == old(nglobal) && recycled == old(recycled) + [tag]
    {
      ContentsByTag(tags, groups, rtag, tag);
      if tag >= |rtag| {
        return Err;
      }
      var id := rtag[tag];
      if id >= |groups| {
        return Err;
      }
      RemoveAt(tag, id);
      return Ok(());
    }

    /** Remove the group at a position. */
    method RemoveAt(tag: Tag, id: nat)
      requires Valid() && tag < |rtag| && rtag[tag] == id < |groups|
      modifies this
      ensures Valid() && types == old(types)
      ensures Map() == old(Map()) - {tag} && nglobal + 1 == old(nglobal) && recycled == old(recycled) + [tag]
    {
      RemoveOne(tags, groups, rtag, recycled, active, tag);
      SwapOut(tag, id);
      active := active - {tag};
      invalidCache := true;
      recycled := recycled + [tag];
      nglobal := nglobal - 1;
    }

    /** Move the last group to the position of another one and shorten the arrays. */
    method SwapOut(tag: Tag, id: nat)
      requires |tags| == |groups| && tag < |rtag| && rtag[tag] == id < |groups| && tags[|tags| - 1] < |rtag|
      modifies `groups, `tags, `rtag
      ensures groups == Moved(old(groups), id) && tags == Moved(old(tags), id) && rtag == Unlinked(old(tags), old(rtag), tag)
    {
      var size := |groups|;
      rtag := rtag[tag := NOT_LOCAL];
      if id < size - 1 {
        groups := groups[id := groups[size - 1]];
        var lastTag := tags[size - 1];
        rtag := rtag[lastTag := id];
        tags := tags[id := lastTag];
      }
      groups := groups[..size - 1];
      tags := tags[..size - 1];
    }

    /** The groups in tag order. */
    ghost function Snapshot(): seq<Group>
      requires Valid()
      reads this
    {
      OrderIsComplete(tags, groups, rtag, recycled, active);
      InOrder(Map(), Ascending(active, |rtag|))
    }

    /** List the active tags in increasing order, unless the list is current. */
    method MaybeRebuildTagCache()
      requires Valid()
      modifies `cachedTags, `invalidCache
      ensures Valid() && !invalidCache
    {
      if !invalidCache {
        return;
      }
      cachedTags := [];
      for t := 0 to |rtag|
        invariant cachedTags == Ascending(active, t) && Consistent(tags, groups, rtag, recycled, active) && |tags| == nglobal
        invariant invalidCache
      {
        if t in active {
          cachedTags := cachedTags + [t];
        }
      }
      invalidCache := false;
    }

    /** The n-th smallest active tag. */
    method GetNthTag(n: nat) returns (r: Result<Tag>)
      requires Valid()
      modifies `cachedTags, `invalidCache
      ensures Valid() && (r.Ok? <==> n < nglobal)
      ensures r.Ok? ==> r.value in active && |Below(active, r.value)| == n
    {
      if n >= nglobal {
        return Err;
      }
      MaybeRebuildTagCache();
      OrderIsComplete(tags, groups, rtag, recycled, active);
      RankInOrder(cachedTags, active, n);
      return Ok(cachedTags[n]);
    }

    /** Look a group up; its members must still exist. */
    method GetGroupByTag(tag: Tag, particles: set<Tag>) returns (r: Result<Group>)
      requires Valid() && tag < |rtag|
      ensures r.Ok? <==> tag in Map() && forall m :: m in Map()[tag].members ==> m in particles
      ensures r.Ok? ==> r.value == Map()[tag]
    {
      ContentsByTag(tags, groups, rtag, tag);
      var id := rtag[tag];
      if id == NOT_LOCAL {
        return Err;
      }
      var members := groups[id].members;
      for j := 0 to |members|
        invariant forall i :: 0 <= i < j ==> members[i] in particles
      {
        if members[j] !in particles {
          return Err;
        }
      }
      return Ok(groups[id]);
    }

    /** The groups in tag order, and where each tag went. */
    method TakeSnapshot() returns (snapshot: seq<Group>, index: map<Tag, nat>)
      requires Valid()
      ensures snapshot == Snapshot() && |snapshot| == nglobal
      ensures index.Keys == active
      ensures forall t :: t in index ==> t in Map() && index[t] < |snapshot| && snapshot[index[t]] == Map()[t]
    {
      OrderIsComplete(tags, groups, rtag, recycled, active);
      snapshot, index := Collect(Ascending(active, |rtag|), groups, rtag, Map());
    }

    static method Collect(order: seq<Tag>, groups: seq<Group>, rtag: seq<nat>, ghost contents: map<Tag, Group>)
      returns (snapshot: seq<Group>, index: map<Tag, nat>)
      requires forall t :: t in order ==> t in contents && t < |rtag| && rtag[t] < |groups| && contents[t] == groups[rtag[t]]
      ensures snapshot == InOrder(contents, order) && IndexOf(index, order)
    {
      snapshot, index := [], map[];
      for i := 0 to |order|
        invariant |snapshot| == i && forall k :: 0 <= k < i ==> snapshot[k] == contents[order[k]]
        invariant IndexOf(index, order[..i])
      {
        var tag := order[i];
        assert tag in order;
        IndexGrows(index, order, i);
        index := index[tag := i];
        snapshot := snapshot + [groups[rtag[tag]]];
      }
      assert order[..|order|] == order;
    }

    /** Start over with the groups of a snapshot; fails at the first group that is not acceptable. */
    method InitializeFromSnapshot(snapshot: seq<Group>, types': nat, maxTag: Tag) returns (ok: bool)
      requires |snapshot| + 1 < NOT_LOCAL && forall i :: 0 <= i < |snapshot| ==> |snapshot[i].members| == groupSize
      modifies this
      ensures Valid() && types == types'
      ensures ok <==> forall i :: 0 <= i < |snapshot| ==> Acceptable(snapshot[i], maxTag)
      ensures ok ==> Snapshot() == snapshot && IsIdentity(tags) && nglobal == |snapshot| && recycled == []
    {
      Initialize();
      types := types';
      ok := InsertAll(snapshot, maxTag);
      if ok {
        IdentityOrder(tags, groups, rtag, active);
      }
    }

    /** Add groups one after the other to an empty object, until one is not acceptable. */
    method InsertAll(snapshot: seq<Group>, maxTag: Tag) returns (ok: bool)
      requires Valid() && groups == [] && recycled == [] && nglobal == 0
      requires |snapshot| + 1 < NOT_LOCAL && forall i :: 0 <= i < |snapshot| ==> |snapshot[i].members| == groupSize
      modifies this
      ensures Valid() && types == old(types)
      ensures ok <==> forall i :: 0 <= i < |snapshot| ==> Acceptable(snapshot[i], maxTag)
      ensures ok ==> groups == snapshot && IsIdentity(tags) && nglobal == |snapshot| && recycled == []
    {
      for i := 0 to |snapshot|
        invariant Valid() && types == old(types) && recycled == [] && IsIdentity(tags) && nglobal == i && groups == snapshot[..i]
        invariant forall k :: 0 <= k < i ==> Acceptable(snapshot[k], maxTag)
      {
        ok := Validate(snapshot[i], maxTag);
        if !ok {
          return;
        }
        InsertNext(snapshot, i);
      }
      assert snapshot[..|snapshot|] == snapshot;
      ok := true;
    }

    method InsertNext(snapshot: seq<Group>, i: nat)
      requires Valid() && i < |snapshot| && i + 1 < NOT_LOCAL
      requires recycled == [] && IsIdentity(tags) && nglobal == i && groups == snapshot[..i]
      modifies this
      ensures Valid() && types == old(types) && recycled == [] && IsIdentity(tags) && nglobal == i + 1 && groups == snapshot[..i + 1]
    {
      var tag := Insert(snapshot[i]);
      assert snapshot[..i + 1] == snapshot[..i] + [snapshot[i]];
    }
  }
}
