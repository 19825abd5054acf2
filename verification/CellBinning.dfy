/**
Filling the cell list: every particle goes into the next free slot of its cell; when a cell
overflows, the slots are reallocated and the list is filled again.
 */
module CellBinning {
  import opened Grid
  import opened BoxDim
  import opened CellAdjacency
  import opened CellGeometry

  /** A position, or not a number. */
  datatype Particle = NotANumber | At(position: Vec)

  /** Where a particle belongs. */
  datatype Place = Invalid | Outside | In(cell: nat)

  /** Where a particle belongs in a grid over the box and a ghost layer of the given width. */
  function PlaceOf(p: Particle, s: CellSetup, ghostWidth: Vec, g: Indexer): (place: Place)
    requires s.Valid() && NonNegative(ghostWidth) && g.Valid()
    ensures place.In? ==> place.cell < g.Size()
  {
    match p
    case NotANumber => Invalid
    case At(position) => PlaceIn(s.Fraction(position, ghostWidth), g, s.box.periodic)
  }

  function PlaceIn(f: Vec, g: Indexer, periodic: Periodic): (place: Place)
    requires g.Valid()
    ensures place.In? ==> place.cell < g.Size()
  {
    if Binned(f, g, periodic) then
      IndexBelowSize(g, Bin(f, g, periodic));
      In(g.Index(Bin(f, g, periodic)))
    else Outside
  }

  /** The particles among the first `n` that belong to a cell, in increasing order. */
  function Occupants(places: seq<Place>, cell: nat, n: nat): seq<nat>
    requires n <= |places|
  {
    if n == 0 then []
    else Occupants(places, cell, n - 1) + if places[n - 1] == In(cell) then [n - 1] else []
  }

  lemma {:induction false} OccupantsExact(places: seq<Place>, cell: nat, n: nat, i: nat)
    requires n <= |places|
    ensures i in Occupants(places, cell, n) <==> i < n && places[i] == In(cell)
  {
    if n > 0 {
      OccupantsExact(places, cell, n - 1, i);
    }
  }

  lemma {:induction false} OccupantsIncrease(places: seq<Place>, cell: nat, n: nat)
    requires n <= |places|
    ensures forall s :: 0 <= s < |Occupants(places, cell, n)| ==> Occupants(places, cell, n)[s] < n
    ensures forall s, t :: 0 <= s < t < |Occupants(places, cell, n)| ==>
      Occupants(places, cell, n)[s] < Occupants(places, cell, n)[t]
  {
    if n > 0 {
      OccupantsIncrease(places, cell, n - 1);
    }
  }

  /** The error conditions of a pass: overflow size, last invalid and last lost particle, each plus one. */
  datatype Conditions = Conditions(overflow: nat, invalid: nat, lost: nat)

  const NO_CONDITIONS := Conditions(0, 0, 0)

  /** The particle that counts as lost: a local one, that is one below `local`, outside the grid. */
  ghost predicate LostParticle(places: seq<Place>, local: nat, i: nat) {
    i < |places| && i < local && places[i].Outside?
  }

  /** The last of the first `n` particles with a property, plus one. */
  ghost predicate IsLastInvalid(places: seq<Place>, n: nat, mark: nat) {
    && n <= |places| && mark <= n
    && (mark > 0 ==> places[mark - 1].Invalid?) && forall i :: mark <= i < n ==> !places[i].Invalid?
  }

  ghost predicate IsLastLost(places: seq<Place>, local: nat, n: nat, mark: nat) {
    && n <= |places| && mark <= n
    && (mark > 0 ==> LostParticle(places, local, mark - 1)) && forall i :: mark <= i < n ==> !LostParticle(places, local, i)
  }

  /** How many of the first `n` particles belong to a cell. */
  ghost function Load(places: seq<Place>, cell: nat, n: nat): nat
    requires n <= |places|
  {
    |Occupants(places, cell, n)|
  }

  /** The overflow mark is the size of the fullest cell if that is above `nmax`, and zero otherwise. */
  ghost predicate IsOverflow(places: seq<Place>, cells: nat, nmax: nat, n: nat, mark: nat) {
    && n <= |places|
    && (forall c: nat :: c < cells && Load(places, c, n) > nmax ==> Load(places, c, n) <= mark)
    && (mark > 0 ==> mark > nmax && exists c: nat :: c < cells && Load(places, c, n) == mark)
  }

  lemma LoadStep(places: seq<Place>, cell: nat, n: nat)
    requires n < |places|
    ensures Load(places, cell, n + 1) == if places[n] == In(cell) then Load(places, cell, n) + 1 else Load(places, cell, n)
  {
  }

  lemma OverflowStays(places: seq<Place>, cells: nat, nmax: nat, n: nat, next: nat, mark: nat)
    requires next == n + 1 <= |places| && !places[n].In? && IsOverflow(places, cells, nmax, n, mark)
    ensures IsOverflow(places, cells, nmax, next, mark)
  {
    forall c: nat ensures Load(places, c, next) == Load(places, c, n) {
      LoadStep(places, c, n);
    }
    if mark > 0 {
      var c: nat :| c < cells && Load(places, c, n) == mark;
      assert Load(places, c, next) == mark;
    }
  }

  lemma OverflowGrows(places: seq<Place>, cells: nat, nmax: nat, n: nat, next: nat, mark: nat, mark': nat)
    requires next == n + 1 <= |places| && places[n].In? && places[n].cell < cells && IsOverflow(places, cells, nmax, n, mark)
    requires var size := Load(places, places[n].cell, n);
      mark' == if size < nmax then mark else if mark < size + 1 then size + 1 else mark
    ensures IsOverflow(places, cells, nmax, next, mark')
  {
    var (bin, size) := (places[n].cell, Load(places, places[n].cell, n));
    forall c: nat ensures Load(places, c, next) == Load(places, c, n) + if c == bin then 1 else 0 {
      LoadStep(places, c, n);
    }
    if mark' > 0 {
      if size >= nmax && mark' == size + 1 {
        assert Load(places, bin, next) == mark';
      } else {
        var c: nat :| c < cells && Load(places, c, n) == mark;
        assert Load(places, c, next) == mark';
      }
    }
  }

  /** The slots of a cell hold its occupants in order, as far as there is room. */
  ghost predicate CellFilled(places: seq<Place>, cell: nat, n: nat, nmax: nat, size: nat, row: seq<nat>) {
    && n <= |places| && size == |Occupants(places, cell, n)| && |row| == nmax
    && forall s :: 0 <= s < nmax && s < size ==> row[s] == Occupants(places, cell, n)[s]
  }

  /** The slots agree with the occupants of every cell after `n` particles. */
  ghost predicate Filled(places: seq<Place>, n: nat, nmax: nat, sizes: seq<nat>, slots: seq<seq<nat>>) {
    && n <= |places| && |sizes| == |slots|
    && forall c: nat :: c < |slots| ==> CellFilled(places, c, n, nmax, sizes[c], slots[c])
  }

  /** Write one slot. */
  function Put(slots: seq<seq<nat>>, bin: nat, offset: nat, n: nat): seq<seq<nat>>
    requires bin < |slots| && offset < |slots[bin]|
  {
    var row: seq<nat> := slots[bin][offset := n];
    slots[bin := row]
  }

  lemma FilledSkips(places: seq<Place>, n: nat, nmax: nat, sizes: seq<nat>, slots: seq<seq<nat>>)
    requires n < |places| && !places[n].In? && Filled(places, n, nmax, sizes, slots)
    ensures Filled(places, n + 1, nmax, sizes, slots)
  {
    forall c: nat | c < |slots| ensures CellFilled(places, c, n + 1, nmax, sizes[c], slots[c]) {
      assert CellFilled(places, c, n, nmax, sizes[c], slots[c]);
    }
  }

  lemma FilledAdds(places: seq<Place>, n: nat, nmax: nat, sizes: seq<nat>, slots: seq<seq<nat>>)
    requires n < |places| && places[n].In? && places[n].cell < |slots| && Filled(places, n, nmax, sizes, slots)
    ensures var bin := places[n].cell;
      Filled(places, n + 1, nmax, sizes[bin := sizes[bin] + 1],
             if sizes[bin] < nmax then Put(slots, bin, sizes[bin], n) else slots)
  {
    var bin := places[n].cell;
    var sizes' := sizes[bin := sizes[bin] + 1];
    var slots' := if sizes[bin] < nmax then Put(slots, bin, sizes[bin], n) else slots;
    forall c: nat | c < |slots| ensures CellFilled(places, c, n + 1, nmax, sizes'[c], slots'[c]) {
      assert CellFilled(places, c, n, nmax, sizes[c], slots[c]);
    }
  }

  /** Where all particles belong in a grid. */
  function Places(particles: seq<Particle>, s: CellSetup, ghostWidth: Vec, g: Indexer): (places: seq<Place>)
    requires s.Valid() && NonNegative(ghostWidth) && g.Valid()
    ensures |places| == |particles|
  {
    seq(|particles|, i requires 0 <= i < |particles| => PlaceOf(particles[i], s, ghostWidth, g))
  }

  /** Every cell has room for its occupants. */
  ghost predicate Roomy(places: seq<Place>, cells: nat, nmax: nat) {
    forall c: nat :: c < cells ==> Load(places, c, |places|) <= nmax
  }

  /** A filled list without overflow; only ghosts outside the grid are missing. */
  ghost predicate Complete(places: seq<Place>, local: nat, nmax: nat, sizes: seq<nat>, slots: seq<seq<nat>>) {
    && Filled(places, |places|, nmax, sizes, slots) && Roomy(places, |slots|, nmax)
    && forall i :: 0 <= i < |places| && !places[i].In? ==> i >= local && places[i].Outside?
  }

  /** The load of the fullest of the first `cells` cells. */
  ghost function Fullest(places: seq<Place>, cells: nat): (most: nat)
    ensures forall c: nat :: c < cells ==> Load(places, c, |places|) <= most
    ensures most == 0 || exists c: nat :: c < cells && Load(places, c, |places|) == most
  {
    if cells == 0 then 0
    else
      var (most, last) := (Fullest(places, cells - 1), Load(places, cells - 1, |places|));
      if most < last then last else most
  }

  /**
  How often the list is filled: again after an overflow of the current places, and once more if the
  slots sized for these overflow with the places after the reallocation.
   */
  ghost function PassCount(now: seq<Place>, cells: nat, later: seq<Place>, cells': nat, nmax: nat): nat {
    if Roomy(now, cells, nmax) then 1 else if Roomy(later, cells', Fullest(now, cells)) then 2 else 3
  }

  /** If nothing moves to another cell, two passes are enough. */
  lemma TwoPassesSuffice(places: seq<Place>, cells: nat, nmax: nat)
    ensures PassCount(places, cells, places, cells, nmax) <= 2
  {
  }

  /** A box of unit lengths without tilt and cells of unit width, not periodic along x. */
  predicate IsUnit(s: CellSetup) {
    && s.box.lo == Vec(0.0, 0.0, 0.0) && s.box.hi == Vec(1.0, 1.0, 1.0) && s.box.xy == s.box.xz == s.box.yz == 0.0
    && s.box.periodic == Periodic(false, true, true) && s.dist == Vec(1.0, 1.0, 1.0)
    && s.nominal == 1.0 && s.multiple == 1 && !s.twoD
  }

  lemma TimesZero(a: real, b: real)
    requires a == 0.0
    ensures a * b == 0.0
  {
  }

  lemma OverOne(a: real, l: real)
    requires l == 1.0
    ensures a / l == a
  {
  }

  lemma UnitPlanes(s: CellSetup)
    requires IsUnit(s)
    ensures ArePlaneDistances(s.box, s.dist)
  {
    var (box, dist) := (s.box, s.dist);
    var l := box.L();
    assert l == Vec(1.0, 1.0, 1.0);
    StraightPlanes(l.x, l.y, box.xy, box.xz, box.yz, dist.x, dist.y);
  }

  lemma StraightPlanes(lx: real, ly: real, xy: real, xz: real, yz: real, distX: real, distY: real)
    requires lx == ly == distX == distY == 1.0 && xy == xz == yz == 0.0
    ensures PlanesXY(lx, ly, xy, xz, yz, distX, distY)
  {
    assert PlanesXY(1.0, 1.0, 0.0, 0.0, 0.0, 1.0, 1.0);
  }

  lemma CountOfUnits(extent: real, n: nat)
    requires 1 <= n && n as real <= extent < (n + 1) as real
    ensures CellCount(extent, 1.0, 1) == n
  {
    assert extent / 1.0 == extent;
  }

  lemma UnitDimensions(s: CellSetup, layer: real)
    requires IsUnit(s) && s.Valid() && 1.0 <= layer < 1.5
    ensures s.DimensionsWith(Vec(layer, 0.0, 0.0)) == Indexer(3, 1, 1)
  {
    CountOfUnits(1.0 + 2.0 * layer, 3);
    CountOfUnits(1.0, 1);
  }

  // Facts about one particle of the example are kept folded: they are only unfolded where a lemma asks
  // for them, so that products and quotients of different axes do not meet.

  predicate Asked(k: int) {
    true
  }

  /** Along an axis, `c` = 0, 1 or 2, the fraction of a position is `f`. */
  ghost predicate HasFraction(s: CellSetup, v: Vec, w: Vec, c: int, f: real)
    requires s.Valid() && NonNegative(w)
  {
    forall k {:trigger Asked(k)} :: Asked(k) && k == c ==> Component(s.Fraction(v, w), k) == f
  }

  /** The untilted coordinate along an axis is `u`. */
  ghost predicate HasCoordinate(box: Box, v: Vec, c: int, u: real) {
    forall k {:trigger Asked(k)} :: Asked(k) && k == c ==> Component(box.Untilted(v), k) == u
  }

  /** A coordinate `u` in a length `l` between planes at `dist` becomes the fraction `f` of the length with its layer. */
  ghost predicate Becomes(u: real, l: real, ghostWidth: real, dist: real, f: real)
    requires l > 0.0 && ghostWidth >= 0.0 && dist > 0.0
  {
    forall k {:trigger Asked(k)} :: Asked(k) ==> WithLayer(u / l, ghostWidth, dist) == f
  }

  /** A position belongs to a cell. */
  ghost predicate Sits(s: CellSetup, v: Vec, w: Vec, g: Indexer, cell: nat)
    requires s.Valid() && NonNegative(w) && g.Valid()
  {
    forall k {:trigger Asked(k)} :: Asked(k) ==> PlaceOf(At(v), s, w, g) == In(cell)
  }

  function Component(v: Vec, c: int): real {
    if c == 0 then v.x else if c == 1 then v.y else v.z
  }

  lemma NoTilt(box: Box, v: Vec, c: int)
    requires box.lo == Vec(0.0, 0.0, 0.0) && box.xy == box.xz == box.yz == 0.0
    ensures HasCoordinate(box, v, c, Component(v, c))
  {
    TimesZero(box.yz, box.xy);
    TimesZero(box.xz - box.yz * box.xy, v.z);
    TimesZero(box.xy, v.y);
    TimesZero(box.yz, v.z);
  }

  lemma UnitAxis(u: real, l: real, ghostWidth: real, dist: real, f: real)
    requires l == dist == 1.0 && ghostWidth >= 0.0 && f == (u + ghostWidth) / (1.0 + 2.0 * ghostWidth)
    ensures Becomes(u, l, ghostWidth, dist, f)
  {
    OverOne(u, l);
    OverOne(ghostWidth, dist);
    LayerQuotient(u / l, u, ghostWidth / dist, ghostWidth);
  }

  lemma LayerQuotient(f: real, u: real, q: real, ghostWidth: real)
    requires f == u && q == ghostWidth >= 0.0
    ensures (f + q) / (1.0 + 2.0 * q) == (u + ghostWidth) / (1.0 + 2.0 * ghostWidth)
  {
  }

  lemma FractionFromCoordinate(s: CellSetup, v: Vec, w: Vec, c: int, u: real, f: real)
    requires s.Valid() && s.box.lo.z < s.box.hi.z && NonNegative(w) && 0 <= c < 3 && HasCoordinate(s.box, v, c, u)
    requires Becomes(u, Component(s.box.L(), c), Component(w, c), Component(s.dist, c), f)
    ensures HasFraction(s, v, w, c, f)
  {
    assert Asked(c);
  }

  lemma UnitFraction(s: CellSetup, v: Vec, w: Vec, c: int, f: real)
    requires IsUnit(s) && s.Valid() && NonNegative(w) && 0 <= c < 3
    requires f == (Component(v, c) + Component(w, c)) / (1.0 + 2.0 * Component(w, c))
    ensures HasFraction(s, v, w, c, f)
  {
    NoTilt(s.box, v, c);
    UnitAxis(Component(v, c), Component(s.box.L(), c), Component(w, c), Component(s.dist, c), f);
    FractionFromCoordinate(s, v, w, c, Component(v, c), f);
  }

  lemma PlaceFromFractions(s: CellSetup, v: Vec, w: Vec, f: Vec, g: Indexer, cell: nat)
    requires s.Valid() && NonNegative(w) && g.Valid() && PlaceIn(f, g, s.box.periodic) == In(cell)
    requires HasFraction(s, v, w, 0, f.x) && HasFraction(s, v, w, 1, f.y) && HasFraction(s, v, w, 2, f.z)
    ensures Sits(s, v, w, g, cell)
  {
    assert Asked(0) && Asked(1) && Asked(2);
    assert s.Fraction(v, w) == f;
  }

  lemma UnitMiddle(s: CellSetup, v: Vec, w: Vec, c: int)
    requires IsUnit(s) && s.Valid() && NonNegative(w) && 0 <= c < 3 && Component(v, c) == 0.5 && Component(w, c) == 0.0
    ensures HasFraction(s, v, w, c, 0.5)
  {
    HalfOverOne(Component(v, c), Component(w, c));
    UnitFraction(s, v, w, c, 0.5);
  }

  lemma HalfOverOne(a: real, b: real)
    requires a == 0.5 && b == 0.0
    ensures (a + b) / (1.0 + 2.0 * b) == 0.5
  {
  }

  /** The cell of a particle in the middle of the unit box, by its x coordinate. */
  lemma UnitPlace(s: CellSetup, x: real, layer: real, cell: nat)
    requires IsUnit(s) && s.Valid() && layer >= 0.0 && cell < 3 && InThird(x + layer, 1.0 + 2.0 * layer, cell)
    ensures Sits(s, Vec(x, 0.5, 0.5), Vec(layer, 0.0, 0.0), Indexer(3, 1, 1), cell)
  {
    var f := (x + layer) / (1.0 + 2.0 * layer);
    ThirdPlace(f, x + layer, 1.0 + 2.0 * layer, cell);
    UnitFraction(s, Vec(x, 0.5, 0.5), Vec(layer, 0.0, 0.0), 0, f);
    UnitPlaceAt(s, Vec(x, 0.5, 0.5), Vec(layer, 0.0, 0.0), f, cell);
  }

  lemma UnitPlaceAt(s: CellSetup, v: Vec, w: Vec, f: real, cell: nat)
    requires IsUnit(s) && s.Valid() && NonNegative(w) && v.y == v.z == 0.5 && w.y == w.z == 0.0 && HasFraction(s, v, w, 0, f)
    requires Indexer(3, 1, 1).Valid() && PlaceIn(Vec(f, 0.5, 0.5), Indexer(3, 1, 1), s.box.periodic) == In(cell)
    ensures Sits(s, v, w, Indexer(3, 1, 1), cell)
  {
    UnitMiddle(s, v, w, 1);
    UnitMiddle(s, v, w, 2);
    PlaceFromFractions(s, v, w, Vec(f, 0.5, 0.5), Indexer(3, 1, 1), cell);
  }

  lemma ThirdPlace(f: real, a: real, e: real, cell: nat)
    requires e > 0.0 && cell < 3 && f == a / e && InThird(a, e, cell)
    ensures Indexer(3, 1, 1).Valid() && PlaceIn(Vec(f, 0.5, 0.5), Indexer(3, 1, 1), Periodic(false, true, true)) == In(cell)
  {
    ThirdCell(f, a, e, cell);
  }

  lemma ThirdCell(f: real, a: real, e: real, cell: nat)
    requires e > 0.0 && cell < 3 && f == a / e && InThird(a, e, cell)
    ensures Indexer(3, 1, 1).Valid() && Indexer(3, 1, 1).Index(Cell(cell, 0, 0)) == cell
    ensures Binned(Vec(f, 0.5, 0.5), Indexer(3, 1, 1), Periodic(false, true, true))
    ensures Bin(Vec(f, 0.5, 0.5), Indexer(3, 1, 1), Periodic(false, true, true)) == Cell(cell, 0, 0)
  {
    CellOfFraction(f, a, e, cell);
    MiddleOfOne();
    FirstRow(cell);
  }

  lemma FirstRow(cell: nat)
    requires cell < 3
    ensures Indexer(3, 1, 1).Valid() && Indexer(3, 1, 1).Index(Cell(cell, 0, 0)) == cell
  {
  }

  lemma MiddleOfOne()
    ensures AxisBinned(0.5, 1, true) && AxisBin(0.5, 1, true) == 0
  {
    assert Scaled(0.5, 1) == 0.5;
  }

  /** A point in one third of an interval. */
  predicate InThird(a: real, length: real, third: nat) {
    if third == 0 then 0.0 <= 3.0 * a < length
    else if third == 1 then length <= 3.0 * a < 2.0 * length
    else 2.0 * length <= 3.0 * a < 3.0 * length
  }

  lemma CellOfFraction(f: real, a: real, e: real, cell: nat)
    requires e > 0.0 && cell < 3 && f == a / e && InThird(a, e, cell)
    ensures AxisBinned(f, 3, false) && AxisBin(f, 3, false) == cell
  {
    assert f * e == a;
    FactorSign(3.0 * f - cell as real, e);
    if 3.0 * f >= (cell + 1) as real {
      ProductSign(3.0 * f - (cell + 1) as real, e);
    }
    assert Scaled(f, 3) == 3.0 * f;
  }

  /**
  A third pass, although the dimensions of the grid stay the same: the list was set up with a ghost
  layer of 1.0, which has grown to 1.4 without notice. Two local particles and two ghosts, which are
  in different cells before the reallocation, are in the same cell after it.
   */
  lemma ThirdPassHappens(s: CellSetup, stale: Vec, particles: seq<Particle>)
    requires IsUnit(s) && s.layer == 1.4 && stale == Vec(1.0, 0.0, 0.0) == s.(layer := 1.0).GhostWidth()
    requires particles == [At(Vec(0.5, 0.5, 0.5)), At(Vec(0.6, 0.5, 0.5)), At(Vec(-0.1, 0.5, 0.5)), At(Vec(-0.05, 0.5, 0.5))]
    ensures s.Valid() && s.DimensionsWith(stale) == s.Dimensions() == Indexer(3, 1, 1)
    ensures PassCount(Places(particles, s, stale, s.Dimensions()), 3, Places(particles, s, s.GhostWidth(), s.Dimensions()), 3, 1) == 3
    ensures ArePlaneDistances(s.box, s.dist)
  {
    UnitDimensions(s, 1.0);
    UnitDimensions(s, 1.4);
    FourPlaces(s, 1.0, 3.0, 1.5, 1.6, 0.9, 0.95, 0);
    FourPlaces(s, 1.4, 3.8, 1.9, 2.0, 1.3, 1.35, 1);
    CountPasses();
    UnitPlanes(s);
  }

  lemma FourPlaces(s: CellSetup, layer: real, length: real, a: real, b: real, c: real, d: real, left: nat)
    requires IsUnit(s) && s.Valid() && layer >= 0.0 && length == 1.0 + 2.0 * layer && left < 3
    requires a == 0.5 + layer && b == 0.6 + layer && c == -0.1 + layer && d == -0.05 + layer
    requires InThird(a, length, 1) && InThird(b, length, 1) && InThird(c, length, left) && InThird(d, length, left)
    ensures Places([At(Vec(0.5, 0.5, 0.5)), At(Vec(0.6, 0.5, 0.5)), At(Vec(-0.1, 0.5, 0.5)), At(Vec(-0.05, 0.5, 0.5))],
                   s, Vec(layer, 0.0, 0.0), Indexer(3, 1, 1)) == [In(1), In(1), In(left), In(left)]
  {
    UnitPlace(s, 0.5, layer, 1);
    UnitPlace(s, 0.6, layer, 1);
    UnitPlace(s, -0.1, layer, left);
    UnitPlace(s, -0.05, layer, left);
    PlacesOfFour(Vec(0.5, 0.5, 0.5), Vec(0.6, 0.5, 0.5), Vec(-0.1, 0.5, 0.5), Vec(-0.05, 0.5, 0.5),
                 s, Vec(layer, 0.0, 0.0), Indexer(3, 1, 1), 1, 1, left, left);
  }

  lemma PlacesOfFour(a: Vec, b: Vec, c: Vec, d: Vec, s: CellSetup, w: Vec, g: Indexer, i: nat, j: nat, k: nat, l: nat)
    requires s.Valid() && NonNegative(w) && g.Valid()
    requires Sits(s, a, w, g, i) && Sits(s, b, w, g, j) && Sits(s, c, w, g, k) && Sits(s, d, w, g, l)
    ensures Places([At(a), At(b), At(c), At(d)], s, w, g) == [In(i), In(j), In(k), In(l)]
  {
    assert Asked(0);
  }

  lemma CountPasses()
    ensures PassCount([In(1), In(1), In(0), In(0)], 3, [In(1), In(1), In(1), In(1)], 3, 1) == 3
  {
    var (now, later) := ([In(1), In(1), In(0), In(0)], [In(1), In(1), In(1), In(1)]);
    LoadOfFour(now, 0);
    LoadOfFour(now, 1);
    LoadOfFour(now, 2);
    LoadOfFour(later, 1);
    assert Load(now, 1, |now|) == 2 && Load(later, 1, |later|) == 4;
  }

  lemma LoadOfFour(places: seq<Place>, cell: nat)
    requires |places| == 4
    ensures Load(places, cell, 4) == Bit(places[0] == In(cell)) + Bit(places[1] == In(cell)) + Bit(places[2] == In(cell)) + Bit(places[3] == In(cell))
  {
    LoadStep(places, cell, 0);
    LoadStep(places, cell, 1);
    LoadStep(places, cell, 2);
    LoadStep(places, cell, 3);
  }

  function Bit(b: bool): nat {
    if b then 1 else 0
  }

  /** The list and the marks after `n` particles. */
  ghost predicate Passed(places: seq<Place>, local: nat, n: nat, nmax: nat, sizes: seq<nat>, slots: seq<seq<nat>>, marks: Conditions) {
    && Filled(places, n, nmax, sizes, slots) && IsOverflow(places, |slots|, nmax, n, marks.overflow)
    && IsLastInvalid(places, n, marks.invalid) && IsLastLost(places, local, n, marks.lost)
  }

  lemma PassedSkips(places: seq<Place>, local: nat, n: nat, nmax: nat, sizes: seq<nat>, slots: seq<seq<nat>>, marks: Conditions)
    requires n < |places| && Passed(places, local, n, nmax, sizes, slots, marks) && !places[n].In?
    ensures Passed(places, local, n + 1, nmax, sizes, slots,
                   if places[n].Invalid? then marks.(invalid := n + 1) else if n < local then marks.(lost := n + 1) else marks)
  {
    FilledSkips(places, n, nmax, sizes, slots);
    OverflowStays(places, |slots|, nmax, n, n + 1, marks.overflow);
  }

  lemma PassedStores(places: seq<Place>, local: nat, n: nat, nmax: nat, sizes: seq<nat>, slots: seq<seq<nat>>, marks: Conditions)
    requires n < |places| && Passed(places, local, n, nmax, sizes, slots, marks)
    requires places[n].In? && places[n].cell < |slots|
    ensures var bin := places[n].cell;
      && |slots[bin]| == nmax
      && Passed(places, local, n + 1, nmax, sizes[bin := sizes[bin] + 1],
                if sizes[bin] < nmax then Put(slots, bin, sizes[bin], n) else slots,
                if sizes[bin] < nmax || sizes[bin] + 1 <= marks.overflow then marks else marks.(overflow := sizes[bin] + 1))
  {
    var bin := places[n].cell;
    assert CellFilled(places, bin, n, nmax, sizes[bin], slots[bin]);
    FilledAdds(places, n, nmax, sizes, slots);
    var slots' := if sizes[bin] < nmax then Put(slots, bin, sizes[bin], n) else slots;
    var marks' := if sizes[bin] < nmax || sizes[bin] + 1 <= marks.overflow then marks else marks.(overflow := sizes[bin] + 1);
    MarksGrow(places, |slots|, local, n, nmax, marks, marks');
    assert |slots'| == |slots|;
    assert Passed(places, local, n + 1, nmax, sizes[bin := sizes[bin] + 1], slots', marks');
  }

  lemma MarksGrow(places: seq<Place>, cells: nat, local: nat, n: nat, nmax: nat, marks: Conditions, marks': Conditions)
    requires n < |places| && places[n].In? && places[n].cell < cells && IsOverflow(places, cells, nmax, n, marks.overflow)
    requires IsLastInvalid(places, n, marks.invalid) && IsLastLost(places, local, n, marks.lost)
    requires var size := Load(places, places[n].cell, n);
      marks' == if size < nmax || size + 1 <= marks.overflow then marks else marks.(overflow := size + 1)
    ensures IsOverflow(places, cells, nmax, n + 1, marks'.overflow)
    ensures IsLastInvalid(places, n + 1, marks'.invalid) && IsLastLost(places, local, n + 1, marks'.lost)
  {
    OverflowGrows(places, cells, nmax, n, n + 1, marks.overflow, marks'.overflow);
  }

  lemma NothingPassed(places: seq<Place>, local: nat, nmax: nat, sizes: seq<nat>, slots: seq<seq<nat>>)
    requires |sizes| == |slots| && forall c :: 0 <= c < |slots| ==> sizes[c] == 0 && |slots[c]| == nmax
    ensures Passed(places, local, 0, nmax, sizes, slots, NO_CONDITIONS)
  {
    forall c: nat | c < |slots| ensures CellFilled(places, c, 0, nmax, sizes[c], slots[c]) {
    }
  }

  /** What a pass over all particles leaves behind. */
  lemma PassResult(places: seq<Place>, local: nat, nmax: nat, sizes: seq<nat>, slots: seq<seq<nat>>, marks: Conditions)
    requires Passed(places, local, |places|, nmax, sizes, slots, marks)
    ensures marks.overflow > nmax ==> Roomy(places, |slots|, marks.overflow) && marks.overflow == Fullest(places, |slots|)
    ensures Roomy(places, |slots|, nmax) <==> marks.overflow <= nmax
    ensures marks.overflow <= nmax && marks.invalid == 0 && marks.lost == 0 ==> Complete(places, local, nmax, sizes, slots)
  {
    forall c: nat | c < |slots| ensures Load(places, c, |places|) <= nmax || Load(places, c, |places|) <= marks.overflow {
    }
    if marks.invalid == 0 && marks.lost == 0 {
      forall i | 0 <= i < |places| && !places[i].In? ensures i >= local && places[i].Outside? {
        assert !LostParticle(places, local, i);
      }
    }
  }

  datatype Outcome = Done | NanError(particle: nat) | LostError(particle: nat)

  class CellList {
    var dim: Indexer
    var ghostWidth: Vec
    var nmax: nat
    var sizes: seq<nat>
    var slots: seq<seq<nat>>
    var conditions: Conditions
    var paramsChanged: bool
    var boxChanged: bool
    var particlesSorted: bool

    constructor ()
      ensures paramsChanged && nmax == 0
    {
      dim, ghostWidth, nmax, sizes, slots, conditions := Indexer(0, 0, 0), Vec(0.0, 0.0, 0.0), 0, [], [], NO_CONDITIONS;
      paramsChanged, boxChanged, particlesSorted := true, false, false;
    }

    /** Memory is allocated for the current grid. */
    ghost predicate Allocated()
      reads this
    {
      && dim.Valid() && NonNegative(ghostWidth) && nmax >= 1 && |sizes| == |slots| == dim.Size()
      && forall c :: 0 <= c < |slots| ==> |slots[c]| == nmax
    }

    /** The grid is the one of the setup, with the ghost layer it was computed for. */
    ghost predicate SetUp(s: CellSetup)
      requires s.Valid()
      reads this
    {
      Allocated() && dim == s.DimensionsWith(ghostWidth)
    }

    /** Where the particles belong in the current grid. */
    ghost function PlacesNow(particles: seq<Particle>, s: CellSetup): seq<Place>
      requires s.Valid() && Allocated()
      reads this
    {
      Places(particles, s, ghostWidth, dim)
    }

    /** Take over the dimensions and the ghost layer they are computed for. */
    method InitializeWidth(s: CellSetup)
      requires s.Valid()
      modifies `dim, `ghostWidth
      ensures dim == s.Dimensions() && ghostWidth == s.GhostWidth()
    {
      ghostWidth := s.GhostWidth();
      dim := s.DimensionsWith(ghostWidth);
    }

    /** Take over grid and ghost layer and allocate; a first guess for the slots is the mean occupancy. */
    method InitializeAll(s: CellSetup, particles: nat)
      requires s.Valid()
      modifies `dim, `ghostWidth, `nmax, `sizes, `slots
      ensures SetUp(s) && dim == s.Dimensions() && ghostWidth == s.GhostWidth() && (old(nmax) != 0 ==> nmax == old(nmax))
    {
      InitializeWidth(s);
      assert dim.Size() > 0 by {
        IndexBelowSize(dim, Cell(0, 0, 0));
      }
      if nmax == 0 {
        nmax := (particles + dim.Size() - 1) / dim.Size();
        if nmax == 0 {
          nmax := 1;
        }
      }
      sizes := seq(dim.Size(), _ => 0);
      var row: seq<nat> := seq(nmax, _ => 0);
      slots := seq(dim.Size(), _ => row);
    }

    /** One pass over all particles; particles from `local` on are ghosts. */
    method ComputeCellList(particles: seq<Particle>, local: nat, s: CellSetup)
      requires s.Valid() && Allocated()
      modifies `sizes, `slots, `conditions
      ensures Allocated() && Passed(PlacesNow(particles, s), local, |particles|, nmax, sizes, slots, conditions)
    {
      VisitAll(particles, local, s, PlacesNow(particles, s));
    }

    method VisitAll(particles: seq<Particle>, local: nat, s: CellSetup, ghost places: seq<Place>)
      requires s.Valid() && Allocated() && places == PlacesNow(particles, s)
      modifies `sizes, `slots, `conditions
      ensures Allocated() && Passed(places, local, |places|, nmax, sizes, slots, conditions)
    {
      sizes := seq(dim.Size(), _ => 0);
      conditions := NO_CONDITIONS;
      NothingPassed(places, local, nmax, sizes, slots);
      for n := 0 to |particles|
        invariant Allocated() && Passed(places, local, n, nmax, sizes, slots, conditions)
      {
        var place := Locate(particles, n, s, places);
        Visit(place, n, local, places);
      }
    }

    /** The cell of a particle. */
    method Locate(particles: seq<Particle>, n: nat, s: CellSetup, ghost places: seq<Place>) returns (place: Place)
      requires s.Valid() && Allocated() && n < |particles| && places == PlacesNow(particles, s)
      ensures place == places[n] && (place.In? ==> place.cell < |slots|)
    {
      place := PlaceOf(particles[n], s, ghostWidth, dim);
    }

    /** Put one particle into the next slot of its cell, or note why not. */
    method Visit(place: Place, n: nat, local: nat, ghost places: seq<Place>)
      requires Allocated() && n < |places| && Passed(places, local, n, nmax, sizes, slots, conditions)
      requires places[n] == place && (place.In? ==> place.cell < |slots|)
      modifies `sizes, `slots, `conditions
      ensures Allocated() && Passed(places, local, n + 1, nmax, sizes, slots, conditions)
    {
      match place
      case Invalid =>
        PassedSkips(places, local, n, nmax, sizes, slots, conditions);
        conditions := conditions.(invalid := n + 1);
      case Outside =>
        PassedSkips(places, local, n, nmax, sizes, slots, conditions);
        if n < local {
          conditions := conditions.(lost := n + 1);
        }
      case In(bin) =>
        PassedStores(places, local, n, nmax, sizes, slots, conditions);
        var offset := sizes[bin];
        if offset < nmax {
          slots := Put(slots, bin, offset, n);
        } else if conditions.overflow < offset + 1 {
          conditions := conditions.(overflow := offset + 1);
        }
        sizes := sizes[bin := sizes[bin] + 1];
    }

    /** Raise the number of slots after an overflow; report invalid and lost particles. */
    method CheckConditions() returns (overflowed: bool, outcome: Outcome)
      modifies `nmax
      ensures overflowed <==> conditions.overflow > old(nmax)
      ensures nmax == if overflowed then conditions.overflow else old(nmax)
      ensures outcome == if conditions.invalid > 0 then NanError(conditions.invalid - 1)
                         else if conditions.lost > 0 then LostError(conditions.lost - 1) else Done
    {
      overflowed, outcome := false, Done;
      if conditions.overflow > nmax {
        nmax := conditions.overflow;
        overflowed := true;
      }
      if conditions.invalid != 0 {
        outcome := NanError(conditions.invalid - 1);
      } else if conditions.lost != 0 {
        outcome := LostError(conditions.lost - 1);
      }
    }

    /** React to changed parameters or a changed box before the list is filled. */
    method Prepare(s: CellSetup, particles: nat) returns (force: bool)
      requires s.Valid() && (paramsChanged || (Allocated() && (boxChanged || SetUp(s))))
      modifies this
      ensures SetUp(s) && !paramsChanged && !boxChanged && !particlesSorted
      ensures force <==> old(paramsChanged) || old(boxChanged) || old(particlesSorted)
      ensures old(paramsChanged) || old(boxChanged) ==> ghostWidth == s.GhostWidth()
      ensures !old(paramsChanged) && !old(boxChanged) ==>
        dim == old(dim) && ghostWidth == old(ghostWidth) && slots == old(slots) && nmax == old(nmax)
    {
      force := false;
      if paramsChanged {
        InitializeAll(s, particles);
        paramsChanged := false;
        force := true;
      }
      if boxChanged {
        if dim == s.Dimensions() {
          InitializeWidth(s);
        } else {
          InitializeAll(s, particles);
        }
        boxChanged := false;
        force := true;
      }
      if particlesSorted {
        particlesSorted := false;
        force := true;
      }
    }

    /**
    Bring the list up to date. Changes of parameters and box are announced; a change of the ghost layer
    is not, it is noticed with the next allocation.
     */
    method Compute(particles: seq<Particle>, local: nat, s: CellSetup, should: bool)
      returns (outcome: Outcome, passes: nat)
      requires s.Valid() && (paramsChanged || (Allocated() && (boxChanged || SetUp(s))))
      modifies this
      ensures passes <= 3
      ensures old(paramsChanged) || old(boxChanged) || old(ghostWidth) == s.GhostWidth() ==> passes <= 2
      ensures !old(paramsChanged) && !old(boxChanged) && passes > 0 && outcome == Done ==>
        passes == PassCount(old(PlacesNow(particles, s)), |old(slots)|,
                            Places(particles, s, s.GhostWidth(), s.Dimensions()), s.Dimensions().Size(), old(nmax))
      ensures passes == 0 <==> !(should || old(paramsChanged) || old(boxChanged) || old(particlesSorted))
      ensures outcome == Done ==> SetUp(s)
      ensures outcome == Done && passes > 0 ==> Complete(PlacesNow(particles, s), local, nmax, sizes, slots)
      ensures outcome.NanError? ==> outcome.particle < |particles| && particles[outcome.particle] == NotANumber
      ensures outcome.LostError? ==>
        && outcome.particle < |particles| && outcome.particle < local && NonNegative(ghostWidth)
        && dim.Valid() && PlaceOf(particles[outcome.particle], s, ghostWidth, dim) == Outside
    {
      var force := Prepare(s, |particles|);
      outcome, passes := Done, 0;
      if should || force {
        outcome, passes := Fill(particles, local, s);
      }
    }

    /** One pass and its check; after an overflow grid, ghost layer and memory are set up anew. */
    method Pass(particles: seq<Particle>, local: nat, s: CellSetup) returns (overflowed: bool, outcome: Outcome)
      requires s.Valid() && SetUp(s)
      modifies this
      ensures overflowed <==> !Roomy(old(PlacesNow(particles, s)), |old(slots)|, old(nmax))
      ensures outcome == Done ==> SetUp(s)
      ensures outcome == Done && overflowed ==>
        && dim == s.Dimensions() && ghostWidth == s.GhostWidth()
        && nmax == Fullest(old(PlacesNow(particles, s)), |old(slots)|)
      ensures outcome == Done && !overflowed ==> Complete(PlacesNow(particles, s), local, nmax, sizes, slots)
      ensures outcome.NanError? ==> outcome.particle < |particles| && particles[outcome.particle] == NotANumber
      ensures outcome.LostError? ==>
        && outcome.particle < |particles| && outcome.particle < local && NonNegative(ghostWidth)
        && dim.Valid() && PlaceOf(particles[outcome.particle], s, ghostWidth, dim) == Outside
    {
      ComputeCellList(particles, local, s);
      PassResult(PlacesNow(particles, s), local, nmax, sizes, slots, conditions);
      overflowed, outcome := CheckConditions();
      if outcome == Done && overflowed {
        InitializeAll(s, |particles|);
        conditions := NO_CONDITIONS;
      }
    }

    /** Fill the list, again after every overflow. */
    method Fill(particles: seq<Particle>, local: nat, s: CellSetup) returns (outcome: Outcome, passes: nat)
      requires s.Valid() && SetUp(s)
      modifies this
      ensures outcome == Done ==>
        passes == PassCount(old(PlacesNow(particles, s)), |old(slots)|,
                            Places(particles, s, s.GhostWidth(), s.Dimensions()), s.Dimensions().Size(), old(nmax))
      ensures 1 <= passes <= 3 && (old(ghostWidth) == s.GhostWidth() ==> passes <= 2)
      ensures outcome == Done ==> SetUp(s) && Complete(PlacesNow(particles, s), local, nmax, sizes, slots)
      ensures outcome.NanError? ==> outcome.particle < |particles| && particles[outcome.particle] == NotANumber
      ensures outcome.LostError? ==>
        && outcome.particle < |particles| && outcome.particle < local && NonNegative(ghostWidth)
        && dim.Valid() && PlaceOf(particles[outcome.particle], s, ghostWidth, dim) == Outside
    {
      passes, outcome := 0, Done;
      ghost var (now, later, cells) := (PlacesNow(particles, s), Places(particles, s, s.GhostWidth(), s.Dimensions()), s.Dimensions().Size());
      TwoPassesSuffice(now, |slots|, nmax);
      var overflowed := true;
      while overflowed
        invariant SetUp(s) && outcome == Done
        invariant overflowed ==> passes <= 2
        invariant overflowed && passes == 0 ==> ghostWidth == old(ghostWidth) && nmax == old(nmax) && slots == old(slots)
        invariant overflowed && passes > 0 ==> ghostWidth == s.GhostWidth() && !Roomy(now, |old(slots)|, old(nmax))
        invariant overflowed && passes == 1 ==> nmax == Fullest(now, |old(slots)|)
        invariant overflowed && passes == 2 ==> !Roomy(later, cells, Fullest(now, |old(slots)|)) && nmax == Fullest(later, cells)
        invariant !overflowed ==> passes == PassCount(now, |old(slots)|, later, cells, old(nmax))
        invariant !overflowed ==> Complete(PlacesNow(particles, s), local, nmax, sizes, slots)
        decreases if overflowed then 4 - passes else 0
      {
        overflowed, outcome := Pass(particles, local, s);
        passes := passes + 1;
        if outcome != Done {
          return;
        }
      }
    }
  }

  /** Every particle in the grid has exactly one slot; the slots of a cell are in increasing order. */
  lemma SlotsAreExact(places: seq<Place>, local: nat, nmax: nat, sizes: seq<nat>, slots: seq<seq<nat>>, i: nat)
    requires Complete(places, local, nmax, sizes, slots)
    requires forall j :: 0 <= j < |places| && places[j].In? ==> places[j].cell < |slots|
    ensures (exists c, s :: Holds(sizes, slots, c, s, i)) <==> i < |places| && places[i].In?
    ensures i < local && i < |places| ==> exists c, s :: Holds(sizes, slots, c, s, i)
    ensures forall c, s :: Holds(sizes, slots, c, s, i) ==> places[i] == In(c)
    ensures forall c, s, s' :: Holds(sizes, slots, c, s, i) && Holds(sizes, slots, c, s', i) ==> s == s'
  {
    forall c: nat, s: nat | Holds(sizes, slots, c, s, i) ensures i < |places| && places[i] == In(c) {
      SlotIsOccupant(places, nmax, sizes, slots, c, s);
      OccupantsExact(places, c, |places|, i);
    }
    forall c: nat, s: nat, s': nat | Holds(sizes, slots, c, s, i) && Holds(sizes, slots, c, s', i) ensures s == s' {
      SlotIsOccupant(places, nmax, sizes, slots, c, s);
      SlotIsOccupant(places, nmax, sizes, slots, c, s');
      OccupantsIncrease(places, c, |places|);
    }
    if i < |places| && places[i].In? {
      var c := places[i].cell;
      OccupantsExact(places, c, |places|, i);
      var s: nat :| s < |Occupants(places, c, |places|)| && Occupants(places, c, |places|)[s] == i;
      assert Load(places, c, |places|) <= nmax;
      assert CellFilled(places, c, |places|, nmax, sizes[c], slots[c]);
      assert Holds(sizes, slots, c, s, i);
    }
  }

  /**
  What the filled list is for: every particle within the search radius of another one is in a slot of
  a cell that the cell of the other one lists, except exactly for pairs with a misplaced particle.
   */
  lemma NeighborsAreFound(s: CellSetup, w: Vec, particles: seq<Particle>, local: nat, nmax: nat, sizes: seq<nat>,
                          slots: seq<seq<nat>>, i: nat, j: nat, r: nat)
    requires s.Valid() && ArePlaneDistances(s.box, s.dist) && IsLayer(s.box.periodic, w)
    requires Complete(Places(particles, s, w, s.DimensionsWith(w)), local, nmax, sizes, slots) && |slots| == s.DimensionsWith(w).Size()
    requires i < |particles| && particles[i].At? && PlaceOf(particles[i], s, w, s.DimensionsWith(w)).In?
    requires j < |particles| && particles[j].At? && PlaceOf(particles[j], s, w, s.DimensionsWith(w)).In?
    requires WithinRadius(s.box, particles[i].position, particles[j].position, r as real * s.nominal)
    ensures var (g, f1, f2) := (s.DimensionsWith(w), s.Fraction(particles[i].position, w), s.Fraction(particles[j].position, w));
      (exists c, k :: c in Neighbors(g, r, if s.twoD then 0 else r, Bin(f1, g, s.box.periodic)) && Holds(sizes, slots, c, k, j))
      <==> !Lost(f1, f2, g, s.box.periodic, r)
  {
    var (g, places) := (s.DimensionsWith(w), Places(particles, s, w, s.DimensionsWith(w)));
    var (v1, v2) := (particles[i].position, particles[j].position);
    CloseAreNeighbors(s, w, v1, v2, r);
    SlotsAreExact(places, local, nmax, sizes, slots, j);
    var c: nat, k: nat :| Holds(sizes, slots, c, k, j);
    assert places[j] == In(g.Index(Bin(s.Fraction(v2, w), g, s.box.periodic)));
  }

  /** Slot `s` of cell `c` holds particle `i`. */
  ghost predicate Holds(sizes: seq<nat>, slots: seq<seq<nat>>, c: nat, s: nat, i: nat) {
    c < |slots| && c < |sizes| && s < sizes[c] && s < |slots[c]| && slots[c][s] == i
  }

  lemma SlotIsOccupant(places: seq<Place>, nmax: nat, sizes: seq<nat>, slots: seq<seq<nat>>, c: nat, s: nat)
    requires Filled(places, |places|, nmax, sizes, slots) && c < |slots| && s < sizes[c] && s < nmax
    ensures s < |slots[c]| && s < |Occupants(places, c, |places|)| && slots[c][s] == Occupants(places, c, |places|)[s]
  {
    assert CellFilled(places, c, |places|, nmax, sizes[c], slots[c]);
  }
}
