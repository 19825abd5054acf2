/**
The triclinic simulation box: fractional coordinates, wrapping across periodic boundaries,
lattice shifts, and the shifted global box the communicator wraps received particles with.
Scalars are exact reals.
 */
module BoxDim {

  datatype Vec = Vec(x: real, y: real, z: real)

  datatype Image = Image(x: int, y: int, z: int)

  /** Which boundaries are periodic. */
  datatype Periodic = Periodic(x: bool, y: bool, z: bool)

  /** Per-axis wrapping request: 0 decides by position, 1 and -1 force one direction. */
  datatype Flags = Flags(x: int, y: int, z: int)

  datatype Box = Box(lo: Vec, hi: Vec, xy: real, xz: real, yz: real, periodic: Periodic) {

    function L(): Vec {
      Vec(hi.x - lo.x, hi.y - lo.y, hi.z - lo.z)
    }

    /** Positive extent along every axis. */
    ghost predicate NonDegenerate() {
      lo.x < hi.x && lo.y < hi.y && lo.z < hi.z
    }

    ghost predicate Centred() {
      lo.x == -hi.x && lo.y == -hi.y && lo.z == -hi.z
    }

    /** How far a point at (y, z) is sheared along x. */
    function TiltX(y: real, z: real): real {
      (xz - yz * xy) * z + xy * y
    }

    /** How far a point at height z is sheared along y. */
    function TiltY(z: real): real {
      yz * z
    }

    /** The vector relative to the lower corner, with the tilt taken out. */
    function Untilted(v: Vec): Vec {
      Vec(v.x - lo.x - TiltX(v.y, v.z), v.y - lo.y - TiltY(v.z), v.z - lo.z)
    }

    function MakeFraction(v: Vec): Vec
      requires NonDegenerate()
    {
      Quotient(Untilted(v), L())
    }

    function MakeCoordinates(f: Vec): Vec {
      var v := Vec(lo.x + f.x * L().x, lo.y + f.y * L().y, lo.z + f.z * L().z);
      Vec(v.x + (xy * v.y + xz * v.z), v.y + yz * v.z, v.z)
    }

    function LatticeVector(i: nat): Vec {
      if i == 0 then Vec(L().x, 0.0, 0.0)
      else if i == 1 then Vec(L().y * xy, L().y, 0.0)
      else if i == 2 then Vec(L().z * xz, L().z * yz, L().z)
      else Vec(0.0, 0.0, 0.0)
    }

    /** The vector moved by a whole number of lattice vectors. */
    function Shift(v: Vec, img: Image): Vec {
      Plus(Plus(Plus(v, Scale(img.x as real, LatticeVector(0))),
                Scale(img.y as real, LatticeVector(1))),
           Scale(img.z as real, LatticeVector(2)))
    }

    /** The origin tilts are measured from; along a nonperiodic axis it is the global one. */
    function TiltOrigin(): Vec {
      Vec((hi.x + lo.x) / 2.0,
          if periodic.y then (hi.y + lo.y) / 2.0 else 0.0,
          if periodic.z then (hi.z + lo.z) / 2.0 else 0.0)
    }

    function WrapX(w: Vec, img: Image, flag: int): (Vec, Image) {
      var tilt := TiltX(w.y - TiltOrigin().y, w.z - TiltOrigin().z);
      if !periodic.x then (w, img)
      else if (w.x >= hi.x + tilt && flag == 0) || flag == 1 then
        (w.(x := w.x - L().x), img.(x := img.x + 1))
      else if (w.x < lo.x + tilt && flag == 0) || flag == -1 then
        (w.(x := w.x + L().x), img.(x := img.x - 1))
      else (w, img)
    }

    function WrapY(w: Vec, img: Image, flag: int): (Vec, Image) {
      var tilt := TiltY(w.z - TiltOrigin().z);
      if !periodic.y then (w, img)
      else if (w.y >= hi.y + tilt && flag == 0) || flag == 1 then
        (w.(x := w.x - L().y * xy, y := w.y - L().y), img.(y := img.y + 1))
      else if (w.y < lo.y + tilt && flag == 0) || flag == -1 then
        (w.(x := w.x + L().y * xy, y := w.y + L().y), img.(y := img.y - 1))
      else (w, img)
    }

    function WrapZ(w: Vec, img: Image, flag: int): (Vec, Image) {
      if !periodic.z then (w, img)
      else if (w.z >= hi.z && flag == 0) || flag == 1 then
        (Vec(w.x - L().z * xz, w.y - L().z * yz, w.z - L().z), img.(z := img.z + 1))
      else if (w.z < lo.z && flag == 0) || flag == -1 then
        (Vec(w.x + L().z * xz, w.y + L().z * yz, w.z + L().z), img.(z := img.z - 1))
      else (w, img)
    }

    /** Wrap a vector back into the box, recording the images crossed: x, then y, then z. */
    function Wrap(w: Vec, img: Image, flags: Flags): (Vec, Image) {
      var (w1, i1) := WrapX(w, img, flags.x);
      var (w2, i2) := WrapY(w1, i1, flags.y);
      WrapZ(w2, i2, flags.z)
    }
  }

  const NO_FLAGS := Flags(0, 0, 0)

  function Plus(a: Vec, b: Vec): Vec {
    Vec(a.x + b.x, a.y + b.y, a.z + b.z)
  }

  function Quotient(a: Vec, l: Vec): Vec
    requires l.x > 0.0 && l.y > 0.0 && l.z > 0.0
  {
    Vec(a.x / l.x, a.y / l.y, a.z / l.z)
  }

  function Square(x: real): real {
    x * x
  }

  lemma SquareSign(x: real)
    ensures Square(x) >= 0.0 && Square(-x) == Square(x)
  {
  }

  function Scale(k: real, a: Vec): Vec {
    Vec(k * a.x, k * a.y, k * a.z)
  }

  /** Fractional and Cartesian coordinates are mutually inverse in every triclinic box. */
  lemma FractionOfCoordinates(b: Box, f: Vec)
    requires b.NonDegenerate()
    ensures b.MakeFraction(b.MakeCoordinates(f)) == f
  {
    var v := b.MakeCoordinates(f);
    var l := b.L();
    assert v.x - b.lo.x - ((b.xz - b.yz * b.xy) * v.z + b.xy * v.y) == f.x * l.x by {
      TiltCancels(b.xy, b.xz, b.yz, b.lo.y + f.y * l.y, v.z);
    }
    DivOfProduct(f.x, l.x);
    DivOfProduct(f.y, l.y);
    DivOfProduct(f.z, l.z);
  }

  lemma CoordinatesOfFraction(b: Box, v: Vec)
    requires b.NonDegenerate()
    ensures b.MakeCoordinates(b.MakeFraction(v)) == v
  {
    TiltCancels(b.xy, b.xz, b.yz, v.y - b.yz * v.z, v.z);
  }

  lemma TiltCancels(xy: real, xz: real, yz: real, y: real, z: real)
    ensures xy * y + xz * z == (xz - yz * xy) * z + xy * (y + yz * z)
  {
  }

  lemma DivOfProduct(a: real, l: real)
    requires l != 0.0
    ensures (a * l) / l == a
  {
  }

  /**
  Wrapping never changes the unwrapped position: for every box, tilt, set of periodic
  boundaries and forced flags, `Shift(w, img)` is invariant.
   */
  lemma WrapKeepsUnwrapped(b: Box, w: Vec, img: Image, flags: Flags)
    ensures var (v, i) := b.Wrap(w, img, flags); b.Shift(v, i) == b.Shift(w, img)
  {
    var (w1, i1) := b.WrapX(w, img, flags.x);
    var (w2, i2) := b.WrapY(w1, i1, flags.y);
    StepX(b, w, img, flags.x);
    StepY(b, w1, i1, flags.y);
    StepZ(b, w2, i2, flags.z);
  }

  /** A flag of one or minus one forces a move through that face, whatever the position; other axes are not affected. */
  lemma FlagsForceImages(b: Box, w: Vec, img: Image, flags: Flags)
    ensures var i := b.Wrap(w, img, flags).1;
      && (b.periodic.x && (flags.x == 1 || flags.x == -1) ==> i.x == img.x + flags.x)
      && (b.periodic.y && (flags.y == 1 || flags.y == -1) ==> i.y == img.y + flags.y)
      && (b.periodic.z && (flags.z == 1 || flags.z == -1) ==> i.z == img.z + flags.z)
      && (!b.periodic.x ==> i.x == img.x) && (!b.periodic.y ==> i.y == img.y) && (!b.periodic.z ==> i.z == img.z)
  {
  }

  lemma StepX(b: Box, w: Vec, img: Image, flag: int)
    ensures var (v, i) := b.WrapX(w, img, flag); b.Shift(v, i) == b.Shift(w, img)
  {
    OneMore(img.x, b.L().x);
  }

  lemma StepY(b: Box, w: Vec, img: Image, flag: int)
    ensures var (v, i) := b.WrapY(w, img, flag); b.Shift(v, i) == b.Shift(w, img)
  {
    OneMore(img.y, b.L().y);
    OneMore(img.y, b.L().y * b.xy);
  }

  lemma StepZ(b: Box, w: Vec, img: Image, flag: int)
    ensures var (v, i) := b.WrapZ(w, img, flag); b.Shift(v, i) == b.Shift(w, img)
  {
    var (v, i) := b.WrapZ(w, img, flag);
    var (x, y, a) := (Scale(img.x as real, b.LatticeVector(0)), Scale(img.y as real, b.LatticeVector(1)), b.LatticeVector(2));
    NextMultiple(img.z, a);
    if i.z == img.z + 1 {
      MoveOver(v, w, x, y, Scale(i.z as real, a), Scale(img.z as real, a), a);
    } else if i.z == img.z - 1 {
      MoveOver(w, v, x, y, Scale(img.z as real, a), Scale(i.z as real, a), a);
    }
  }

  /** Shifts by images add up. */
  lemma ShiftTwice(b: Box, v: Vec, i: Image, j: Image)
    ensures b.Shift(b.Shift(v, i), j) == b.Shift(v, Image(i.x + j.x, i.y + j.y, i.z + j.z))
  {
    SumOfMultiples(i.x, j.x, b.LatticeVector(0));
    SumOfMultiples(i.y, j.y, b.LatticeVector(1));
    SumOfMultiples(i.z, j.z, b.LatticeVector(2));
    Regroup(v, Scale(i.x as real, b.LatticeVector(0)), Scale(i.y as real, b.LatticeVector(1)), Scale(i.z as real, b.LatticeVector(2)),
            Scale(j.x as real, b.LatticeVector(0)), Scale(j.y as real, b.LatticeVector(1)), Scale(j.z as real, b.LatticeVector(2)));
  }

  lemma SumOfMultiples(m: int, n: int, a: Vec)
    ensures Scale((m + n) as real, a) == Plus(Scale(m as real, a), Scale(n as real, a))
  {
    SumOfProducts(m as real, n as real, a.x);
    SumOfProducts(m as real, n as real, a.y);
    SumOfProducts(m as real, n as real, a.z);
  }

  lemma SumOfProducts(m: real, n: real, a: real)
    ensures (m + n) * a == m * a + n * a
  {
  }

  lemma Regroup(v: Vec, a: Vec, b: Vec, c: Vec, a': Vec, b': Vec, c': Vec)
    ensures Plus(Plus(Plus(Plus(Plus(Plus(v, a), b), c), a'), b'), c') == Plus(Plus(Plus(v, Plus(a, a')), Plus(b, b')), Plus(c, c'))
  {
  }

  lemma NoShift(b: Box, v: Vec)
    ensures b.Shift(v, Image(0, 0, 0)) == v
  {
  }

  /** Two positions of the same point of the periodic system. */
  ghost predicate SamePoint(b: Box, v: Vec, w: Vec) {
    exists img :: w == b.Shift(v, img)
  }

  /** Wrapping leads to another position of the same point. */
  lemma WrapKeepsPoint(b: Box, start: Vec, w: Vec, img: Image, flags: Flags)
    requires SamePoint(b, start, w)
    ensures SamePoint(b, start, b.Wrap(w, img, flags).0)
  {
    var (v, i) := b.Wrap(w, img, flags);
    var k :| w == b.Shift(start, k);
    var back := Image(-i.x, -i.y, -i.z);
    WrapKeepsUnwrapped(b, w, img, flags);
    ShiftTwice(b, v, i, back);
    NoShift(b, v);
    ShiftTwice(b, w, img, back);
    ShiftTwice(b, start, k, Image(img.x - i.x, img.y - i.y, img.z - i.z));
  }

  lemma SameShift(a: Box, b: Box, v: Vec, img: Image)
    requires SameShape(a, b)
    ensures a.Shift(v, img) == b.Shift(v, img)
  {
    assert a.LatticeVector(0) == b.LatticeVector(0) && a.LatticeVector(1) == b.LatticeVector(1)
        && a.LatticeVector(2) == b.LatticeVector(2);
  }

  lemma NextMultiple(n: int, a: Vec)
    ensures Scale((n + 1) as real, a) == Plus(Scale(n as real, a), a)
    ensures Scale(n as real, a) == Plus(Scale((n - 1) as real, a), a)
  {
    OneMore(n, a.x);
    OneMore(n, a.y);
    OneMore(n, a.z);
  }

  lemma MoveOver(v: Vec, w: Vec, x: Vec, y: Vec, m: Vec, n: Vec, a: Vec)
    requires w == Plus(v, a) && m == Plus(n, a)
    ensures Plus(Plus(Plus(v, x), y), m) == Plus(Plus(Plus(w, x), y), n)
  {
  }

  lemma OneMore(n: int, a: real)
    ensures ((n + 1) as real) * a == (n as real) * a + a
    ensures ((n - 1) as real) * a == (n as real) * a - a
  {
  }

  /** The wrapped position does not depend on the image it is booked in. */
  lemma WrapIgnoresImage(b: Box, w: Vec, i: Image, j: Image, flags: Flags)
    ensures b.Wrap(w, i, flags).0 == b.Wrap(w, j, flags).0
  {
  }

  /** One coordinate of a wrap whose window starts at `s`. */
  function WrapUnit(f: real, s: real): real {
    if f >= 1.0 + s then f - 1.0 else if f < s then f + 1.0 else f
  }

  /** The shifted box the communicator wraps with, moved by the fractions `s`. */
  function ShiftedBox(global: Box, s: Vec, periodic: Periodic): Box {
    var dx := global.MakeCoordinates(Vec(0.5 + s.x, 0.5 + s.y, 0.5 + s.z));
    global.(lo := Plus(global.lo, dx), hi := Plus(global.hi, dx), periodic := periodic)
  }

  /** How far the x window of a shifted box is off, in units of the x length. */
  function XWindowError(global: Box, s: Vec, periodic: Periodic): real
    requires global.NonDegenerate()
  {
    if periodic.y then 0.0 else global.xy * global.yz * s.z * global.L().z / global.L().x
  }

  /**
  Wrapping with a shifted box acts on the three fractional coordinates separately: along a
  periodic axis the window [0,1) moves to [s,1+s), along the others nothing happens. The x
  window is off by `XWindowError`.
   */
  lemma ShiftedWrapPerAxis(global: Box, s: Vec, p: Periodic, w: Vec, img: Image)
    requires global.NonDegenerate() && global.Centred()
    requires (!p.x ==> s.x == 0.0) && (!p.y ==> s.y == 0.0) && (!p.z ==> s.z == 0.0)
    ensures var f := global.MakeFraction(w);
            global.MakeFraction(ShiftedBox(global, s, p).Wrap(w, img, NO_FLAGS).0)
            == Vec(if p.x then WrapUnit(f.x, s.x + XWindowError(global, s, p)) else f.x,
                   if p.y then WrapUnit(f.y, s.y) else f.y,
                   if p.z then WrapUnit(f.z, s.z) else f.z)
  {
    var b := ShiftedBox(global, s, p);
    var (w1, i1) := b.WrapX(w, img, 0);
    var (w2, i2) := b.WrapY(w1, i1, 0);
    ShiftedWrapX(global, s, p, w, img);
    ShiftedWrapY(global, s, p, w1, i1);
    ShiftedWrapZ(global, s, p, w2, i2);
  }

  /** Deciding on the numerators and moving by one length is `WrapUnit` on the quotients. */
  lemma WrapUnitOfQuotient(a: real, l: real, t: real)
    requires l > 0.0
    ensures WrapUnit(a / l, t)
            == WrapLength(a, l, t * l) / l
  {
    var q := a / l;
    assert a == q * l;
    WrapByQuotient(q, a, l, t);
    QuotientIs(WrapLength(a, l, t * l), WrapUnit(q, t), l);
  }

  lemma QuotientIs(a: real, q: real, l: real)
    requires l > 0.0 && a == q * l
    ensures a / l == q
  {
    DivOfProduct(q, l);
  }

  lemma WrapByQuotient(q: real, a: real, l: real, t: real)
    requires l > 0.0 && a == q * l
    ensures WrapLength(a, l, t * l) == WrapUnit(q, t) * l
  {
    ProductOrder(q, 1.0 + t, l);
    ProductOrder(q, t, l);
    OneMoreLength(t, l);
    if q >= 1.0 + t {
      OneMoreLength(q - 1.0, l);
      ProductIs(WrapUnit(q, t), q - 1.0, l);
    } else if q < t {
      OneMoreLength(q, l);
      ProductIs(WrapUnit(q, t), 1.0 + q, l);
    } else {
      ProductIs(WrapUnit(q, t), q, l);
    }
  }

  lemma ProductIs(a: real, b: real, l: real)
    requires a == b
    ensures a * l == b * l
  {
  }

  lemma OneMoreLength(a: real, l: real)
    ensures (1.0 + a) * l == l + a * l
  {
  }

  lemma QuotientAfterX(u: Vec, l: Vec, t: real)
    requires l.x > 0.0 && l.y > 0.0 && l.z > 0.0
    ensures Quotient(u.(x := WrapLength(u.x, l.x, t * l.x)), l) == Quotient(u, l).(x := WrapUnit(u.x / l.x, t))
  {
    WrapUnitOfQuotient(u.x, l.x, t);
  }

  lemma QuotientAfterY(u: Vec, l: Vec, t: real)
    requires l.x > 0.0 && l.y > 0.0 && l.z > 0.0
    ensures Quotient(u.(y := WrapLength(u.y, l.y, t * l.y)), l) == Quotient(u, l).(y := WrapUnit(u.y / l.y, t))
  {
    WrapUnitOfQuotient(u.y, l.y, t);
  }

  lemma QuotientAfterZ(u: Vec, l: Vec, t: real)
    requires l.x > 0.0 && l.y > 0.0 && l.z > 0.0
    ensures Quotient(u.(z := WrapLength(u.z, l.z, t * l.z)), l) == Quotient(u, l).(z := WrapUnit(u.z / l.z, t))
  {
    WrapUnitOfQuotient(u.z, l.z, t);
  }

  lemma ProductOrder(a: real, b: real, l: real)
    requires l > 0.0
    ensures a >= b <==> a * l >= b * l
  {
    if a >= b {
      assert (a - b) * l >= 0.0;
    } else {
      assert (b - a) * l > 0.0;
    }
  }

  /** A box with the shape of another one. */
  ghost predicate SameShape(a: Box, b: Box) {
    a.L() == b.L() && a.xy == b.xy && a.xz == b.xz && a.yz == b.yz
  }

  function WrapLength(a: real, l: real, t: real): real {
    if a >= l + t then a - l else if a < t then a + l else a
  }

  /** The x step of a wrap in a box of the same shape, seen without tilt: the window starts at `t`. */
  lemma WrapXUntilted(g: Box, b: Box, w: Vec, img: Image, t: real)
    requires SameShape(g, b)
    requires b.lo.x + b.TiltX(w.y - b.TiltOrigin().y, w.z - b.TiltOrigin().z) == g.lo.x + g.TiltX(w.y, w.z) + t
    ensures g.Untilted(b.WrapX(w, img, 0).0)
            == g.Untilted(w).(x := if b.periodic.x then WrapLength(g.Untilted(w).x, g.L().x, t) else g.Untilted(w).x)
  {
  }

  lemma WrapYUntilted(g: Box, b: Box, w: Vec, img: Image, t: real)
    requires SameShape(g, b)
    requires b.lo.y + b.TiltY(w.z - b.TiltOrigin().z) == g.lo.y + g.TiltY(w.z) + t
    ensures g.Untilted(b.WrapY(w, img, 0).0)
            == g.Untilted(w).(y := if b.periodic.y then WrapLength(g.Untilted(w).y, g.L().y, t) else g.Untilted(w).y)
  {
    YMoveKeepsX(g, w, g.L().y);
    YMoveKeepsX(g, w, -g.L().y);
  }

  lemma WrapZUntilted(g: Box, b: Box, w: Vec, img: Image, t: real)
    requires SameShape(g, b) && b.lo.z == g.lo.z + t
    ensures g.Untilted(b.WrapZ(w, img, 0).0)
            == g.Untilted(w).(z := if b.periodic.z then WrapLength(g.Untilted(w).z, g.L().z, t) else g.Untilted(w).z)
  {
    ZMoveKeepsXY(g, w, g.L().z);
    ZMoveKeepsXY(g, w, -g.L().z);
  }

  lemma ShiftedWrapX(global: Box, s: Vec, p: Periodic, w: Vec, img: Image)
    requires global.NonDegenerate() && global.Centred()
    requires (!p.x ==> s.x == 0.0) && (!p.y ==> s.y == 0.0) && (!p.z ==> s.z == 0.0)
    ensures var f := global.MakeFraction(w);
            global.MakeFraction(ShiftedBox(global, s, p).WrapX(w, img, 0).0)
            == f.(x := if p.x then WrapUnit(f.x, s.x + XWindowError(global, s, p)) else f.x)
  {
    XWindow(global, s, p, w);
    FractionAfterX(global, ShiftedBox(global, s, p), w, img, s.x + XWindowError(global, s, p));
  }

  lemma FractionAfterX(g: Box, b: Box, w: Vec, img: Image, t: real)
    requires g.NonDegenerate() && SameShape(g, b)
    requires b.lo.x + b.TiltX(w.y - b.TiltOrigin().y, w.z - b.TiltOrigin().z) == g.lo.x + g.TiltX(w.y, w.z) + t * g.L().x
    ensures g.MakeFraction(b.WrapX(w, img, 0).0)
            == g.MakeFraction(w).(x := if b.periodic.x then WrapUnit(g.MakeFraction(w).x, t) else g.MakeFraction(w).x)
  {
    WrapXUntilted(g, b, w, img, t * g.L().x);
    FractionOfUntiltedX(g, b.WrapX(w, img, 0).0, w, g.Untilted(w), b.periodic.x, t);
  }

  lemma FractionOfUntiltedX(g: Box, v: Vec, w: Vec, u: Vec, wrapped: bool, t: real)
    requires g.NonDegenerate() && u == g.Untilted(w)
    requires g.Untilted(v) == u.(x := if wrapped then WrapLength(u.x, g.L().x, t * g.L().x) else u.x)
    ensures g.MakeFraction(v) == g.MakeFraction(w).(x := if wrapped then WrapUnit(g.MakeFraction(w).x, t) else g.MakeFraction(w).x)
  {
    QuotientAfterX(u, g.L(), t);
  }

  lemma FractionAfterY(g: Box, b: Box, w: Vec, img: Image, t: real)
    requires g.NonDegenerate() && SameShape(g, b)
    requires b.lo.y + b.TiltY(w.z - b.TiltOrigin().z) == g.lo.y + g.TiltY(w.z) + t * g.L().y
    ensures g.MakeFraction(b.WrapY(w, img, 0).0)
            == g.MakeFraction(w).(y := if b.periodic.y then WrapUnit(g.MakeFraction(w).y, t) else g.MakeFraction(w).y)
  {
    WrapYUntilted(g, b, w, img, t * g.L().y);
    FractionOfUntiltedY(g, b.WrapY(w, img, 0).0, w, g.Untilted(w), b.periodic.y, t);
  }

  lemma FractionOfUntiltedY(g: Box, v: Vec, w: Vec, u: Vec, wrapped: bool, t: real)
    requires g.NonDegenerate() && u == g.Untilted(w)
    requires g.Untilted(v) == u.(y := if wrapped then WrapLength(u.y, g.L().y, t * g.L().y) else u.y)
    ensures g.MakeFraction(v) == g.MakeFraction(w).(y := if wrapped then WrapUnit(g.MakeFraction(w).y, t) else g.MakeFraction(w).y)
  {
    QuotientAfterY(u, g.L(), t);
  }

  lemma FractionAfterZ(g: Box, b: Box, w: Vec, img: Image, t: real)
    requires g.NonDegenerate() && SameShape(g, b)
    requires b.lo.z == g.lo.z + t * g.L().z
    ensures g.MakeFraction(b.WrapZ(w, img, 0).0)
            == g.MakeFraction(w).(z := if b.periodic.z then WrapUnit(g.MakeFraction(w).z, t) else g.MakeFraction(w).z)
  {
    WrapZUntilted(g, b, w, img, t * g.L().z);
    FractionOfUntiltedZ(g, b.WrapZ(w, img, 0).0, w, g.Untilted(w), b.periodic.z, t);
  }

  lemma FractionOfUntiltedZ(g: Box, v: Vec, w: Vec, u: Vec, wrapped: bool, t: real)
    requires g.NonDegenerate() && u == g.Untilted(w)
    requires g.Untilted(v) == u.(z := if wrapped then WrapLength(u.z, g.L().z, t * g.L().z) else u.z)
    ensures g.MakeFraction(v) == g.MakeFraction(w).(z := if wrapped then WrapUnit(g.MakeFraction(w).z, t) else g.MakeFraction(w).z)
  {
    QuotientAfterZ(u, g.L(), t);
  }

  lemma XWindow(global: Box, s: Vec, p: Periodic, w: Vec)
    requires global.NonDegenerate() && global.Centred()
    requires (!p.x ==> s.x == 0.0) && (!p.y ==> s.y == 0.0) && (!p.z ==> s.z == 0.0)
    ensures var b := ShiftedBox(global, s, p);
            b.lo.x + b.TiltX(w.y - b.TiltOrigin().y, w.z - b.TiltOrigin().z)
            == global.lo.x + global.TiltX(w.y, w.z) + (s.x + XWindowError(global, s, p)) * global.L().x
  {
    var b := ShiftedBox(global, s, p);
    var l := global.L();
    var (xy, xz, yz) := (b.xy, b.xz, b.yz);
    var (ax, ay, az) := (s.x * l.x, s.y * l.y, s.z * l.z);
    var dx := global.MakeCoordinates(Vec(0.5 + s.x, 0.5 + s.y, 0.5 + s.z));
    assert global.lo.x + (0.5 + s.x) * l.x == ax;
    assert global.lo.y + (0.5 + s.y) * l.y == ay;
    assert global.lo.z + (0.5 + s.z) * l.z == az;
    assert dx == Vec(ax + (xy * ay + xz * az), ay + yz * az, az);
    var o := b.TiltOrigin();
    assert o.z == az;
    assert o.y == if p.y then ay + yz * az else 0.0;
    var e := XWindowError(global, s, p);
    assert e * l.x == if p.y then 0.0 else xy * yz * az by {
      if !p.y {
        var num := xy * yz * s.z * l.z;
        assert num / l.x * l.x == num;
      }
    }
    XWindowAlgebra(xy, xz, yz, ay, az, o.y, w, if p.y then 0.0 else xy * yz * az);
    assert (s.x + e) * l.x == ax + e * l.x;
  }

  lemma XWindowAlgebra(xy: real, xz: real, yz: real, ay: real, az: real, oy: real, w: Vec, e: real)
    requires (oy == ay + yz * az && e == 0.0) || (oy == 0.0 && ay == 0.0 && e == xy * yz * az)
    ensures xy * ay + xz * az + (xz - xy * yz) * (w.z - az) + xy * (w.y - oy)
            == (xz - xy * yz) * w.z + xy * w.y + e
  {
    assert (xz - xy * yz) * (w.z - az) == (xz - xy * yz) * w.z - xz * az + xy * yz * az;
    if oy == ay + yz * az && e == 0.0 {
      assert xy * (w.y - oy) == xy * w.y - xy * ay - xy * yz * az;
    }
  }

  lemma YWindow(global: Box, s: Vec, p: Periodic, w: Vec)
    requires global.Centred() && (!p.z ==> s.z == 0.0)
    ensures var b := ShiftedBox(global, s, p);
            b.lo.y + b.TiltY(w.z - b.TiltOrigin().z) == global.lo.y + global.TiltY(w.z) + s.y * global.L().y
  {
    var b := ShiftedBox(global, s, p);
    var l := global.L();
    var az := s.z * l.z;
    assert global.lo.y + (0.5 + s.y) * l.y == s.y * l.y;
    assert global.lo.z + (0.5 + s.z) * l.z == az;
    assert b.TiltOrigin().z == az;
    assert b.yz * (w.z - az) == b.yz * w.z - b.yz * az;
  }

  lemma ShiftedWrapY(global: Box, s: Vec, p: Periodic, w: Vec, img: Image)
    requires global.NonDegenerate() && global.Centred()
    requires (!p.y ==> s.y == 0.0) && (!p.z ==> s.z == 0.0)
    ensures var f := global.MakeFraction(w);
            global.MakeFraction(ShiftedBox(global, s, p).WrapY(w, img, 0).0)
            == f.(y := if p.y then WrapUnit(f.y, s.y) else f.y)
  {
    YWindow(global, s, p, w);
    FractionAfterY(global, ShiftedBox(global, s, p), w, img, s.y);
  }

  lemma YMoveKeepsX(b: Box, w: Vec, l: real)
    ensures b.TiltX(w.y - l, w.z) == b.TiltX(w.y, w.z) - l * b.xy
    ensures b.Untilted(Vec(w.x - l * b.xy, w.y - l, w.z)) == b.Untilted(w).(y := b.Untilted(w).y - l)
  {
    Distribute(b.xy, w.y, l);
  }

  lemma ShiftedWrapZ(global: Box, s: Vec, p: Periodic, w: Vec, img: Image)
    requires global.NonDegenerate() && global.Centred()
    requires !p.z ==> s.z == 0.0
    ensures var f := global.MakeFraction(w);
            global.MakeFraction(ShiftedBox(global, s, p).WrapZ(w, img, 0).0)
            == f.(z := if p.z then WrapUnit(f.z, s.z) else f.z)
  {
    ZWindow(global, s, p);
    FractionAfterZ(global, ShiftedBox(global, s, p), w, img, s.z);
  }

  lemma ZWindow(global: Box, s: Vec, p: Periodic)
    requires global.Centred()
    ensures ShiftedBox(global, s, p).lo.z == global.lo.z + s.z * global.L().z
  {
    var l := global.L();
    assert global.lo.z + (0.5 + s.z) * l.z == s.z * l.z;
  }

  lemma ZMoveKeepsXY(b: Box, w: Vec, l: real)
    ensures b.Untilted(Vec(w.x - l * b.xz, w.y - l * b.yz, w.z - l)) == b.Untilted(w).(z := b.Untilted(w).z - l)
  {
    assert b.TiltX(w.y - l * b.yz, w.z - l) == b.TiltX(w.y, w.z) - l * b.xz by {
      ZMoveTilt(b.xy, b.xz, b.yz, w.y, w.z, l);
    }
    assert b.TiltY(w.z - l) == b.TiltY(w.z) - l * b.yz by {
      Distribute(b.yz, w.z, l);
    }
  }

  lemma ZMoveTilt(xy: real, xz: real, yz: real, y: real, z: real, l: real)
    ensures (xz - yz * xy) * (z - l) + xy * (y - l * yz) == (xz - yz * xy) * z + xy * y - l * xz
  {
    Distribute(xz - yz * xy, z, l);
    Distribute(xy, y, l * yz);
    Distribute(l, xz, yz * xy);
    assert l * (yz * xy) == xy * (l * yz);
  }

  lemma Distribute(a: real, b: real, c: real)
    ensures a * (b - c) == a * b - a * c
  {
  }

  /** The window of a centred, unshifted, fully periodic box is [0,1) along every axis. */
  lemma CentredIsUnshifted(b: Box)
    requires b.NonDegenerate() && b.Centred()
    ensures ShiftedBox(b, Vec(0.0, 0.0, 0.0), b.periodic) == b
  {
  }

  ghost predicate InUnit(f: Vec) {
    0.0 <= f.x < 1.0 && 0.0 <= f.y < 1.0 && 0.0 <= f.z < 1.0
  }

  /**
  With a centred, fully periodic box and no forced flags, a point ends inside the box exactly
  when it started at most one image away along every axis.
   */
  lemma WrapReturnsToBox(b: Box, w: Vec, img: Image)
    requires b.NonDegenerate() && b.Centred() && b.periodic == Periodic(true, true, true)
    ensures var f := b.MakeFraction(w);
            InUnit(b.MakeFraction(b.Wrap(w, img, NO_FLAGS).0))
            <==> -1.0 <= f.x < 2.0 && -1.0 <= f.y < 2.0 && -1.0 <= f.z < 2.0
  {
    CentredIsUnshifted(b);
    ShiftedWrapPerAxis(b, Vec(0.0, 0.0, 0.0), b.periodic, w, img);
  }
}
