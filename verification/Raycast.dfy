/** The grid walk of the renderer and of the crosshair ray (Amanatides and Woo), over exact reals.
    `First` is the plain form: step to the next cell, look at it, stop or go on. `March` is the code's
    form, with chunk skipping and the two sky exits; `CastEdit` is the crosshair ray. */
module Raycast {
  import opened Options
  import opened Reals
  import opened Voxels

  datatype Vec = Vec(x: real, y: real, z: real)

  datatype Ray = Ray(o: Vec, d: Vec)

  /** A ray parameter; `Never` is the infinity that a zero direction component produces. */
  datatype Time = At(t: real) | Never

  predicate Sooner(a: Time, b: Time) {
    a.At? && (b.Never? || a.t < b.t)
  }

  function Plus(a: Time, b: Time): Time {
    if a.At? && b.At? then At(a.t + b.t) else Never
  }

  function Times(k: real, g: Time): Time {
    if g.At? then At(k * g.t) else Never
  }

  /** Time between two crossings of one axis. */
  function Gap(d: real): Time {
    if d == 0.0 then Never else At(Abs(1.0 / d))
  }

  function Sign(d: real): int {
    if d < 0.0 then -1 else 1
  }

  /** Time of the first crossing of one axis. */
  function Crossing(o: real, d: real): Time {
    if d < 0.0 then Times(o - o.Floor as real, Gap(d)) else Times(o.Floor as real + 1.0 - o, Gap(d))
  }

  /** What a walk needs of the direction: the sign and the spacing of the crossings on each axis. */
  datatype Stride = Stride(step: Cell, ddx: Time, ddy: Time, ddz: Time)

  function StrideOf(d: Vec): Stride {
    Stride(Cell(Sign(d.x), Sign(d.y), Sign(d.z)), Gap(d.x), Gap(d.y), Gap(d.z))
  }

  /** State of a walk: current cell, next crossing of each axis, and how the cell was entered. */
  datatype Walk = Walk(m: Cell, tx: Time, ty: Time, tz: Time, side: int, hit: Time)

  /** The cell the ray starts in. */
  function Origin(r: Ray): Cell {
    Cell(r.o.x.Floor, r.o.y.Floor, r.o.z.Floor)
  }

  function Start(r: Ray): Walk {
    Walk(Origin(r), Crossing(r.o.x, r.d.x), Crossing(r.o.y, r.d.y), Crossing(r.o.z, r.d.z), 0, At(0.5))
  }

  function Step(k: Stride, w: Walk): Walk {
    if Sooner(w.tx, w.ty) && Sooner(w.tx, w.tz) then
      w.(hit := w.tx, tx := Plus(w.tx, k.ddx), m := w.m.(x := w.m.x + k.step.x), side := 0)
    else if Sooner(w.ty, w.tz) then
      w.(hit := w.ty, ty := Plus(w.ty, k.ddy), m := w.m.(y := w.m.y + k.step.y), side := 1)
    else
      w.(hit := w.tz, tz := Plus(w.tz, k.ddz), m := w.m.(z := w.m.z + k.step.z), side := 2)
  }

  /** What a cell does to the ray. */
  datatype Verdict = Pass | Block | Leave

  datatype Found = Found(prev: Cell, at: Walk)

  /** The plain walk: at most n steps, none beyond `reach`, asking `see` about every cell entered. */
  function First(k: Stride, w: Walk, n: nat, reach: real, see: Cell -> Verdict): Option<Found>
    decreases n, w
  {
    if n == 0 then None
    else
      var w' := Step(k, w);
      if w'.hit.Never? || w'.hit.t > reach then None
      else match see(w'.m)
           case Leave => None
           case Block => Some(Found(w.m, w'))
           case Pass => First(k, w', n - 1, reach, see)
  }

  const MAXT := 30.0
  const STEPS: nat := 96

  /** Past one of the world's four sides, or below it, or above it if it is taken to have a roof. */
  predicate Away(d: Dims, roof: bool, c: Cell) {
    c.x < 0 || c.x >= d.sx || c.z < 0 || c.z >= d.sz || c.y < 0 || (roof && c.y >= d.sy)
  }

  /** The world as the renderer sees it: open above, closed on the other five sides. */
  function SeeWorld(d: Dims, blocks: Cell -> Byte): Cell -> Verdict {
    (c: Cell) => if Away(d, false, c) then Leave
         else if c.y >= d.sy || blocks(c) == AIR then Pass
         else Block
  }

  /** The block a pixel shows, read cell by cell. */
  function Pixel(r: Ray, d: Dims, blocks: Cell -> Byte): Option<Found> {
    First(StrideOf(r.d), Start(r), STEPS, MAXT, SeeWorld(d, blocks))
  }

  const REACH := 6.0
  const EDIT_STEPS: nat := 16
  const WATER: Byte := 4

  predicate Solid(b: Byte) {
    b != AIR && b != WATER
  }

  /** The world as the crosshair sees it: water does not stop it, and it ends at every side. */
  function SeeEdit(d: Dims, blocks: Cell -> Byte): Cell -> Verdict {
    (c: Cell) => if !d.Contains(c) then Leave else if Solid(blocks(c)) then Block else Pass
  }

  function Edit(r: Ray, d: Dims, blocks: Cell -> Byte): Option<Found> {
    First(StrideOf(r.d), Start(r), EDIT_STEPS, REACH, SeeEdit(d, blocks))
  }

  // ---------- geometry ----------

  function Along(o: real, d: real, t: real): real {
    o + d * t
  }

  /** One axis at time `now`: inside the current slab, with the right next crossing. */
  ghost predicate AxisAt(o: real, d: real, m: int, tm: Time, now: real) {
    && m as real <= Along(o, d, now) <= m as real + 1.0
    && (d > 0.0 ==> tm.At? && now <= tm.t && Along(o, d, tm.t) == m as real + 1.0)
    && (d < 0.0 ==> tm.At? && now <= tm.t && Along(o, d, tm.t) == m as real)
    && (d == 0.0 ==> tm.Never?)
  }

  lemma ScaleMono(d: real, a: real, b: real)
    requires a <= b
    ensures d >= 0.0 ==> d * a <= d * b
    ensures d <= 0.0 ==> d * a >= d * b
  {
    var gap := b - a;
    assert d >= 0.0 ==> d * gap >= 0.0;
    assert d <= 0.0 ==> d * gap <= 0.0;
    assert d * b == d * a + d * gap;
  }

  lemma AlongMono(o: real, d: real, a: real, b: real, p: real, q: real)
    requires a <= b && p == Along(o, d, a) && q == Along(o, d, b)
    ensures d >= 0.0 ==> p <= q
    ensures d <= 0.0 ==> p >= q
  {
    ScaleMono(d, a, b);
  }

  lemma AxisStart(o: real, d: real)
    ensures AxisAt(o, d, o.Floor, Crossing(o, d), 0.0)
  {
    if d > 0.0 {
      assert 1.0 / d > 0.0;
      var k := o.Floor as real + 1.0 - o;
      assert d * (k * (1.0 / d)) == k * (d * (1.0 / d)) == k;
    } else if d < 0.0 {
      assert 1.0 / d < 0.0;
      var k := o - o.Floor as real;
      assert d * (k * -(1.0 / d)) == -k * (d * (1.0 / d)) == -k;
    }
  }

  /** Until its next crossing an axis stays in its slab. */
  lemma AxisStay(o: real, d: real, m: int, tm: Time, now: real, t: real)
    requires AxisAt(o, d, m, tm, now) && now <= t && (tm.At? ==> t <= tm.t)
    ensures AxisAt(o, d, m, tm, t)
  {
    AlongMono(o, d, now, t, Along(o, d, now), Along(o, d, t));
    if tm.At? {
      AlongMono(o, d, t, tm.t, Along(o, d, t), Along(o, d, tm.t));
    }
  }

  /** Crossing moves to the neighbouring slab, and the following crossing is its far side. */
  lemma AxisCross(o: real, d: real, m: int, tm: Time, now: real)
    requires AxisAt(o, d, m, tm, now) && tm.At?
    ensures AxisAt(o, d, m + Sign(d), Plus(tm, Gap(d)), tm.t)
    ensures Along(o, d, tm.t) == if d < 0.0 then m as real else m as real + 1.0
  {
    var g := Abs(1.0 / d);
    assert d * (1.0 / d) == 1.0;
    assert g > 0.0;
    assert d * (tm.t + g) == d * tm.t + d * g;
  }

  /** The three axes together. */
  ghost predicate Inv(r: Ray, w: Walk, now: real) {
    && AxisAt(r.o.x, r.d.x, w.m.x, w.tx, now)
    && AxisAt(r.o.y, r.d.y, w.m.y, w.ty, now)
    && AxisAt(r.o.z, r.d.z, w.m.z, w.tz, now)
  }

  /** The ray point at time t lies in the closed cube of cell c. */
  ghost predicate InCube(r: Ray, c: Cell, t: real) {
    && c.x as real <= Along(r.o.x, r.d.x, t) <= c.x as real + 1.0
    && c.y as real <= Along(r.o.y, r.d.y, t) <= c.y as real + 1.0
    && c.z as real <= Along(r.o.z, r.d.z, t) <= c.z as real + 1.0
  }

  /** The ray point at time t lies strictly inside cell c. */
  ghost predicate Inside(r: Ray, c: Cell, t: real) {
    && (c.x as real) < Along(r.o.x, r.d.x, t) < c.x as real + 1.0
    && (c.y as real) < Along(r.o.y, r.d.y, t) < c.y as real + 1.0
    && (c.z as real) < Along(r.o.z, r.d.z, t) < c.z as real + 1.0
  }

  lemma InsideIsUnique(r: Ray, c: Cell, m: Cell, t: real)
    requires InCube(r, m, t) && Inside(r, c, t)
    ensures c == m
  {
  }

  /** The cell was entered through the face of axis `side` that looks back along the ray. */
  ghost predicate OnFace(r: Ray, w: Walk) {
    w.hit.At? &&
    match w.side
    case 0 => Along(r.o.x, r.d.x, w.hit.t) == if r.d.x < 0.0 then w.m.x as real + 1.0 else w.m.x as real
    case 1 => Along(r.o.y, r.d.y, w.hit.t) == if r.d.y < 0.0 then w.m.y as real + 1.0 else w.m.y as real
    case 2 => Along(r.o.z, r.d.z, w.hit.t) == if r.d.z < 0.0 then w.m.z as real + 1.0 else w.m.z as real
    case _ => false
  }

  /** Cell c' is the neighbour of c across the face that a walk along r leaves by on axis `side`. */
  ghost predicate Neighbour(r: Ray, c: Cell, c': Cell, side: int) {
    match side
    case 0 => c' == c.(x := c.x + Sign(r.d.x))
    case 1 => c' == c.(y := c.y + Sign(r.d.y))
    case 2 => c' == c.(z := c.z + Sign(r.d.z))
    case _ => false
  }

  lemma StartGeometry(r: Ray)
    ensures Inv(r, Start(r), 0.0)
  {
    AxisStart(r.o.x, r.d.x);
    AxisStart(r.o.y, r.d.y);
    AxisStart(r.o.z, r.d.z);
  }

  /** Until the next step the ray stays in the current cube. */
  lemma StayGeometry(r: Ray, w: Walk, now: real, t: real)
    requires Inv(r, w, now) && now <= t
    requires Step(StrideOf(r.d), w).hit.At? ==> t <= Step(StrideOf(r.d), w).hit.t
    ensures Inv(r, w, t) && InCube(r, w.m, t)
  {
    AxisStay(r.o.x, r.d.x, w.m.x, w.tx, now, t);
    AxisStay(r.o.y, r.d.y, w.m.y, w.ty, now, t);
    AxisStay(r.o.z, r.d.z, w.m.z, w.tz, now, t);
  }

  /** One step: it crosses the earliest of the three planes, time does not go back, and the walk is
      left in a neighbouring cube, on the shared face. */
  lemma StepGeometry(r: Ray, w: Walk, now: real)
    requires Inv(r, w, now)
    ensures var w' := Step(StrideOf(r.d), w);
            && !Sooner(w.tx, w'.hit) && !Sooner(w.ty, w'.hit) && !Sooner(w.tz, w'.hit)
            && w'.hit in {w.tx, w.ty, w.tz}
            && Neighbour(r, w.m, w'.m, w'.side)
            && (w'.hit.At? ==> now <= w'.hit.t && Inv(r, w', w'.hit.t) && InCube(r, w.m, w'.hit.t)
                               && InCube(r, w'.m, w'.hit.t) && OnFace(r, w'))
  {
    var w' := Step(StrideOf(r.d), w);
    if w'.hit.At? {
      StayGeometry(r, w, now, w'.hit.t);
      match w'.side
      case 0 => AxisCross(r.o.x, r.d.x, w.m.x, w.tx, w'.hit.t);
      case 1 => AxisCross(r.o.y, r.d.y, w.m.y, w.ty, w'.hit.t);
      case _ => AxisCross(r.o.z, r.d.z, w.m.z, w.tz, w'.hit.t);
    }
  }

  /** Up to the first crossing only the current cell is pierced. */
  lemma CurrentCellCovers(r: Ray, w: Walk, now: real)
    requires Inv(r, w, now) && Step(StrideOf(r.d), w).hit.At?
    ensures forall t, c :: now <= t <= Step(StrideOf(r.d), w).hit.t && Inside(r, c, t) ==> c == w.m
  {
    forall t, c | now <= t <= Step(StrideOf(r.d), w).hit.t && Inside(r, c, t)
      ensures c == w.m
    {
      StayGeometry(r, w, now, t);
      InsideIsUnique(r, c, w.m, t);
    }
  }

  /** First hit is right: the reported cell blocks, was entered on its reported face at a point of its
      closed cube within reach, and every other cell the ray has been strictly inside of before then
      let it pass, except the one it started in. */
  lemma {:induction false} HitIsFirst(r: Ray, w: Walk, now: real, n: nat, reach: real, see: Cell -> Verdict)
    requires Inv(r, w, now)
    requires First(StrideOf(r.d), w, n, reach, see).Some?
    ensures var f := First(StrideOf(r.d), w, n, reach, see).value;
            && see(f.at.m) == Block
            && f.at.hit.At? && now <= f.at.hit.t <= reach
            && OnFace(r, f.at) && InCube(r, f.at.m, f.at.hit.t)
            && Neighbour(r, f.prev, f.at.m, f.at.side)
            && (f.prev == w.m || see(f.prev) == Pass)
            && forall t, c :: now <= t < f.at.hit.t && Inside(r, c, t) ==> c == w.m || see(c) == Pass
    decreases n
  {
    var w' := Step(StrideOf(r.d), w);
    StepGeometry(r, w, now);
    var f := First(StrideOf(r.d), w, n, reach, see).value;
    if see(w'.m) == Pass {
      HitIsFirst(r, w', w'.hit.t, n - 1, reach, see);
    }
    CurrentCellCovers(r, w, now);
  }

  /** Distance k measured in the direction of travel. */
  function Toward(d: real, k: int): int {
    if d < 0.0 then -k else k
  }

  /** Number of cells crossed since the walk stood at m0. */
  function Crossed(r: Ray, m0: Cell, m: Cell): int {
    Toward(r.d.x, m.x - m0.x) + Toward(r.d.y, m.y - m0.y) + Toward(r.d.z, m.z - m0.z)
  }

  function Speed(r: Ray): real {
    Abs(r.d.x) + Abs(r.d.y) + Abs(r.d.z)
  }

  lemma AxisCrossed(o: real, d: real, m: int, now: real)
    requires m as real <= Along(o, d, now) <= m as real + 1.0
    ensures Toward(d, m - o.Floor) as real <= Abs(d) * now + 1.0
  {
    if d < 0.0 {
      assert Abs(d) * now == -(d * now);
    }
  }

  /** A walk that has crossed k cells by time `now` has needed the speed for it. */
  lemma CrossedNeedsTime(r: Ray, m: Cell, now: real)
    requires InCube(r, m, now)
    ensures Crossed(r, Origin(r), m) as real <= Speed(r) * now + 3.0
  {
    var a, b, c := Abs(r.d.x), Abs(r.d.y), Abs(r.d.z);
    var i, j, k := Toward(r.d.x, m.x - r.o.x.Floor), Toward(r.d.y, m.y - r.o.y.Floor), Toward(r.d.z, m.z - r.o.z.Floor);
    assert i as real <= a * now + 1.0 by { AxisCrossed(r.o.x, r.d.x, m.x, now); }
    assert j as real <= b * now + 1.0 by { AxisCrossed(r.o.y, r.d.y, m.y, now); }
    assert k as real <= c * now + 1.0 by { AxisCrossed(r.o.z, r.d.z, m.z, now); }
    SumScaled(a, b, c, now, i, j, k);
  }

  lemma SumScaled(a: real, b: real, c: real, t: real, i: int, j: int, k: int)
    requires i as real <= a * t + 1.0 && j as real <= b * t + 1.0 && k as real <= c * t + 1.0
    ensures (i + j + k) as real <= (a + b + c) * t + 3.0
  {
    assert (a + b + c) * t == a * t + b * t + c * t;
  }

  /** After leaving a slab along the ray, the slabs behind are never seen again. */
  lemma AxisAhead(o: real, d: real, m: int, hit: real, t: real, c: int)
    requires m as real <= Along(o, d, hit) <= m as real + 1.0 && hit <= t
    requires (c as real) < Along(o, d, t) < c as real + 1.0
    ensures if d < 0.0 then c <= m else m <= c
  {
    AlongMono(o, d, hit, t, Along(o, d, hit), Along(o, d, t));
    assert d < 0.0 ==> (c as real) < (m + 1) as real;
    assert d >= 0.0 ==> (m as real) < (c + 1) as real;
  }

  /** A walk that looks at cells in this way ends exactly where it is away from the world. */
  ghost predicate Ends(d: Dims, roof: bool, see: Cell -> Verdict) {
    forall c :: see(c) == Leave <==> Away(d, roof, c)
  }

  /** Once away, the ray never comes back. */
  lemma LeftForGood(r: Ray, d: Dims, roof: bool, w: Walk, now: real, t: real, c: Cell)
    requires Inv(r, w, now) && !Away(d, roof, w.m)
    requires var w' := Step(StrideOf(r.d), w); w'.hit.At? && Away(d, roof, w'.m) && w'.hit.t <= t
    requires Inside(r, c, t)
    ensures !d.Contains(c)
  {
    var w' := Step(StrideOf(r.d), w);
    StepGeometry(r, w, now);
    AxisAhead(r.o.x, r.d.x, w'.m.x, w'.hit.t, t, c.x);
    AxisAhead(r.o.y, r.d.y, w'.m.y, w'.hit.t, t, c.y);
    AxisAhead(r.o.z, r.d.z, w'.m.z, w'.hit.t, t, c.z);
  }

  /** For rays of this speed n steps are enough for the whole reach. */
  predicate Suffices(speed: real, n: nat, reach: real) {
    speed * reach + 3.0 < n as real
  }

  /** The step budget is not what ends a walk within reach. */
  lemma BudgetCoversRange(r: Ray, m: Cell, now: real, n: nat, reach: real)
    requires InCube(r, m, now) && Suffices(Speed(r), n, reach) && now <= reach
    ensures Crossed(r, Origin(r), m) < n
  {
    CrossedNeedsTime(r, m, now);
    SlowIsShort(Speed(r), now, reach, Crossed(r, Origin(r), m), n);
  }

  lemma SlowIsShort(speed: real, now: real, reach: real, crossed: int, n: nat)
    requires 0.0 <= speed && Suffices(speed, n, reach) && now <= reach && crossed as real <= speed * now + 3.0
    ensures crossed < n
  {
    AlongMono(3.0, speed, now, reach, speed * now + 3.0, speed * reach + 3.0);
  }

  lemma CrossedNext(r: Ray, m0: Cell, m: Cell, m': Cell, side: int)
    requires Neighbour(r, m, m', side)
    ensures Crossed(r, m0, m') == Crossed(r, m0, m) + 1
  {
  }

  /** The last cell of a walk that ran out of range covers the rest of the range. */
  lemma LastCellCovers(r: Ray, w: Walk, now: real, reach: real)
    requires Inv(r, w, now) && Sooner(At(reach), Step(StrideOf(r.d), w).hit)
    ensures forall t, c :: now <= t <= reach && Inside(r, c, t) ==> c == w.m
  {
    forall t, c | now <= t <= reach && Inside(r, c, t)
      ensures c == w.m
    {
      StayGeometry(r, w, now, t);
      InsideIsUnique(r, c, w.m, t);
    }
  }

  /** When a walk from a cell that is not away finds nothing, every cell of the world that the ray pierces within
      reach lets it pass, apart from the one it started in. n is what is left of the step budget. */
  lemma {:induction false} MissIsClear(r: Ray, d: Dims, roof: bool, see: Cell -> Verdict, w: Walk, now: real, n: nat,
                                       steps: nat, reach: real)
    requires Inv(r, w, now) && 0.0 <= now && Suffices(Speed(r), steps, reach) && Ends(d, roof, see)
    requires !Away(d, roof, w.m) && Crossed(r, Origin(r), w.m) + n == steps
    requires First(StrideOf(r.d), w, n, reach, see).None?
    ensures forall t, c :: now <= t <= reach && Inside(r, c, t) && d.Contains(c) ==> c == w.m || see(c) == Pass
    decreases n
  {
    var w' := Step(StrideOf(r.d), w);
    StepGeometry(r, w, now);
    if n == 0 {
      if now <= reach {
        BudgetCoversRange(r, w.m, now, steps, reach);
      }
    } else if w'.hit.Never? || w'.hit.t > reach {
      LastCellCovers(r, w, now, reach);
    } else {
      CurrentCellCovers(r, w, now);
      CrossedNext(r, Origin(r), w.m, w'.m, w'.side);
      if see(w'.m) == Pass {
        MissIsClear(r, d, roof, see, w', w'.hit.t, n - 1, steps, reach);
      } else {
        forall t, c | w'.hit.t < t && Inside(r, c, t)
          ensures !d.Contains(c)
        {
          LeftForGood(r, d, roof, w, now, t, c);
        }
      }
    }
  }

  // ---------- does a ray pierce the world at all? ----------

  function Max(a: real, b: real): real {
    if a < b then b else a
  }

  function Min(a: real, b: real): real {
    if a < b then a else b
  }

  /** The time at which an axis reaches coordinate k. */
  function TimeAt(o: real, d: real, k: real): real
    requires d != 0.0
  {
    (k - o) / d
  }

  /** From when to when one axis is strictly between 0 and the size of the world, cut to [0, reach]. An axis that
      does not move is so always, or never: also when it moves in a plane between cells. */
  function Enters(o: real, d: real, size: int, reach: real): real {
    if d > 0.0 then Max(0.0, TimeAt(o, d, 0.0))
    else if d < 0.0 then Max(0.0, TimeAt(o, d, size as real))
    else if 0.0 < o < size as real && o != o.Floor as real then 0.0 else reach
  }

  function Exits(o: real, d: real, size: int, reach: real): real {
    if d > 0.0 then Min(reach, TimeAt(o, d, size as real))
    else if d < 0.0 then Min(reach, TimeAt(o, d, 0.0))
    else reach
  }

  /** The slab test: the ray is in the world on all three axes at one time. */
  predicate Pierces(r: Ray, d: Dims, reach: real) {
    Max(Enters(r.o.x, r.d.x, d.sx, reach), Max(Enters(r.o.y, r.d.y, d.sy, reach), Enters(r.o.z, r.d.z, d.sz, reach)))
    < Min(Exits(r.o.x, r.d.x, d.sx, reach), Min(Exits(r.o.y, r.d.y, d.sy, reach), Exits(r.o.z, r.d.z, d.sz, reach)))
  }

  lemma TimeAtIs(o: real, d: real, k: real)
    requires d != 0.0
    ensures Along(o, d, TimeAt(o, d, k)) == k
  {
    var q := (k - o) / d;
    assert d * q == k - o;
  }

  lemma AlongStrict(o: real, d: real, a: real, b: real, p: real, q: real)
    requires a < b && p == Along(o, d, a) && q == Along(o, d, b)
    ensures d > 0.0 ==> p < q
    ensures d < 0.0 ==> p > q
  {
    var gap := b - a;
    assert d > 0.0 ==> d * gap > 0.0;
    assert d < 0.0 ==> d * gap < 0.0;
    assert d * b == d * a + d * gap;
  }

  /** Before, at and after the time at which an axis reaches k. */
  lemma Reaches(o: real, d: real, k: real, t: real)
    requires d != 0.0
    ensures d > 0.0 ==> (t < TimeAt(o, d, k) <==> Along(o, d, t) < k) && (t > TimeAt(o, d, k) <==> Along(o, d, t) > k)
    ensures d < 0.0 ==> (t < TimeAt(o, d, k) <==> Along(o, d, t) > k) && (t > TimeAt(o, d, k) <==> Along(o, d, t) < k)
  {
    var u := TimeAt(o, d, k);
    TimeAtIs(o, d, k);
    if t < u {
      AlongStrict(o, d, t, u, Along(o, d, t), k);
    } else if t > u {
      AlongStrict(o, d, u, t, k, Along(o, d, t));
    }
  }

  /** An axis strictly inside the world is between its times. */
  lemma AxisPierced(o: real, d: real, size: int, reach: real, t: real)
    requires 0.0 <= t <= reach && 0.0 < Along(o, d, t) < size as real && (d == 0.0 ==> o != o.Floor as real)
    ensures Enters(o, d, size, reach) == 0.0 || Enters(o, d, size, reach) < t
    ensures Exits(o, d, size, reach) == reach || Exits(o, d, size, reach) > t
  {
    if d != 0.0 {
      PiercedTimes(o, d, size as real, t);
    } else {
      assert Along(o, d, t) == o;
    }
  }

  lemma SlabInside(o: real, d: real, size: int, m: int, t: real)
    requires 0 <= m < size && (m as real) < Along(o, d, t) < m as real + 1.0
    ensures 0.0 < Along(o, d, t) < size as real && (d == 0.0 ==> o != o.Floor as real)
  {
    var p := Along(o, d, t);
    BetweenSides(p, size, m);
    BetweenPlanes(p, m);
    if d == 0.0 {
      assert p == o;
    }
  }

  lemma BetweenSides(p: real, size: int, m: int)
    requires 0 <= m < size && (m as real) < p < m as real + 1.0
    ensures 0.0 < p < size as real
  {
  }

  lemma BetweenPlanes(p: real, m: int)
    requires (m as real) < p < m as real + 1.0
    ensures p != p.Floor as real
  {
    assert p.Floor == m;
  }

  lemma PiercedTimes(o: real, d: real, size: real, t: real)
    requires d != 0.0 && 0.0 < Along(o, d, t) < size
    ensures if d > 0.0 then TimeAt(o, d, 0.0) < t < TimeAt(o, d, size) else TimeAt(o, d, size) < t < TimeAt(o, d, 0.0)
  {
    Reaches(o, d, 0.0, t);
    Reaches(o, d, size, t);
  }

  /** Right after some time between them the axis stays strictly inside one slab. */
  lemma AxisRuns(o: real, d: real, size: int, reach: real, from: real, to: real) returns (m: int, end: real)
    requires 0.0 <= from < to <= reach && Enters(o, d, size, reach) <= from && to <= Exits(o, d, size, reach)
    ensures from < end <= to && 0 <= m < size
    ensures forall t :: from < t < end ==> (m as real) < Along(o, d, t) < m as real + 1.0
  {
    var p := Along(o, d, from);
    if d == 0.0 {
      m, end := o.Floor, to;
      assert p == o;
      assert forall t :: Along(o, d, t) == o;
    } else {
      Reaches(o, d, 0.0, from);
      Reaches(o, d, size as real, from);
      m := if d > 0.0 then p.Floor else -(-p).Floor - 1;
      var next := if d > 0.0 then m as real + 1.0 else m as real;
      Reaches(o, d, next, from);
      end := Min(to, TimeAt(o, d, next));
      forall t | from < t < end
        ensures (m as real) < Along(o, d, t) < m as real + 1.0
      {
        Reaches(o, d, next, t);
        AlongStrict(o, d, from, t, p, Along(o, d, t));
      }
    }
  }

  /** The slab test is exact: it says whether some cell of the world is pierced within reach. */
  lemma PiercesExact(r: Ray, d: Dims, reach: real)
    requires reach > 0.0
    ensures (exists t, c :: 0.0 <= t <= reach && Inside(r, c, t) && d.Contains(c)) <==> Pierces(r, d, reach)
  {
    forall t, c | 0.0 <= t <= reach && Inside(r, c, t) && d.Contains(c)
      ensures Pierces(r, d, reach)
    {
      SlabInside(r.o.x, r.d.x, d.sx, c.x, t);
      SlabInside(r.o.y, r.d.y, d.sy, c.y, t);
      SlabInside(r.o.z, r.d.z, d.sz, c.z, t);
      AxisPierced(r.o.x, r.d.x, d.sx, reach, t);
      AxisPierced(r.o.y, r.d.y, d.sy, reach, t);
      AxisPierced(r.o.z, r.d.z, d.sz, reach, t);
    }
    if Pierces(r, d, reach) {
      var t, c := PiercedCell(r, d, reach);
    }
  }

  lemma PiercedCell(r: Ray, d: Dims, reach: real) returns (t: real, c: Cell)
    requires reach > 0.0 && Pierces(r, d, reach)
    ensures 0.0 <= t <= reach && Inside(r, c, t) && d.Contains(c)
  {
    var from := Max(Enters(r.o.x, r.d.x, d.sx, reach),
                    Max(Enters(r.o.y, r.d.y, d.sy, reach), Enters(r.o.z, r.d.z, d.sz, reach)));
    var to := Min(Exits(r.o.x, r.d.x, d.sx, reach),
                  Min(Exits(r.o.y, r.d.y, d.sy, reach), Exits(r.o.z, r.d.z, d.sz, reach)));
    var x, toX := AxisRuns(r.o.x, r.d.x, d.sx, reach, from, to);
    var y, toY := AxisRuns(r.o.y, r.d.y, d.sy, reach, from, toX);
    var z, toZ := AxisRuns(r.o.z, r.d.z, d.sz, reach, from, toY);
    t, c := (from + toZ) / 2.0, Cell(x, y, z);
  }

  // ---------- when nothing is found ----------

  /** Every cell of the world that the ray pierces within reach, except the first, lets it pass. */
  ghost predicate Clear(r: Ray, d: Dims, see: Cell -> Verdict, reach: real) {
    forall t, c :: 0.0 <= t <= reach && Inside(r, c, t) && d.Contains(c) ==> c == Origin(r) || see(c) == Pass
  }

  /** The ray starts away from the world, its first step is within reach and still away, and yet it pierces a cell
      of the world within reach: the walk ends at once and that cell is never looked at. */
  predicate Unseen(r: Ray, d: Dims, roof: bool, reach: real) {
    var w' := Step(StrideOf(r.d), Start(r));
    Away(d, roof, Origin(r)) && w'.hit.At? && w'.hit.t <= reach && Away(d, roof, w'.m) && Pierces(r, d, reach)
  }

  /** A first step into the world is followed from there. */
  lemma EntersClear(r: Ray, d: Dims, roof: bool, see: Cell -> Verdict, steps: nat, reach: real)
    requires Suffices(Speed(r), steps, reach) && Ends(d, roof, see) && steps > 0
    requires First(StrideOf(r.d), Start(r), steps, reach, see).None?
    requires var w' := Step(StrideOf(r.d), Start(r)); w'.hit.At? && w'.hit.t <= reach && !Away(d, roof, w'.m)
    ensures Clear(r, d, see, reach)
  {
    var w, w' := Start(r), Step(StrideOf(r.d), Start(r));
    StartGeometry(r);
    StepGeometry(r, w, 0.0);
    CurrentCellCovers(r, w, 0.0);
    CrossedNext(r, Origin(r), w.m, w'.m, w'.side);
    assert see(w'.m) == Pass;
    MissIsClear(r, d, roof, see, w', w'.hit.t, steps - 1, steps, reach);
  }

  /** A miss is right for every ray that is not unseen. */
  lemma MissIsRight(r: Ray, d: Dims, roof: bool, see: Cell -> Verdict, steps: nat, reach: real)
    requires Suffices(Speed(r), steps, reach) && Ends(d, roof, see) && steps > 0 && reach > 0.0
    requires First(StrideOf(r.d), Start(r), steps, reach, see).None? && !Unseen(r, d, roof, reach)
    ensures Clear(r, d, see, reach)
  {
    var w' := Step(StrideOf(r.d), Start(r));
    StartGeometry(r);
    if !Away(d, roof, Origin(r)) {
      MissIsClear(r, d, roof, see, Start(r), 0.0, steps, steps, reach);
    } else if w'.hit.Never? || w'.hit.t > reach {
      LastCellCovers(r, Start(r), 0.0, reach);
    } else if !Away(d, roof, w'.m) {
      EntersClear(r, d, roof, see, steps, reach);
    } else {
      PiercesExact(r, d, reach);
    }
  }

  /** A ray that is unseen finds nothing, and yet pierces a cell other than its first one. */
  lemma UnseenMisses(r: Ray, d: Dims, roof: bool, see: Cell -> Verdict, steps: nat, reach: real) returns (t: real, c: Cell)
    requires Unseen(r, d, roof, reach) && Ends(d, roof, see) && steps > 0 && reach > 0.0
    ensures First(StrideOf(r.d), Start(r), steps, reach, see).None?
    ensures 0.0 <= t <= reach && Inside(r, c, t) && d.Contains(c) && c != Origin(r)
  {
    PiercesExact(r, d, reach);
    t, c :| 0.0 <= t <= reach && Inside(r, c, t) && d.Contains(c);
  }

  /** No block of the world, except in the first cell, is pierced within range. */
  ghost predicate ClearView(r: Ray, d: Dims, blocks: Cell -> Byte) {
    forall t, c :: 0.0 <= t <= MAXT && Inside(r, c, t) && d.Contains(c) ==> c == Origin(r) || blocks(c) == AIR
  }

  /** Sky is right for every ray that is not unseen. */
  lemma SkyIsClear(r: Ray, d: Dims, blocks: Cell -> Byte)
    requires Speed(r) < 3.1 && Pixel(r, d, blocks).None? && !Unseen(r, d, false, MAXT)
    ensures ClearView(r, d, blocks)
  {
    MissIsRight(r, d, false, SeeWorld(d, blocks), STEPS, MAXT);
  }

  /** Exactly when sky can be trusted: whatever the world holds, a pixel without a block means a clear view, if
      and only if the ray is not unseen. */
  lemma SkyIsRight(r: Ray, d: Dims)
    requires Speed(r) < 3.1
    ensures (forall blocks: Cell -> Byte :: Pixel(r, d, blocks).None? ==> ClearView(r, d, blocks))
            <==> !Unseen(r, d, false, MAXT)
  {
    if Unseen(r, d, false, MAXT) {
      var rock := (c: Cell) => 3;
      var t, c := UnseenMisses(r, d, false, SeeWorld(d, rock), STEPS, MAXT);
      assert Pixel(r, d, rock).None?;
      assert !ClearView(r, d, rock);
    } else {
      forall blocks: Cell -> Byte | Pixel(r, d, blocks).None?
        ensures ClearView(r, d, blocks)
      {
        SkyIsClear(r, d, blocks);
      }
    }
  }

  /** No solid block of the world, except in the first cell, is pierced within the player's reach. */
  ghost predicate ClearReach(r: Ray, d: Dims, blocks: Cell -> Byte) {
    forall t, c :: 0.0 <= t <= REACH && Inside(r, c, t) && d.Contains(c) ==> c == Origin(r) || !Solid(blocks(c))
  }

  /** The crosshair selects nothing only when nothing solid is in reach, for every ray that is not unseen. */
  lemma NothingInReach(r: Ray, d: Dims, blocks: Cell -> Byte)
    requires Speed(r) < 2.0 && Edit(r, d, blocks).None? && !Unseen(r, d, true, REACH)
    ensures ClearReach(r, d, blocks)
  {
    EditEnds(d, blocks);
    MissIsRight(r, d, true, SeeEdit(d, blocks), EDIT_STEPS, REACH);
    EditClear(r, d, blocks);
  }

  lemma EditEnds(d: Dims, blocks: Cell -> Byte)
    ensures Ends(d, true, SeeEdit(d, blocks))
  {
    var see := SeeEdit(d, blocks);
    forall c
      ensures see(c) == Leave <==> Away(d, true, c)
    {
      assert d.Contains(c) <==> !Away(d, true, c);
    }
  }

  lemma EditClear(r: Ray, d: Dims, blocks: Cell -> Byte)
    requires Clear(r, d, SeeEdit(d, blocks), REACH)
    ensures ClearReach(r, d, blocks)
  {
  }

  /** Exactly when it can be trusted to: the world of the crosshair has a roof, so the rays from above it that take
      a step before they enter it are unseen. */
  lemma NothingIsRight(r: Ray, d: Dims)
    requires Speed(r) < 2.0
    ensures (forall blocks: Cell -> Byte :: Edit(r, d, blocks).None? ==> ClearReach(r, d, blocks))
            <==> !Unseen(r, d, true, REACH)
  {
    if Unseen(r, d, true, REACH) {
      var rock := (c: Cell) => 3;
      EditEnds(d, rock);
      var t, c := UnseenMisses(r, d, true, SeeEdit(d, rock), EDIT_STEPS, REACH);
      assert Edit(r, d, rock).None?;
      assert !ClearReach(r, d, rock);
    } else {
      forall blocks: Cell -> Byte | Edit(r, d, blocks).None?
        ensures ClearReach(r, d, blocks)
      {
        NothingInReach(r, d, blocks);
      }
    }
  }

  /** Such a ray: an eye above the world, looking down at its top layer. */
  lemma AboveUnseen(r: Ray, d: Dims)
    requires r == Ray(Vec(0.5, 5.5, 0.5), Vec(0.0, -1.0, 0.0)) && d == Dims(4, 4, 4)
    ensures Unseen(r, d, true, REACH) && Inside(r, Cell(0, 3, 0), 2.0)
  {
    var w := Start(r);
    assert w.tx == Never && w.ty == At(0.5) && w.tz == Never && w.m == Cell(0, 5, 0);
    assert Step(StrideOf(r.d), w).m == Cell(0, 4, 0) && Step(StrideOf(r.d), w).hit == At(0.5);
    assert d.Contains(Cell(0, 3, 0)) && Inside(r, Cell(0, 3, 0), 2.0);
    PiercesExact(r, d, REACH);
  }

  lemma HitInView(r: Ray, d: Dims, blocks: Cell -> Byte, at: Walk)
    requires Pixel(r, d, blocks).Some? && at == Pixel(r, d, blocks).value.at
    ensures d.Contains(at.m) && blocks(at.m) != AIR
    ensures at.hit.At? && 0.0 <= at.hit.t <= MAXT && OnFace(r, at) && InCube(r, at.m, at.hit.t)
    ensures forall t, c :: 0.0 <= t < at.hit.t && Inside(r, c, t) && d.Contains(c) ==> c == Origin(r) || blocks(c) == AIR
  {
    StartGeometry(r);
    HitIsFirst(r, Start(r), 0.0, STEPS, MAXT, SeeWorld(d, blocks));
  }

  /** What a pixel shows: the first block in view, or nothing when nothing is in view. */
  lemma PixelShowsFirstBlock(r: Ray, d: Dims, blocks: Cell -> Byte)
    ensures Pixel(r, d, blocks).Some? ==>
              var at := Pixel(r, d, blocks).value.at;
              && d.Contains(at.m) && blocks(at.m) != AIR
              && at.hit.At? && 0.0 <= at.hit.t <= MAXT && OnFace(r, at) && InCube(r, at.m, at.hit.t)
              && forall t, c :: 0.0 <= t < at.hit.t && Inside(r, c, t) && d.Contains(c) ==> c == Origin(r) || blocks(c) == AIR
    ensures Pixel(r, d, blocks).None? && Speed(r) < 3.1 && !Unseen(r, d, false, MAXT) ==> ClearView(r, d, blocks)
  {
    if Pixel(r, d, blocks).Some? {
      HitInView(r, d, blocks, Pixel(r, d, blocks).value.at);
    } else if Speed(r) < 3.1 && !Unseen(r, d, false, MAXT) {
      SkyIsClear(r, d, blocks);
    }
  }

  /** A ray that starts away from the world and is still away after its first step sees nothing, whatever the
      world holds further on. */
  lemma OutsideSeesNothing(r: Ray, d: Dims, blocks: Cell -> Byte)
    ensures Away(d, false, Step(StrideOf(r.d), Start(r)).m) ==> Pixel(r, d, blocks).None?
  {
  }

  /** Such a ray: two cells to the left of a world, looking along it. */
  lemma FarRayUnseen(r: Ray, d: Dims)
    requires r == Ray(Vec(-1.5, 0.5, 0.5), Vec(1.0, 0.25, 0.25)) && d == Dims(4, 4, 4)
    ensures Unseen(r, d, false, MAXT) && Inside(r, Cell(0, 0, 0), 1.75)
  {
    var w := Start(r);
    assert w.tx == At(0.5) && w.ty == At(2.0) && w.tz == At(2.0) && w.m == Cell(-2, 0, 0);
    assert Step(StrideOf(r.d), w).m == Cell(-1, 0, 0) && Step(StrideOf(r.d), w).hit == At(0.5);
    assert Inside(r, Cell(0, 0, 0), 1.75) && d.Contains(Cell(0, 0, 0));
    PiercesExact(r, d, MAXT);
  }

  /** The fractions that texture a face, measured in the two axes other than that of the face. */
  function FaceU(r: Ray, w: Walk): real
    requires w.hit.At?
  {
    if w.side == 0 then Along(r.o.z, r.d.z, w.hit.t) - w.m.z as real else Along(r.o.x, r.d.x, w.hit.t) - w.m.x as real
  }

  function FaceV(r: Ray, w: Walk): real
    requires w.hit.At?
  {
    if w.side == 1 then Along(r.o.z, r.d.z, w.hit.t) - w.m.z as real else Along(r.o.y, r.d.y, w.hit.t) - w.m.y as real
  }

  lemma FaceFractions(r: Ray, d: Dims, blocks: Cell -> Byte)
    requires Pixel(r, d, blocks).Some?
    ensures var at := Pixel(r, d, blocks).value.at;
            at.hit.At? && 0.0 <= FaceU(r, at) <= 1.0 && 0.0 <= FaceV(r, at) <= 1.0
  {
    PixelShowsFirstBlock(r, d, blocks);
  }

  /** The crosshair: the selected cell is the first solid block within 6 units, and the cell offered for
      placing is the one next to it that the ray came through: free, inside the grid, or the eye's own. */
  lemma EditSelectsFirstSolid(r: Ray, d: Dims, blocks: Cell -> Byte)
    requires Edit(r, d, blocks).Some?
    ensures var f := Edit(r, d, blocks).value;
            && d.Contains(f.at.m) && Solid(blocks(f.at.m))
            && Neighbour(r, f.prev, f.at.m, f.at.side)
            && (f.prev == Origin(r) || (d.Contains(f.prev) && !Solid(blocks(f.prev))))
            && f.at.hit.At? && f.at.hit.t <= REACH && OnFace(r, f.at) && InCube(r, f.at.m, f.at.hit.t)
            && forall t, c :: 0.0 <= t < f.at.hit.t && Inside(r, c, t) ==>
                 c == Origin(r) || (d.Contains(c) && !Solid(blocks(c)))
  {
    StartGeometry(r);
    HitIsFirst(r, Start(r), 0.0, EDIT_STEPS, REACH, SeeEdit(d, blocks));
  }

  // ---------- in space ----------

  /** The point of the ray at time t. */
  function Point(r: Ray, t: real): Vec {
    Vec(r.o.x + r.d.x * t, r.o.y + r.d.y * t, r.o.z + r.d.z * t)
  }

  /** The point is in the unit cube of cell c, and not on its surface. */
  predicate Within(p: Vec, c: Cell) {
    && (c.x as real) < p.x && p.x < c.x as real + 1.0
    && (c.y as real) < p.y && p.y < c.y as real + 1.0
    && (c.z as real) < p.z && p.z < c.z as real + 1.0
  }

  /** The point is on the surface of the cube of cell c: on its lower or upper side along one axis, and within its
      bounds along the other two. */
  predicate OnSurface(p: Vec, c: Cell) {
    && c.x as real <= p.x <= c.x as real + 1.0
    && c.y as real <= p.y <= c.y as real + 1.0
    && c.z as real <= p.z <= c.z as real + 1.0
    && !Within(p, c)
  }

  /** Of the cells of the world that the ray passes through before time t, other than the one it starts in, each
      holds one of these bytes. */
  ghost predicate OnlyBefore(r: Ray, d: Dims, blocks: Cell -> Byte, clear: set<Byte>, t: real) {
    forall s, c | 0.0 <= s < t && Within(Point(r, s), c) && 0 <= c.x < d.sx && 0 <= c.y < d.sy && 0 <= c.z < d.sz ::
      blocks(c) in clear || c == Cell(r.o.x.Floor, r.o.y.Floor, r.o.z.Floor)
  }

  lemma PointInCell(r: Ray, c: Cell, t: real)
    ensures Inside(r, c, t) <==> Within(Point(r, t), c)
    ensures InCube(r, c, t) && !Inside(r, c, t) ==> OnSurface(Point(r, t), c)
  {
    var p := Point(r, t);
    AlongIs(r.o.x, r.d.x, t, p.x);
    AlongIs(r.o.y, r.d.y, t, p.y);
    AlongIs(r.o.z, r.d.z, t, p.z);
  }

  lemma AlongIs(o: real, d: real, t: real, p: real)
    requires p == o + d * t
    ensures Along(o, d, t) == p
  {
  }

  lemma BeforeInSpace(r: Ray, d: Dims, blocks: Cell -> Byte, clear: set<Byte>, t: real)
    requires forall s, c :: 0.0 <= s < t && Inside(r, c, s) && d.Contains(c) ==> c == Origin(r) || blocks(c) in clear
    ensures OnlyBefore(r, d, blocks, clear, t)
  {
    forall s, c | 0.0 <= s < t && Within(Point(r, s), c) && 0 <= c.x < d.sx && 0 <= c.y < d.sy && 0 <= c.z < d.sz
      ensures blocks(c) in clear || c == Cell(r.o.x.Floor, r.o.y.Floor, r.o.z.Floor)
    {
      PointInCell(r, c, s);
    }
  }

  /** Where on the face of the cell the texture is read. */
  lemma FacePoint(r: Ray, at: Walk, p: Vec, u: real, v: real)
    requires at.hit.At? && p == Point(r, at.hit.t) && u == FaceU(r, at) && v == FaceV(r, at)
    ensures at.side == 0 ==> p.z == at.m.z as real + u && p.y == at.m.y as real + v
    ensures at.side == 1 ==> p.x == at.m.x as real + u && p.z == at.m.z as real + v
    ensures at.side == 2 ==> p.x == at.m.x as real + u && p.y == at.m.y as real + v
  {
    AlongIs(r.o.x, r.d.x, at.hit.t, p.x);
    AlongIs(r.o.y, r.d.y, at.hit.t, p.y);
    AlongIs(r.o.z, r.d.z, at.hit.t, p.z);
  }

  lemma FaceOnSurface(r: Ray, w: Walk)
    requires OnFace(r, w) && InCube(r, w.m, w.hit.t)
    ensures OnSurface(Point(r, w.hit.t), w.m)
  {
    PointInCell(r, w.m, w.hit.t);
  }

  /** A pixel shows a block that the ray meets within 30, with nothing but air before it. */
  lemma SeenInSpace(r: Ray, d: Dims, blocks: Cell -> Byte, at: Walk)
    requires Pixel(r, d, blocks).Some? && at == Pixel(r, d, blocks).value.at
    ensures at.hit.At? && at.hit.t <= 30.0 && OnSurface(Point(r, at.hit.t), at.m) && blocks(at.m) != 0
    ensures OnlyBefore(r, d, blocks, {0}, at.hit.t)
  {
    PixelShowsFirstBlock(r, d, blocks);
    FaceOnSurface(r, at);
    BeforeInSpace(r, d, blocks, {0}, at.hit.t);
  }

  /** Sky is shown where there is nothing but air. */
  lemma SkyInSpace(r: Ray, d: Dims, blocks: Cell -> Byte)
    requires Pixel(r, d, blocks).None? && Speed(r) < 3.1 && !Unseen(r, d, false, 30.0)
    ensures OnlyBefore(r, d, blocks, {0}, 30.0)
  {
    PixelShowsFirstBlock(r, d, blocks);
    BeforeInSpace(r, d, blocks, {0}, 30.0);
  }

  /** The crosshair selects a block that its ray meets within 6, neither air nor water, with nothing else before it. */
  lemma SelectedInSpace(r: Ray, d: Dims, blocks: Cell -> Byte, at: Walk)
    requires Edit(r, d, blocks).Some? && at == Edit(r, d, blocks).value.at
    ensures at.hit.At? && at.hit.t <= 6.0 && OnSurface(Point(r, at.hit.t), at.m) && blocks(at.m) !in {0, 4}
    ensures OnlyBefore(r, d, blocks, {0, 4}, at.hit.t)
  {
    EditSelectsFirstSolid(r, d, blocks);
    FaceOnSurface(r, at);
    BeforeInSpace(r, d, blocks, {0, 4}, at.hit.t);
  }

  lemma NothingInSpace(r: Ray, d: Dims, blocks: Cell -> Byte)
    requires Edit(r, d, blocks).None? && Speed(r) < 2.0 && !Unseen(r, d, true, 6.0)
    ensures OnlyBefore(r, d, blocks, {0, 4}, 6.0)
  {
    NothingInReach(r, d, blocks);
    BeforeInSpace(r, d, blocks, {0, 4}, 6.0);
  }

  // ---------- the code's walk ----------

  lemma ClearAbove(c: Cell, d: Dims, blocks: Cell -> Byte, h: int)
    requires ClearFrom(d, blocks, h) && c.y >= h
    ensures SeeWorld(d, blocks)(c) != Block
  {
    if d.Contains(c) {
      assert blocks(c) == AIR;
    }
  }

  /** A rising ray that has cleared the blocks meets none. */
  lemma {:induction false} RisingSeesSky(k: Stride, w: Walk, n: nat, d: Dims, blocks: Cell -> Byte, h: int)
    requires ClearFrom(d, blocks, h) && w.m.y >= h && k.step.y >= 0
    ensures First(k, w, n, MAXT, SeeWorld(d, blocks)).None?
    decreases n
  {
    var see := SeeWorld(d, blocks);
    if n > 0 {
      var w' := Step(k, w);
      ClearAbove(w'.m, d, blocks, h);
      RisingSeesSky(k, w', n - 1, d, blocks, h);
    }
  }

  /** What is left of the plain walk from w decides the answer. */
  ghost predicate Decides(k: Stride, seen: Option<Found>, w: Walk, n: nat, reach: real, see: Cell -> Verdict) {
    First(k, w, n, reach, see) == seen
  }

  /** One unfolding of the plain walk, with the cell entered already in hand. */
  lemma Unfold(k: Stride, seen: Option<Found>, w: Walk, n: nat, reach: real, see: Cell -> Verdict)
    requires n > 0 && Decides(k, seen, w, n, reach, see)
    ensures var w' := Step(k, w);
            && (Sooner(At(reach), w'.hit) || see(w'.m) == Leave ==> seen == None)
            && (!Sooner(At(reach), w'.hit) && see(w'.m) == Block ==> seen == Some(Found(w.m, w')))
            && (!Sooner(At(reach), w'.hit) && see(w'.m) == Pass ==> Decides(k, seen, w', n - 1, reach, see))
  {
  }

  /** With no step left there is nothing to find. */
  lemma RunOut(k: Stride, seen: Option<Found>, w: Walk, reach: real, see: Cell -> Verdict)
    requires Decides(k, seen, w, 0, reach, see)
    ensures seen.None?
  {
  }

  /** The walk has risen into the clear: nothing it can still meet is a block. */
  ghost predicate Risen(k: Stride, w: Walk, d: Dims, blocks: Cell -> Byte) {
    k.step.y > 0 && exists h :: ClearFrom(d, blocks, h) && w.m.y >= h
  }

  /** The two early exits of the code, seen from the cell before. */
  lemma SkyExit(k: Stride, seen: Option<Found>, w: Walk, n: nat, d: Dims, blocks: Cell -> Byte)
    requires n > 0 && Risen(k, Step(k, w), d, blocks)
    requires Decides(k, seen, w, n, MAXT, SeeWorld(d, blocks))
    ensures seen.None?
  {
    var w' := Step(k, w);
    var h :| ClearFrom(d, blocks, h) && w'.m.y >= h;
    RisingSeesSky(k, w', n - 1, d, blocks, h);
    ClearAbove(w'.m, d, blocks, h);
  }

  /** One axis of the set-up shared by both rays. */
  method SetUpAxis(o: real, d: real) returns (map0: int, step: int, dd: Time, tMax: Time)
    ensures map0 == o.Floor && step == Sign(d) && dd == Gap(d) && tMax == Crossing(o, d)
  {
    dd := Gap(d);
    map0 := o.Floor;
    step := 1;
    tMax := Times(map0 as real + 1.0 - o, dd);
    if d < 0.0 {
      step := -1;
      tMax := Times(o - map0 as real, dd);
    }
  }

  /** Moves one axis of the chunk coordinates by a step; a new chunk makes the count stale. */
  method Carry(within: int, chunk: int, step: int, dirty: bool) returns (within': int, chunk': int, dirty': bool)
    requires 0 <= within <= 3 && (step == 1 || step == -1)
    ensures 0 <= within' <= 3 && 4 * chunk' + within' == 4 * chunk + within + step
    ensures dirty' == (dirty || chunk' != chunk)
  {
    within', chunk', dirty' := within + step, chunk, dirty;
    if within' > 3 {
      within', chunk', dirty' := 0, chunk + 1, true;
    } else if within' < 0 {
      within', chunk', dirty' := 3, chunk - 1, true;
    }
  }

  /** Is the chunk count at hand the one of chunk k? */
  ghost predicate Current(world: World, k: Cell, dirty: bool, cnt: Byte)
    requires world.Shaped()
    reads world.cbuf
  {
    !dirty ==> world.dims.Chunks().Contains(k) && cnt == world.Counts()(k)
  }

  /** Where a cell lies: 4 * chunk + within, on each axis, with `within` in 0..3. */
  ghost predicate Placed(m: Cell, chunk: Cell, within: Cell) {
    && m == Cell(4 * chunk.x + within.x, 4 * chunk.y + within.y, 4 * chunk.z + within.z)
    && 0 <= within.x <= 3 && 0 <= within.y <= 3 && 0 <= within.z <= 3
  }

  lemma PlacedChunk(m: Cell, chunk: Cell, within: Cell)
    requires Placed(m, chunk, within)
    ensures ChunkOf(m) == chunk
  {
  }

  /** One step of the code: the axis with the earliest crossing advances, cell and chunk coordinates with it. */
  method Advance(k: Stride, w: Walk, chunk: Cell, within: Cell, dirty: bool)
    returns (w': Walk, chunk': Cell, within': Cell, dirty': bool)
    requires k.step.x in {-1, 1} && k.step.y in {-1, 1} && k.step.z in {-1, 1}
    requires Placed(w.m, chunk, within)
    ensures w' == Step(k, w)
    ensures Placed(w'.m, chunk', within')
    ensures dirty' == (dirty || chunk' != chunk)
  {
    w', chunk', within', dirty' := w, chunk, within, dirty;
    var i, c;
    if Sooner(w.tx, w.ty) && Sooner(w.tx, w.tz) {
      w' := w.(hit := w.tx, tx := Plus(w.tx, k.ddx), m := w.m.(x := w.m.x + k.step.x), side := 0);
      i, c, dirty' := Carry(within.x, chunk.x, k.step.x, dirty);
      within', chunk' := within.(x := i), chunk.(x := c);
    } else if Sooner(w.ty, w.tz) {
      w' := w.(hit := w.ty, ty := Plus(w.ty, k.ddy), m := w.m.(y := w.m.y + k.step.y), side := 1);
      i, c, dirty' := Carry(within.y, chunk.y, k.step.y, dirty);
      within', chunk' := within.(y := i), chunk.(y := c);
    } else {
      w' := w.(hit := w.tz, tz := Plus(w.tz, k.ddz), m := w.m.(z := w.m.z + k.step.z), side := 2);
      i, c, dirty' := Carry(within.z, chunk.z, k.step.z, dirty);
      within', chunk' := within.(z := i), chunk.(z := c);
    }
  }

  /** One cell of the grid: the chunk count is read only when stale, the cell only when its chunk is not
      empty; the answer is the block either way. */
  method Inspect(world: World, m: Cell, k: Cell, dirty: bool, cnt: Byte) returns (block: Byte, dirty': bool, cnt': Byte)
    requires world.Valid() && world.dims.Contains(m) && k == ChunkOf(m) && Current(world, k, dirty, cnt)
    ensures block == world.Blocks()(m)
    ensures Current(world, k, dirty', cnt')
  {
    var cxx, czz := world.dims.sx / 4, world.dims.sz / 4;
    dirty', cnt', block := dirty, cnt, AIR;
    if dirty {
      dirty' := false;
      world.dims.Chunks().OffsetBound(k);
      cnt' := world.cbuf[(k.y * czz + k.z) * cxx + k.x];
    }
    if cnt' != 0 {
      block := world.ReadBlock(m.x, m.y, m.z);
    } else {
      EmptyChunkIsAir(world.dims, world.Blocks(), world.Counts(), m);
    }
  }

  /** What the code does with a cell it has just entered: stop with a block, stop with nothing, or go on. */
  method Probe(world: World, k: Stride, w: Walk, chunk: Cell, dirty: bool, cnt: Byte)
    returns (stop: bool, hitB: Byte, dirty': bool, cnt': Byte)
    requires world.Valid() && chunk == ChunkOf(w.m) && Current(world, chunk, dirty, cnt)
    ensures Current(world, chunk, dirty', cnt')
    ensures var verdict, far := SeeWorld(world.dims, world.Blocks())(w.m), Sooner(At(MAXT), w.hit);
            && (hitB != AIR ==> stop && !far && verdict == Block && hitB == world.Blocks()(w.m))
            && (hitB == AIR && stop ==> far || verdict == Leave || Risen(k, w, world.dims, world.Blocks()))
            && (!stop ==> !far && verdict == Pass)
  {
    var d := world.dims;
    stop, hitB, dirty', cnt' := true, AIR, dirty, cnt;
    if Sooner(At(MAXT), w.hit) { return; }
    if w.m.x < 0 || w.m.x >= d.sx || w.m.z < 0 || w.m.z >= d.sz { return; }
    if w.m.y < 0 { return; }
    if w.m.y >= d.sy {
      assert ClearFrom(d, world.Blocks(), d.sy);
      if k.step.y > 0 { return; }
    } else {
      if k.step.y > 0 && w.m.y >= world.maxH { return; }
      hitB, dirty', cnt' := Inspect(world, w.m, chunk, dirty, cnt);
      if hitB != AIR { return; }
    }
    stop := false;
  }

  /** One turn of the renderer's loop: it either ends with the answer or leaves one step fewer to take. */
  method Turn(world: World, k: Stride, ghost seen: Option<Found>, ghost left: nat,
              w: Walk, chunk: Cell, within: Cell, dirty: bool, cnt: Byte)
    returns (stop: bool, hitB: Byte, w': Walk, chunk': Cell, within': Cell, dirty': bool, cnt': Byte)
    requires world.Valid() && left > 0
    requires k.step.x in {-1, 1} && k.step.y in {-1, 1} && k.step.z in {-1, 1}
    requires Placed(w.m, chunk, within) && Current(world, chunk, dirty, cnt)
    requires Decides(k, seen, w, left, MAXT, SeeWorld(world.dims, world.Blocks()))
    ensures Placed(w'.m, chunk', within') && Current(world, chunk', dirty', cnt')
    ensures stop && hitB == AIR ==> seen == None
    ensures hitB != AIR ==> stop && seen == Some(Found(w.m, w')) && hitB == world.Blocks()(w'.m)
    ensures !stop ==> Decides(k, seen, w', left - 1, MAXT, SeeWorld(world.dims, world.Blocks()))
  {
    Unfold(k, seen, w, left, MAXT, SeeWorld(world.dims, world.Blocks()));
    w', chunk', within', dirty' := Advance(k, w, chunk, within, dirty);
    PlacedChunk(w'.m, chunk', within');
    stop, hitB, dirty', cnt' := Probe(world, k, w', chunk', dirty', cnt);
    if stop && hitB == AIR && Risen(k, w', world.dims, world.Blocks()) {
      SkyExit(k, seen, w, left, world.dims, world.Blocks());
    }
  }

  /** The renderer's walk: chunk coordinates kept incrementally, one count read per chunk entered, cells
      of empty chunks never read, and rays that rise above the blocks let go at once. */
  method Traverse(world: World, k: Stride, start: Walk) returns (hitB: Byte, w: Walk)
    requires world.Valid()
    requires k.step.x in {-1, 1} && k.step.y in {-1, 1} && k.step.z in {-1, 1}
    ensures var seen := First(k, start, STEPS, MAXT, SeeWorld(world.dims, world.Blocks()));
            && (hitB == AIR <==> seen.None?)
            && (hitB != AIR ==> seen.value.at == w && hitB == world.Blocks()(w.m))
  {
    w := start;
    var chunk := Cell(w.m.x / 4, w.m.y / 4, w.m.z / 4);
    var within := Cell(w.m.x - chunk.x * 4, w.m.y - chunk.y * 4, w.m.z - chunk.z * 4);
    var dirty, cnt: Byte := true, 1;
    hitB := AIR;
    ghost var see := SeeWorld(world.dims, world.Blocks());
    ghost var seen := First(k, start, STEPS, MAXT, see);
    var stp: nat, stop := 0, false;
    while stp < STEPS
      invariant stp <= STEPS && hitB == AIR
      invariant Placed(w.m, chunk, within)
      invariant Current(world, chunk, dirty, cnt)
      invariant Decides(k, seen, w, STEPS - stp, MAXT, see)
    {
      stop, hitB, w, chunk, within, dirty, cnt := Turn(world, k, seen, STEPS - stp, w, chunk, within, dirty, cnt);
      if stop { break; }
      stp := stp + 1;
    }
    if !stop {
      RunOut(k, seen, w, MAXT, see);
    }
  }

  /** A pixel's ray: the fast walk shows exactly what reading every cell would show. */
  method March(world: World, r: Ray) returns (hitB: Byte, w: Walk)
    requires world.Valid()
    ensures var seen := Pixel(r, world.dims, world.Blocks());
            && (hitB == AIR <==> seen.None?)
            && (hitB != AIR ==> seen.value.at == w && hitB == world.Blocks()(w.m))
  {
    var mapX0, stepX, ddx, tMaxX := SetUpAxis(r.o.x, r.d.x);
    var mapY0, stepY, ddy, tMaxY := SetUpAxis(r.o.y, r.d.y);
    var mapZ0, stepZ, ddz, tMaxZ := SetUpAxis(r.o.z, r.d.z);
    hitB, w := Traverse(world, Stride(Cell(stepX, stepY, stepZ), ddx, ddy, ddz),
                        Walk(Cell(mapX0, mapY0, mapZ0), tMaxX, tMaxY, tMaxZ, 0, At(0.5)));
  }

  /** The crosshair ray: the cell aimed at and the cell it was entered from, or (-1, -1, -1) twice. */
  method CastEdit(world: World, r: Ray) returns (sel: Cell, pl: Cell)
    requires world.Shaped()
    ensures var e := Edit(r, world.dims, world.Blocks());
            if e.Some? then sel == e.value.at.m && pl == e.value.prev
            else sel == Cell(-1, -1, -1) && pl == Cell(-1, -1, -1)
  {
    var mapX0, stepX, ddx, tMaxX := SetUpAxis(r.o.x, r.d.x);
    var mapY0, stepY, ddy, tMaxY := SetUpAxis(r.o.y, r.d.y);
    var mapZ0, stepZ, ddz, tMaxZ := SetUpAxis(r.o.z, r.d.z);
    sel, pl := TraverseEdit(world, Stride(Cell(stepX, stepY, stepZ), ddx, ddy, ddz),
                            Walk(Cell(mapX0, mapY0, mapZ0), tMaxX, tMaxY, tMaxZ, 0, At(0.5)));
  }

  method TraverseEdit(world: World, k: Stride, start: Walk) returns (sel: Cell, pl: Cell)
    requires world.Shaped()
    ensures var e := First(k, start, EDIT_STEPS, REACH, SeeEdit(world.dims, world.Blocks()));
            if e.Some? then sel == e.value.at.m && pl == e.value.prev
            else sel == Cell(-1, -1, -1) && pl == Cell(-1, -1, -1)
  {
    var d := world.dims;
    var m, tMaxX, tMaxY, tMaxZ := start.m, start.tx, start.ty, start.tz;
    sel, pl := Cell(-1, -1, -1), Cell(-1, -1, -1);
    ghost var w, see := start, SeeEdit(d, world.Blocks());
    ghost var seen := First(k, start, EDIT_STEPS, REACH, see);
    ghost var left := EDIT_STEPS;
    var est: nat := 0;
    while est < EDIT_STEPS
      invariant est + left == EDIT_STEPS && sel == pl == Cell(-1, -1, -1)
      invariant w.m == m && w.tx == tMaxX && w.ty == tMaxY && w.tz == tMaxZ
      invariant Decides(k, seen, w, left, REACH, see)
    {
      Unfold(k, seen, w, left, REACH, see);
      w := Step(k, w);
      var pp := m;
      var et := At(0.5);
      if Sooner(tMaxX, tMaxY) && Sooner(tMaxX, tMaxZ) {
        et, tMaxX, m := tMaxX, Plus(tMaxX, k.ddx), m.(x := m.x + k.step.x);
      } else if Sooner(tMaxY, tMaxZ) {
        et, tMaxY, m := tMaxY, Plus(tMaxY, k.ddy), m.(y := m.y + k.step.y);
      } else {
        et, tMaxZ, m := tMaxZ, Plus(tMaxZ, k.ddz), m.(z := m.z + k.step.z);
      }
      if Sooner(At(REACH), et) { break; }
      if m.x < 0 || m.x >= d.sx || m.z < 0 || m.z >= d.sz || m.y < 0 || m.y >= d.sy { break; }
      var eb := world.ReadBlock(m.x, m.y, m.z);
      if eb != AIR && eb != WATER {
        sel, pl := m, pp;
        break;
      }
      est, left := est + 1, left - 1;
    }
  }
}
