/** The framebuffer and the frame scheduler. Moving, the game draws every pixel at a lower resolution;
    still, it draws half the pixels of the full one in a checkerboard and keeps the other half from the
    frame before. What is shown must never be older than that, across every change of resolution. */
module Frames {
  import opened Options
  import opened Reals
  import opened Voxels
  import opened Raycast

  // ---------- the camera ----------

  /** Eye and direction; the four numbers are cos and sin of yaw and of pitch. */
  datatype Camera = Camera(eye: Vec, cyw: real, syw: real, cp: real, sp: real) {
    ghost predicate Unit() {
      cyw * cyw + syw * syw == 1.0 && cp * cp + sp * sp == 1.0
    }
  }

  const THF := 0.66

  function ScreenV(y: nat, rh: nat): real
    requires rh > 0
  {
    (1.0 - 2.0 * (y as real + 0.5) / rh as real) * THF
  }

  function ScreenU(x: nat, rw: nat, rh: nat): real
    requires rw > 0 && rh > 0
  {
    (2.0 * (x as real + 0.5) / rw as real - 1.0) * THF * (rw as real / rh as real)
  }

  /** The ray of screen position (u, v). */
  function Aim(c: Camera, u: real, v: real): Ray {
    Ray(c.eye, Vec(c.syw * c.cp + (0.0 - c.syw * c.sp) * v + c.cyw * u,
                   c.sp + c.cp * v,
                   c.cyw * c.cp + (0.0 - c.cyw * c.sp) * v + (0.0 - c.syw) * u))
  }

  function PixelRay(c: Camera, x: nat, y: nat, rw: nat, rh: nat): Ray
    requires rw > 0 && rh > 0
  {
    Aim(c, ScreenU(x, rw, rh), ScreenV(y, rh))
  }

  // ---------- where a pixel's ray points ----------

  function Dot(a: Vec, b: Vec): real {
    a.x * b.x + a.y * b.y + a.z * b.z
  }

  /** Where the player looks, and what is to the right of and above it. */
  function Ahead(c: Camera): Vec {
    Vec(c.syw * c.cp, c.sp, c.cyw * c.cp)
  }

  function Rightward(c: Camera): Vec {
    Vec(c.cyw, 0.0, -c.syw)
  }

  function Upward(c: Camera): Vec {
    Vec(-(c.syw * c.sp), c.cp, -(c.cyw * c.sp))
  }

  lemma Scaled(a: real, b: real, p: real, q: real)
    requires p * p + q * q == 1.0
    ensures a * p * (b * p) + a * q * (b * q) == a * b
  {
    assert a * p * (b * p) == a * b * (p * p) && a * q * (b * q) == a * b * (q * q);
    assert a * b * (p * p) + a * b * (q * q) == a * b * (p * p + q * q);
  }

  /** The three directions are of length one and square to each other. */
  lemma ViewIsSquare(c: Camera)
    requires c.Unit()
    ensures Dot(Ahead(c), Ahead(c)) == 1.0 && Dot(Rightward(c), Rightward(c)) == 1.0 && Dot(Upward(c), Upward(c)) == 1.0
    ensures Dot(Ahead(c), Rightward(c)) == 0.0 && Dot(Ahead(c), Upward(c)) == 0.0 && Dot(Rightward(c), Upward(c)) == 0.0
  {
    Scaled(c.cp, c.cp, c.syw, c.cyw);
    Scaled(c.sp, c.sp, c.syw, c.cyw);
    Scaled(c.cp, c.sp, c.syw, c.cyw);
    Mixed(c.syw, c.cyw, c.cp);
    Mixed(c.syw, c.cyw, c.sp);
    assert -(c.syw * c.sp) * -(c.syw * c.sp) == c.sp * c.syw * (c.sp * c.syw);
    assert -(c.cyw * c.sp) * -(c.cyw * c.sp) == c.sp * c.cyw * (c.sp * c.cyw);
    assert c.syw * c.cp * -(c.syw * c.sp) == -(c.cp * c.syw * (c.sp * c.syw));
    assert c.cyw * c.cp * -(c.cyw * c.sp) == -(c.cp * c.cyw * (c.sp * c.cyw));
    assert -c.syw * -c.syw == c.syw * c.syw;
  }

  lemma Mixed(s: real, c: real, p: real)
    ensures s * p * c + c * p * -s == 0.0 && c * -(s * p) + -s * -(c * p) == 0.0
  {
    assert s * p * c == s * (p * c) && c * p * -s == -(s * (p * c));
    assert c * -(s * p) == -(s * (p * c)) && -s * -(c * p) == s * (p * c);
  }

  lemma DotOfAim(c: Camera, u: real, v: real, w: Vec)
    ensures Dot(Aim(c, u, v).d, w) == Dot(Ahead(c), w) + v * Dot(Upward(c), w) + u * Dot(Rightward(c), w)
  {
    var d, f, p, r := Aim(c, u, v).d, Ahead(c), Upward(c), Rightward(c);
    Spread(d.x, f.x, p.x, r.x, u, v, w.x);
    Spread(d.y, f.y, p.y, r.y, u, v, w.y);
    Spread(d.z, f.z, p.z, r.z, u, v, w.z);
    Gather(v, p.x * w.x, p.y * w.y, p.z * w.z);
    Gather(u, r.x * w.x, r.y * w.y, r.z * w.z);
  }

  lemma Spread(d: real, f: real, p: real, r: real, u: real, v: real, w: real)
    requires d == f + p * v + r * u
    ensures d * w == f * w + v * (p * w) + u * (r * w)
  {
  }

  lemma Gather(k: real, a: real, b: real, c: real)
    ensures k * (a + b + c) == k * a + k * b + k * c
  {
  }

  /** The ray of (u, v) starts at the eye and goes one ahead, u to the right and v up. */
  lemma AimPoints(c: Camera, u: real, v: real)
    requires c.Unit()
    ensures Aim(c, u, v).o == c.eye
    ensures Dot(Aim(c, u, v).d, Ahead(c)) == 1.0
    ensures Dot(Aim(c, u, v).d, Rightward(c)) == u && Dot(Aim(c, u, v).d, Upward(c)) == v
  {
    ViewIsSquare(c);
    DotOfAim(c, u, v, Ahead(c));
    DotOfAim(c, u, v, Rightward(c));
    DotOfAim(c, u, v, Upward(c));
    DotSwaps(Ahead(c), Rightward(c));
    DotSwaps(Ahead(c), Upward(c));
    DotSwaps(Rightward(c), Upward(c));
    assert u * 1.0 == u && v * 1.0 == v && u * 0.0 == 0.0 && v * 0.0 == 0.0;
  }

  lemma DotSwaps(a: Vec, b: Vec)
    ensures Dot(a, b) == Dot(b, a)
  {
  }

  /** Pixels are square, with columns going to the right and rows going down, and the middle of the screen is straight
      ahead. No other screen coordinates have these properties. */
  lemma ScreenSquare(x: nat, y: nat, rw: nat, rh: nat)
    requires x < rw && y < rh
    ensures ScreenU(x + 1, rw, rh) - ScreenU(x, rw, rh) == 1.32 / rh as real
    ensures ScreenV(y, rh) - ScreenV(y + 1, rh) == 1.32 / rh as real
    ensures ScreenU(rw - 1 - x, rw, rh) == -ScreenU(x, rw, rh) && ScreenV(rh - 1 - y, rh) == -ScreenV(y, rh)
  {
    var w, h := rw as real, rh as real;
    var k, l := x as real + 0.5, y as real + 0.5;
    assert (rw - 1 - x) as real + 0.5 == w - k && (rh - 1 - y) as real + 0.5 == h - l;
    assert (x + 1) as real + 0.5 == k + 1.0 && (y + 1) as real + 0.5 == l + 1.0;
    AxisSteps(k, w, 2.0 * k / w);
    AxisSteps(l, h, 2.0 * l / h);
    SquareStep(w, h, w / h, 2.0 * k / w, 2.0 * (k + 1.0) / w);
    Turned(2.0 * k / w - 1.0, w / h);
    assert 2.0 * (w - k) / w - 1.0 == -(2.0 * k / w - 1.0);
    Thirds(h);
  }

  lemma AxisSteps(k: real, n: real, p: real)
    requires n > 0.0 && p == 2.0 * k / n
    ensures 2.0 * (k + 1.0) / n == p + 2.0 / n && 2.0 * (n - k) / n == 2.0 - p
  {
    assert p * n == 2.0 * k && 2.0 / n * n == 2.0;
    Quotient(2.0 * (k + 1.0), n, p + 2.0 / n);
    Quotient(2.0 * (n - k), n, 2.0 - p);
  }

  lemma Quotient(a: real, n: real, q: real)
    requires n > 0.0 && q * n == a
    ensures a / n == q
  {
  }

  lemma Thirds(h: real)
    requires h > 0.0
    ensures 2.0 / h * THF == 1.32 / h
  {
    assert 2.0 / h * h == 2.0;
    Quotient(1.32, h, 2.0 / h * THF);
  }

  lemma Turned(p: real, asp: real)
    ensures -p * THF * asp == -(p * THF * asp)
  {
  }

  /** One column further, by the aspect of the screen, is as far as one row. */
  lemma SquareStep(w: real, h: real, asp: real, p: real, q: real)
    requires w > 0.0 && h > 0.0 && asp == w / h && q == p + 2.0 / w
    ensures (q - 1.0) * THF * asp - (p - 1.0) * THF * asp == 1.32 / h
  {
    var d := 2.0 / w;
    assert d * w == 2.0 && asp * h == w;
    var e := d * asp;
    assert e * h == d * (asp * h);
    assert (q - 1.0) * THF * asp - (p - 1.0) * THF * asp == THF * e;
    Quotient(1.32, h, THF * e);
  }

  function Sq(a: real): real {
    a * a
  }

  lemma Rotation(c: real, s: real, a: real, b: real)
    requires c * c + s * s == 1.0
    ensures Sq(s * a + c * b) + Sq(c * a - s * b) == Sq(a) + Sq(b)
  {
    assert Sq(s * a + c * b) == s * s * a * a + 2.0 * s * c * a * b + c * c * b * b;
    assert Sq(c * a - s * b) == c * c * a * a - 2.0 * s * c * a * b + s * s * b * b;
    assert (s * s + c * c) * (a * a) == a * a;
    assert (s * s + c * c) * (b * b) == b * b;
  }

  /** The screen is at distance one and square to the view: lengths are those of (1, u, v). */
  lemma AimLength(c: Camera, u: real, v: real)
    requires c.Unit()
    ensures var d := Aim(c, u, v).d; Sq(d.x) + Sq(d.y) + Sq(d.z) == 1.0 + Sq(u) + Sq(v)
  {
    var d, a := Aim(c, u, v).d, c.cp - c.sp * v;
    assert d.x == c.syw * a + c.cyw * u;
    assert d.z == c.cyw * a - c.syw * u;
    Rotation(c.cyw, c.syw, a, u);
    Rotation(c.sp, c.cp, 1.0, 0.0 - v);
    assert d.y == c.sp * 1.0 - c.cp * (0.0 - v);
    assert a == c.cp * 1.0 + c.sp * (0.0 - v);
    assert Sq(0.0 - v) == Sq(v);
  }

  lemma SquareMono(a: real, b: real)
    requires 0.0 <= a && 0.0 <= b && Sq(a) < Sq(b)
    ensures a < b
  {
  }

  /** The sum of three numbers against the sum of their squares. */
  lemma SumAgainstSquares(a: real, b: real, c: real)
    ensures Sq(a + b + c) <= 3.0 * (Sq(a) + Sq(b) + Sq(c))
  {
    assert 3.0 * (Sq(a) + Sq(b) + Sq(c)) - Sq(a + b + c) == Sq(a - b) + Sq(b - c) + Sq(a - c);
    assert Sq(a - b) >= 0.0 && Sq(b - c) >= 0.0 && Sq(a - c) >= 0.0;
  }

  lemma AbsSquare(a: real)
    ensures Sq(Abs(a)) == Sq(a)
  {
  }

  lemma ShortIsSlow(x: real, y: real, z: real, bound: real)
    requires bound > 0.0 && 3.0 * (Sq(x) + Sq(y) + Sq(z)) < Sq(bound)
    ensures Abs(x) + Abs(y) + Abs(z) < bound
  {
    var s := Abs(x) + Abs(y) + Abs(z);
    assert Sq(s) < Sq(bound) by {
      SumAgainstSquares(Abs(x), Abs(y), Abs(z));
      AbsSquare(x);
      AbsSquare(y);
      AbsSquare(z);
    }
    SquareMono(s, bound);
  }

  /** A screen of the game's size keeps every ray slow enough for the walk's step budget. */
  lemma AimSpeed(c: Camera, u: real, v: real)
    requires c.Unit() && -1.1 <= u <= 1.1 && -0.66 <= v <= 0.66
    ensures Speed(Aim(c, u, v)) < 3.1
  {
    AimLength(c, u, v);
    SquareBound(u, 1.1);
    SquareBound(v, 0.66);
    assert Sq(1.1) == 1.21 && Sq(0.66) == 0.4356 && Sq(3.1) == 9.61;
    var d := Aim(c, u, v).d;
    assert Sq(d.x) + Sq(d.y) + Sq(d.z) < 3.2;
    ShortIsSlow(d.x, d.y, d.z, 3.1);
  }

  /** And the ray of the crosshair slow enough for its own. */
  lemma CrosshairSpeed(c: Camera)
    requires c.Unit()
    ensures Speed(Aim(c, 0.0, 0.0)) < 2.0
  {
    AimLength(c, 0.0, 0.0);
    assert Sq(0.0) == 0.0 && Sq(2.0) == 4.0;
    var d := Aim(c, 0.0, 0.0).d;
    ShortIsSlow(d.x, d.y, d.z, 2.0);
  }

  /** So when the crosshair selects nothing there is nothing solid in the player's reach, for every camera whose ray
      is not unseen: in particular for every eye inside the world. */
  lemma NothingMeansClear(c: Camera, d: Dims, blocks: Cell -> Byte)
    requires c.Unit() && Edit(Aim(c, 0.0, 0.0), d, blocks).None? && !Unseen(Aim(c, 0.0, 0.0), d, true, REACH)
    ensures ClearReach(Aim(c, 0.0, 0.0), d, blocks)
  {
    CrosshairSpeed(c);
    NothingInReach(Aim(c, 0.0, 0.0), d, blocks);
  }

  lemma SquareBound(a: real, b: real)
    requires -b <= a <= b
    ensures Sq(a) <= Sq(b)
  {
    assert Sq(b) - Sq(a) == (b - a) * (b + a);
  }

  // ---------- resolutions ----------

  const RMAXW: nat := 384
  const RMAXH: nat := 256

  function PresetSize(i: nat): (nat, nat) {
    if i == 0 then (192, 128)
    else if i == 1 then (240, 160)
    else if i == 2 then (288, 192)
    else if i == 3 then (336, 224)
    else (384, 256)
  }

  /** Resolution while moving: 15% of the size, rounded down, times four. */
  function Low(n: nat): nat {
    n * 15 / 100 * 4
  }

  /** A resolution the game can draw at: a preset or the moving version of one. */
  predicate Drawable(w: nat, h: nat) {
    exists i: nat {:trigger PresetSize(i)} | i < 5 ::
      (w, h) == PresetSize(i) || (w, h) == (Low(PresetSize(i).0), Low(PresetSize(i).1))
  }

  /** Preset i, and the size it is drawn at while moving. */
  predicate AtPreset(i: nat, w: nat, h: nat, lowW: nat, lowH: nat) {
    i < 5 && (w, h) == PresetSize(i) && lowW == Low(w) && lowH == Low(h)
  }

  lemma Presets()
    ensures AtPreset(0, 192, 128, 112, 76) && AtPreset(1, 240, 160, 144, 96) && AtPreset(2, 288, 192, 172, 112)
    ensures AtPreset(3, 336, 224, 200, 132) && AtPreset(4, 384, 256, 228, 152)
  {
  }

  lemma PresetDrawable(i: nat, w: nat, h: nat, lowW: nat, lowH: nat)
    requires AtPreset(i, w, h, lowW, lowH)
    ensures Drawable(w, h) && Drawable(lowW, lowH)
  {
    assert PresetSize(i) == (w, h);
  }

  lemma PresetAt(i: nat, w: nat, h: nat)
    requires i < 5 && ((w, h) == PresetSize(i) || (w, h) == (Low(PresetSize(i).0), Low(PresetSize(i).1)))
    ensures exists a: nat, b: nat, p: nat, q: nat :: AtPreset(i, a, b, p, q) && (w, h) in {(a, b), (p, q)}
  {
    var (a, b) := PresetSize(i);
    assert AtPreset(i, a, b, Low(a), Low(b));
  }

  /** The ten resolutions. */
  lemma Resolutions(w: nat, h: nat)
    ensures Drawable(w, h) <==> (w, h) in {(192, 128), (240, 160), (288, 192), (336, 224), (384, 256),
                                           (112, 76), (144, 96), (172, 112), (200, 132), (228, 152)}
  {
    Presets();
    PresetDrawable(0, 192, 128, 112, 76);
    PresetDrawable(1, 240, 160, 144, 96);
    PresetDrawable(2, 288, 192, 172, 112);
    PresetDrawable(3, 336, 224, 200, 132);
    PresetDrawable(4, 384, 256, 228, 152);
    if Drawable(w, h) {
      var i: nat :| i < 5 && ((w, h) == PresetSize(i) || (w, h) == (Low(PresetSize(i).0), Low(PresetSize(i).1)));
      PresetAt(i, w, h);
    }
  }

  /** Every resolution fits the framebuffer and has an aspect the step budget is enough for. */
  lemma DrawableFits(w: nat, h: nat)
    requires Drawable(w, h)
    ensures w > 0 && h > 0 && w * h <= RMAXW * RMAXH
    ensures 10 * w <= 16 * h
  {
    Resolutions(w, h);
  }

  lemma ScreenBounds(x: nat, y: nat, rw: nat, rh: nat)
    requires x < rw && y < rh && 10 * rw <= 16 * rh
    ensures -1.1 <= ScreenU(x, rw, rh) <= 1.1 && -0.66 <= ScreenV(y, rh) <= 0.66
  {
    var p := UnitInterval(x, rw);
    var q := UnitInterval(y, rh);
    var asp := rw as real / rh as real;
    assert 0.0 <= asp <= 1.6 by {
      assert asp * rh as real == rw as real;
      QuotientBound(rw as real, rh as real, 1.6);
    }
    var u := p * THF;
    assert -0.66 <= u <= 0.66;
    ProductBound(u, asp);
    assert ScreenU(x, rw, rh) == u * asp;
  }

  /** Position k of n on an axis scaled to run from -1 to 1. */
  lemma UnitInterval(k: nat, n: nat) returns (p: real)
    requires k < n
    ensures p == 2.0 * (k as real + 0.5) / n as real - 1.0 && -1.0 <= p <= 1.0
  {
    p := 2.0 * (k as real + 0.5) / n as real - 1.0;
    QuotientBound(2.0 * (k as real + 0.5), n as real, 2.0);
  }

  lemma QuotientBound(a: real, b: real, c: real)
    requires b > 0.0 && 0.0 <= a <= c * b
    ensures 0.0 <= a / b <= c
  {
    assert a / b * b == a;
  }

  lemma ProductBound(u: real, asp: real)
    requires -0.66 <= u <= 0.66 && 0.0 <= asp <= 1.6
    ensures -1.1 <= u * asp <= 1.1
  {
    AlongMono(0.0, asp, u, 0.66, u * asp, 0.66 * asp);
    AlongMono(0.0, asp, -0.66, u, -0.66 * asp, u * asp);
  }

  /** So on every pixel of every resolution, sky means that no block within range is in view, for every ray that
      is not unseen: in particular for every ray from an eye over the world. */
  lemma SkyMeansClear(c: Camera, x: nat, y: nat, rw: nat, rh: nat, d: Dims, blocks: Cell -> Byte)
    requires c.Unit() && Drawable(rw, rh) && x < rw && y < rh
    requires !Unseen(PixelRay(c, x, y, rw, rh), d, false, MAXT)
    requires Pixel(PixelRay(c, x, y, rw, rh), d, blocks).None?
    ensures ClearView(PixelRay(c, x, y, rw, rh), d, blocks)
  {
    DrawableFits(rw, rh);
    ScreenBounds(x, y, rw, rh);
    AimSpeed(c, ScreenU(x, rw, rh), ScreenV(y, rh));
    PixelShowsFirstBlock(PixelRay(c, x, y, rw, rh), d, blocks);
  }

  // ---------- one frame ----------

  /** What a pixel shows: the sky, or a block face. */
  datatype Sight = Sky | Face(block: Byte, at: Walk)

  /** One framebuffer slot, with the frame and the pixel it was drawn for. */
  datatype Texel = Blank | Drawn(frame: nat, w: nat, h: nat, x: nat, y: nat, sight: Sight)

  /** What a frame is drawn from: the camera and the world at that moment. */
  datatype View = View(camera: Camera, dims: Dims, blocks: Cell -> Byte)

  function Sees(v: View, x: nat, y: nat, w: nat, h: nat): Sight
    requires w > 0 && h > 0
  {
    match Pixel(PixelRay(v.camera, x, y, w, h), v.dims, v.blocks)
    case None => Sky
    case Some(f) => Face(v.blocks(f.at.m), f.at)
  }

  /** A pixel of any resolution shows the first block that its ray meets within 30 from the eye, with nothing but air
      before it; and where it shows the sky there is nothing but air, for every ray that is not unseen. */
  lemma PixelInSpace(v: View, x: nat, y: nat, w: nat, h: nat, r: Ray)
    requires v.camera.Unit() && Drawable(w, h) && x < w && y < h && r == PixelRay(v.camera, x, y, w, h)
    ensures r.o == v.camera.eye && Dot(r.d, Ahead(v.camera)) == 1.0
    ensures Dot(r.d, Rightward(v.camera)) == ScreenU(x, w, h) && Dot(r.d, Upward(v.camera)) == ScreenV(y, h)
    ensures Sees(v, x, y, w, h).Face? ==>
              var at, b := Sees(v, x, y, w, h).at, Sees(v, x, y, w, h).block;
              && at.hit.At? && at.hit.t <= 30.0 && OnSurface(Point(r, at.hit.t), at.m)
              && b == v.blocks(at.m) && b != 0 && OnlyBefore(r, v.dims, v.blocks, {0}, at.hit.t)
    ensures Sees(v, x, y, w, h).Sky? && !Unseen(r, v.dims, false, 30.0) ==> OnlyBefore(r, v.dims, v.blocks, {0}, 30.0)
  {
    AimPoints(v.camera, ScreenU(x, w, h), ScreenV(y, h));
    if Pixel(r, v.dims, v.blocks).Some? {
      SeenInSpace(r, v.dims, v.blocks, Pixel(r, v.dims, v.blocks).value.at);
    } else if !Unseen(r, v.dims, false, 30.0) {
      DrawableFits(w, h);
      ScreenBounds(x, y, w, h);
      AimSpeed(v.camera, ScreenU(x, w, h), ScreenV(y, h));
      SkyInSpace(r, v.dims, v.blocks);
    }
  }

  /** The picture a view makes at one resolution: what every pixel of it should hold. */
  function Picture(v: View, frame: nat, w: nat, h: nat): (nat, nat) -> Texel
    requires w > 0 && h > 0
  {
    (x: nat, y: nat) => Drawn(frame, w, h, x, y, Sees(v, x, y, w, h))
  }

  /** Mode 2 draws every pixel, modes 0 and 1 the pixels of one colour of the checkerboard. */
  predicate Selected(x: nat, y: nat, mode: nat) {
    mode == 2 || (x + y + mode) % 2 == 0
  }

  lemma ParitiesPartition(x: nat, y: nat)
    ensures Selected(x, y, 0) <==> x % 2 == y % 2
    ensures Selected(x, y, 1) <==> x % 2 != y % 2
  {
  }

  /** Scan order within a frame. */
  predicate Earlier(x: nat, y: nat, limX: nat, limY: nat) {
    y < limY || (y == limY && x < limX)
  }

  /** `after` is `before` with the selected pixels up to (limX, limY) drawn from `pic`, and nothing else touched. */
  ghost predicate Painted(before: seq<Texel>, after: seq<Texel>, pic: (nat, nat) -> Texel, w: nat, h: nat, mode: nat,
                          limX: nat, limY: nat)
    requires w * h <= |before|
  {
    && |after| == |before|
    && (forall x: nat, y: nat {:trigger Flat(y, x, w)} | x < w && y < h :: 0 <= Flat(y, x, w) < |before| &&
          after[Flat(y, x, w)] == if Selected(x, y, mode) && Earlier(x, y, limX, limY)
                                  then pic(x, y) else before[Flat(y, x, w)])
    && (forall i | w * h <= i < |before| :: after[i] == before[i])
  }

  lemma PaintNothing(before: seq<Texel>, pic: (nat, nat) -> Texel, w: nat, h: nat, mode: nat)
    requires w * h <= |before|
    ensures Painted(before, before, pic, w, h, mode, 0, 0)
  {
    forall x: nat, y: nat | x < w && y < h
      ensures 0 <= Flat(y, x, w) < |before|
    {
      RowBound(y, h, x, w);
    }
  }

  /** Drawing one more pixel. */
  lemma PaintOne(before: seq<Texel>, after: seq<Texel>, pic: (nat, nat) -> Texel, w: nat, h: nat, mode: nat,
                 x0: nat, y0: nat)
    requires x0 < w && y0 < h && w * h <= |before|
    requires Painted(before, after, pic, w, h, mode, x0, y0) && Selected(x0, y0, mode)
    ensures 0 <= Flat(y0, x0, w) < |after|
    ensures Painted(before, after[Flat(y0, x0, w) := pic(x0, y0)], pic, w, h, mode, x0 + 1, y0)
  {
    var i0 := Flat(y0, x0, w);
    RowBound(y0, h, x0, w);
    forall x: nat, y: nat | x < w && y < h
      ensures Flat(y, x, w) == i0 ==> x == x0 && y == y0
    {
      if Flat(y, x, w) == i0 {
        RowInjective(y, x, y0, x0, w);
      }
    }
  }

  /** No selected pixel lies between two scan positions. */
  ghost predicate NoneBetween(w: nat, mode: nat, x0: nat, y0: nat, x1: nat, y1: nat) {
    forall x: nat, y: nat {:trigger Selected(x, y, mode)} | x < w && Selected(x, y, mode) ::
      Earlier(x, y, x0, y0) <==> Earlier(x, y, x1, y1)
  }

  /** The first selected pixel of a row is at its parity, and the next ones follow two apart. */
  lemma RowOrder(w: nat, mode: nat, y: nat, x: nat)
    requires mode < 2
    ensures Selected((y + mode) % 2, y, mode) && NoneBetween(w, mode, 0, y, (y + mode) % 2, y)
    ensures Selected(x, y, mode) ==> Selected(x + 2, y, mode) && NoneBetween(w, mode, x + 1, y, x + 2, y)
  {
    forall x': nat | x' < (y + mode) % 2
      ensures !Selected(x', y, mode)
    {
      assert x' == 0 && (y + mode) % 2 == 1;
    }
    if Selected(x, y, mode) {
      assert !Selected(x + 1, y, mode);
    }
  }

  /** Skipping ahead over pixels that are not selected. */
  lemma PaintSkip(before: seq<Texel>, after: seq<Texel>, pic: (nat, nat) -> Texel, w: nat, h: nat, mode: nat,
                  x0: nat, y0: nat, x1: nat, y1: nat)
    requires w * h <= |before|
    requires Painted(before, after, pic, w, h, mode, x0, y0)
    requires NoneBetween(w, mode, x0, y0, x1, y1)
    ensures Painted(before, after, pic, w, h, mode, x1, y1)
  {
  }

  lemma RowOver(before: seq<Texel>, after: seq<Texel>, pic: (nat, nat) -> Texel, w: nat, h: nat, mode: nat,
                x: nat, y: nat)
    requires w * h <= |before| && x >= w && Painted(before, after, pic, w, h, mode, x, y)
    ensures Painted(before, after, pic, w, h, mode, 0, y + 1)
  {
    PaintSkip(before, after, pic, w, h, mode, x, y, 0, y + 1);
  }

  lemma RowBegins(before: seq<Texel>, after: seq<Texel>, pic: (nat, nat) -> Texel, w: nat, h: nat, mode: nat,
                  y: nat, x: nat)
    requires w * h <= |before| && mode <= 2 && x == (if mode == 2 then 0 else (y + mode) % 2)
    requires Painted(before, after, pic, w, h, mode, 0, y)
    ensures Selected(x, y, mode) && Painted(before, after, pic, w, h, mode, x, y)
  {
    if mode != 2 {
      RowOrder(w, mode, y, x);
    }
    PaintSkip(before, after, pic, w, h, mode, 0, y, x, y);
  }

  /** Draws one frame: the selected pixels of the active area, each by its own ray, and no other slot. */
  method RenderFrame(fbuf: array<Texel>, world: World, camera: Camera, frame: nat, rw: nat, rh: nat, mode: nat,
                     ghost v: View)
    requires world.Valid() && mode <= 2
    requires rw > 0 && rh > 0 && rw * rh <= fbuf.Length
    requires v == View(camera, world.dims, world.Blocks())
    modifies fbuf
    ensures Painted(old(fbuf[..]), fbuf[..], Picture(v, frame, rw, rh), rw, rh, mode, 0, rh)
  {
    ghost var before := fbuf[..];
    ghost var pic := Picture(v, frame, rw, rh);
    PaintNothing(before, pic, rw, rh, mode);
    var y := 0;
    while y < rh
      invariant 0 <= y <= rh && world.Valid() && v.blocks == world.Blocks()
      invariant Painted(before, fbuf[..], pic, rw, rh, mode, 0, y)
    {
      RenderRow(fbuf, world, camera, frame, rw, rh, mode, y, before, v);
      y := y + 1;
    }
  }

  /** The body of the outer loop: the selected pixels of one row, from the parity on in steps of two. */
  method RenderRow(fbuf: array<Texel>, world: World, camera: Camera, frame: nat, rw: nat, rh: nat, mode: nat, y: nat,
                   ghost before: seq<Texel>, ghost v: View)
    requires world.Valid() && mode <= 2 && y < rh
    requires rw > 0 && rw * rh <= fbuf.Length == |before| && v == View(camera, world.dims, world.Blocks())
    requires Painted(before, fbuf[..], Picture(v, frame, rw, rh), rw, rh, mode, 0, y)
    modifies fbuf
    ensures Painted(before, fbuf[..], Picture(v, frame, rw, rh), rw, rh, mode, 0, y + 1)
  {
    ghost var pic := Picture(v, frame, rw, rh);
    var step: nat, x: nat := 2, (y + mode) % 2;
    if mode == 2 {
      step, x := 1, 0;
    }
    RowBegins(before, fbuf[..], pic, rw, rh, mode, y, x);
    while x < rw
      invariant 0 <= x && world.Valid() && v == View(camera, world.dims, world.Blocks())
      invariant Selected(x, y, mode)
      invariant Painted(before, fbuf[..], pic, rw, rh, mode, x, y)
      decreases rw - x
    {
      RenderPixel(fbuf, world, camera, frame, rw, rh, mode, x, y, step, before, v);
      x := x + step;
    }
    RowOver(before, fbuf[..], pic, rw, rh, mode, x, y);
  }

  /** One selected pixel, and on to the next one of its row. */
  method RenderPixel(fbuf: array<Texel>, world: World, camera: Camera, frame: nat, rw: nat, rh: nat, mode: nat,
                     x: nat, y: nat, step: nat, ghost before: seq<Texel>, ghost v: View)
    requires world.Valid() && mode <= 2 && x < rw && y < rh
    requires rw > 0 && rw * rh <= fbuf.Length == |before| && v == View(camera, world.dims, world.Blocks())
    requires Selected(x, y, mode) && step == if mode == 2 then 1 else 2
    requires Painted(before, fbuf[..], Picture(v, frame, rw, rh), rw, rh, mode, x, y)
    modifies fbuf
    ensures Painted(before, fbuf[..], Picture(v, frame, rw, rh), rw, rh, mode, x + step, y)
    ensures Selected(x + step, y, mode)
  {
    ghost var pic, soFar := Picture(v, frame, rw, rh), fbuf[..];
    DrawPixel(fbuf, world, camera, frame, rw, rh, x, y, v);
    PaintOne(before, soFar, pic, rw, rh, mode, x, y);
    if mode != 2 {
      RowOrder(rw, mode, y, x);
    }
    PaintSkip(before, fbuf[..], pic, rw, rh, mode, x + 1, y, x + step, y);
  }

  /** The body of the inner loop: one ray, one write. */
  method DrawPixel(fbuf: array<Texel>, world: World, camera: Camera, frame: nat, rw: nat, rh: nat, x: nat, y: nat,
                   ghost v: View)
    requires world.Valid() && x < rw && y < rh && rw * rh <= fbuf.Length
    requires v == View(camera, world.dims, world.Blocks())
    modifies fbuf
    ensures 0 <= Flat(y, x, rw) < fbuf.Length
    ensures fbuf[..] == old(fbuf[..])[Flat(y, x, rw) := Picture(v, frame, rw, rh)(x, y)]
  {
    var hitB, at := March(world, PixelRay(camera, x, y, rw, rh));
    var sight := if hitB == AIR then Sky else Face(hitB, at);
    assert sight == Sees(v, x, y, rw, rh);
    RowBound(y, rh, x, rw);
    fbuf[y * rw + x] := Drawn(frame, rw, rh, x, y, sight);
  }

  // ---------- freshness of a framebuffer ----------

  /** Pixel (x, y) of width-w picture `pic` is what the buffer holds. */
  ghost predicate Holds(s: seq<Texel>, pic: (nat, nat) -> Texel, w: nat, x: nat, y: nat) {
    0 <= Flat(y, x, w) < |s| && s[Flat(y, x, w)] == pic(x, y)
  }

  ghost predicate AllHold(s: seq<Texel>, pic: (nat, nat) -> Texel, w: nat, h: nat) {
    forall x: nat, y: nat | x < w && y < h :: Holds(s, pic, w, x, y)
  }

  /** The pixels that `mode` would not draw are those of `pic`. */
  ghost predicate RestHold(s: seq<Texel>, pic: (nat, nat) -> Texel, w: nat, h: nat, mode: nat) {
    forall x: nat, y: nat | x < w && y < h && !Selected(x, y, mode) :: Holds(s, pic, w, x, y)
  }

  /** Every pixel is of the last picture or of the one before it. */
  ghost predicate TwoFrames(s: seq<Texel>, last: (nat, nat) -> Texel, before: (nat, nat) -> Texel, w: nat, h: nat) {
    forall x: nat, y: nat | x < w && y < h :: Holds(s, last, w, x, y) || Holds(s, before, w, x, y)
  }

  /** The picture of frame k, drawn at the given resolution. */
  ghost function PictureOf(views: seq<View>, k: nat, w: nat, h: nat): (nat, nat) -> Texel
    requires k < |views| && w > 0 && h > 0
  {
    Picture(views[k], k, w, h)
  }

  /** The slot of pixel (x, y) was drawn for that pixel, at the resolution of the active area, in the last frame
      or the one before it, and holds what the view of that frame sees there. */
  ghost predicate Current(s: seq<Texel>, views: seq<View>, w: nat, h: nat, x: nat, y: nat)
    requires x < w && y < h
  {
    0 <= Flat(y, x, w) < |s| &&
    var t := s[Flat(y, x, w)];
    && t.Drawn? && t.w == w && t.h == h && t.x == x && t.y == y
    && t.frame < |views| <= t.frame + 2 && t.sight == Sees(views[t.frame], x, y, w, h)
  }

  ghost predicate FreshBuffer(s: seq<Texel>, views: seq<View>, w: nat, h: nat) {
    w > 0 && h > 0 && forall x: nat, y: nat | x < w && y < h :: Current(s, views, w, h, x, y)
  }

  /** What a frame leaves behind, whatever its mode. */
  lemma AfterPainting(was: seq<Texel>, now: seq<Texel>, pic: (nat, nat) -> Texel, before: (nat, nat) -> Texel,
                      w: nat, h: nat, mode: nat)
    requires mode <= 2 && w * h <= |was|
    requires Painted(was, now, pic, w, h, mode, 0, h)
    requires mode != 2 ==> RestHold(was, before, w, h, mode)
    ensures TwoFrames(now, pic, before, w, h)
    ensures mode == 2 ==> AllHold(now, pic, w, h)
    ensures mode != 1 ==> RestHold(now, pic, w, h, 1)
    ensures mode != 0 ==> RestHold(now, pic, w, h, 0)
  {
    forall x: nat, y: nat | x < w && y < h
      ensures Holds(now, pic, w, x, y) || Holds(now, before, w, x, y)
      ensures mode == 2 || (mode != 1 && !Selected(x, y, 1)) || (mode != 0 && !Selected(x, y, 0)) ==>
                Holds(now, pic, w, x, y)
    {
      ParitiesPartition(x, y);
      PixelAfterPainting(was, now, pic, before, w, h, mode, x, y);
    }
  }

  lemma PixelAfterPainting(was: seq<Texel>, now: seq<Texel>, pic: (nat, nat) -> Texel, before: (nat, nat) -> Texel,
                           w: nat, h: nat, mode: nat, x: nat, y: nat)
    requires w * h <= |was| && x < w && y < h
    requires Painted(was, now, pic, w, h, mode, 0, h)
    requires !Selected(x, y, mode) ==> Holds(was, before, w, x, y)
    ensures if Selected(x, y, mode) then Holds(now, pic, w, x, y) else Holds(now, before, w, x, y)
  {
    var i := Flat(y, x, w);
    assert Earlier(x, y, 0, h);
    assert 0 <= i < |was|;
  }

  /** One more frame: from what the frame before left to a fresh buffer, and to a half that is ready for the next. */
  lemma FrameLeaves(was: seq<Texel>, now: seq<Texel>, views: seq<View>, view: View, w: nat, h: nat, mode: nat)
    requires mode <= 2 && w > 0 && h > 0 && w * h <= |was|
    requires Painted(was, now, Picture(view, |views|, w, h), w, h, mode, 0, h)
    requires mode != 2 ==> |views| > 0 && RestHold(was, PictureOf(views, |views| - 1, w, h), w, h, mode)
    ensures FreshBuffer(now, views + [view], w, h)
    ensures mode == 2 ==> AllHold(now, PictureOf(views + [view], |views|, w, h), w, h)
    ensures mode != 1 ==> RestHold(now, PictureOf(views + [view], |views|, w, h), w, h, 1)
    ensures mode != 0 ==> RestHold(now, PictureOf(views + [view], |views|, w, h), w, h, 0)
  {
    var pic, all := Picture(view, |views|, w, h), views + [view];
    assert PictureOf(all, |views|, w, h) == pic;
    var before := if mode == 2 then pic else PictureOf(views, |views| - 1, w, h);
    AfterPainting(was, now, pic, before, w, h, mode);
    forall x: nat, y: nat | x < w && y < h
      ensures Current(now, all, w, h, x, y)
    {
      assert Holds(now, pic, w, x, y) || Holds(now, before, w, x, y);
    }
  }

  /** The pixels that `mode` does not draw are of the last of these frames. */
  ghost predicate HalfLeft(s: seq<Texel>, views: seq<View>, w: nat, h: nat, mode: nat) {
    |views| > 0 && w > 0 && h > 0 && RestHold(s, PictureOf(views, |views| - 1, w, h), w, h, mode)
  }

  // ---------- the game loop ----------

  /** What one turn of the loop reads from outside: keys, mouse, clock, clicks on the menu. */
  datatype Input = Input(esc: bool, moved: bool, dts: real, camera: Camera,
                         clickL: bool, clickR: bool, block: Byte, preset: Option<nat>, back: bool)

  /** The blocks after a turn's clicks: the left one empties the selected cell, the right one fills the cell
      before it unless the player stands there. */
  function Played(b: Cell -> Byte, d: Dims, e: Option<Found>, eye: Vec, input: Input): Cell -> Byte {
    if e.None? then b
    else
      var sel, pl := e.value.at.m, e.value.prev;
      c => if input.clickR && pl.x >= 0 && !Occupies(eye, pl) && c == pl && d.Contains(c) then input.block
           else if input.clickL && c == sel && d.Contains(c) then AIR
           else b(c)
  }

  /** The player fills the cell of the eye and the one a metre and a half below it. */
  predicate Occupies(eye: Vec, c: Cell) {
    c.x == eye.x.Floor && c.z == eye.z.Floor && (c.y == (eye.y - 1.5).Floor || c.y == eye.y.Floor)
  }

  /** The left button empties the selected cell and does nothing else. */
  lemma LeftClick(b: Cell -> Byte, r: Ray, d: Dims, eye: Vec, input: Input, c: Cell)
    requires input.clickL && !input.clickR
    ensures Edit(r, d, b).None? ==> Played(b, d, Edit(r, d, b), eye, input)(c) == b(c)
    ensures Edit(r, d, b).Some? ==>
              Played(b, d, Edit(r, d, b), eye, input)(c) == if c == Edit(r, d, b).value.at.m then 0 else b(c)
  {
    if Edit(r, d, b).Some? {
      EditSelectsFirstSolid(r, d, b);
    }
  }

  /** The right button fills the cell before the selected one, and does nothing else; and never the cell in which the
      eye is, nor the one in which the point 1.5 below the eye is. */
  lemma RightClick(b: Cell -> Byte, d: Dims, f: Found, eye: Vec, input: Input, c: Cell)
    requires input.clickR && !input.clickL
    ensures Played(b, d, Some(f), eye, input)(c)
            == if c == f.prev && d.Contains(c)
                  && c != Cell(eye.x.Floor, eye.y.Floor, eye.z.Floor)
                  && c != Cell(eye.x.Floor, (eye.y - 1.5).Floor, eye.z.Floor)
               then input.block else b(c)
  {
    assert Occupies(eye, c) <==> c == Cell(eye.x.Floor, eye.y.Floor, eye.z.Floor)
                                 || c == Cell(eye.x.Floor, (eye.y - 1.5).Floor, eye.z.Floor);
  }

  class Game {
    const fbuf: array<Texel>
    const world: World
    var camera: Camera
    var curRW: nat
    var curRH: nat
    var lowW: nat
    var lowH: nat
    var parity: nat
    var forceFull: nat
    var menuOpen: bool
    var movT: real
    var motionPrev: bool
    var frameNo: nat
    ghost var shownW: nat
    ghost var shownH: nat
    /** The views of all frames drawn so far. */
    ghost var views: seq<View>

    ghost predicate Sized()
      reads this
    {
      && fbuf.Length == RMAXW * RMAXH
      && (exists i: nat {:trigger PresetSize(i)} | i < 5 :: (curRW, curRH) == PresetSize(i))
      && lowW == Low(curRW) && lowH == Low(curRH)
      && parity < 2
    }

    /** No pixel on screen is older than the previous frame, or left over from another resolution. */
    ghost predicate Fresh()
      reads `shownW, `shownH, `views, fbuf
    {
      FreshBuffer(fbuf[..], views, shownW, shownH)
    }

    /** The pixels that `mode` will not draw are from the last frame, at the full resolution. */
    ghost predicate HalfReady(mode: nat)
      reads `shownW, `shownH, `curRW, `curRH, `views, fbuf
    {
      shownW == curRW && shownH == curRH && HalfLeft(fbuf[..], views, shownW, shownH, mode)
    }

    /** Every pixel shown is of the last frame. */
    ghost predicate AllNew()
      reads `shownW, `shownH, `views, fbuf
    {
      && |views| > 0 && shownW > 0 && shownH > 0
      && AllHold(fbuf[..], PictureOf(views, |views| - 1, shownW, shownH), shownW, shownH)
    }

    /** When the next frame may draw only half the pixels, the other half is ready for it. */
    ghost predicate Valid()
      reads this, fbuf, world, world.buf, world.cbuf, world.hbuf
    {
      && Sized() && world.Valid() && frameNo == |views| && (frameNo > 0 ==> Fresh())
      && (!motionPrev && forceFull == 0 ==> HalfReady(parity))
    }

    constructor (world: World, preset: nat)
      requires world.Valid() && preset < 5
      ensures Valid() && this.world == world && frameNo == 0 && fresh(fbuf)
    {
      this.world := world;
      fbuf := new Texel[RMAXW * RMAXH](_ => Blank);
      camera := Camera(Vec(0.0, 0.0, 0.0), 1.0, 0.0, 1.0, 0.0);
      var (w, h) := PresetSize(preset);
      curRW, curRH := w, h;
      lowW, lowH := Low(w), Low(h);
      parity, forceFull, menuOpen, movT, motionPrev := 0, 2, false, 0.0, false;
      frameNo := 0;
      shownW, shownH, views := 0, 0, [];
      new;
      assert (curRW, curRH) == PresetSize(preset);
    }

    /** The clicks of one turn of play. */
    method Play(input: Input)
      requires world.Valid()
      modifies world, world.buf, world.cbuf, world.hbuf
      ensures world.Valid()
      ensures forall c :: world.Blocks()(c) ==
                Played(old(world.Blocks()), world.dims, Edit(Aim(camera, 0.0, 0.0), world.dims, old(world.Blocks())),
                       camera.eye, input)(c)
    {
      var ray := Aim(camera, 0.0, 0.0);
      var sel, pl := CastEdit(world, ray);
      ghost var e := Edit(ray, world.dims, world.Blocks());
      if e.Some? {
        EditSelectsFirstSolid(ray, world.dims, world.Blocks());
      }
      if input.clickL && sel.x >= 0 {
        world.Set(sel.x, sel.y, sel.z, AIR);
      }
      if input.clickR && pl.x >= 0 {
        if !(pl.x == camera.eye.x.Floor && pl.z == camera.eye.z.Floor
             && (pl.y == (camera.eye.y - 1.5).Floor || pl.y == camera.eye.y.Floor)) {
          world.Set(pl.x, pl.y, pl.z, input.block);
        }
      }
    }

    /** The scheduler's choice: resolution and mode of the coming frame. */
    method Choose(moved: bool, dts: real) returns (frW: nat, frH: nat, mode: nat)
      requires Valid()
      modifies this`movT, this`motionPrev, this`forceFull, this`parity
      ensures Sized() && mode <= 2 && parity < 2
      ensures movT == if moved then 0.15 else old(movT) - dts
      ensures (frW, frH) == if movT > 0.0 then (lowW, lowH) else (curRW, curRH)
      ensures movT > 0.0 ==> mode == 2 && motionPrev
      ensures movT <= 0.0 ==> !motionPrev
      ensures mode != 2 ==> HalfReady(mode) && mode == old(parity) && parity == 1 - mode
    {
      if moved {
        movT := 0.15;
      } else {
        movT := movT - dts;
      }
      frW, frH, mode := curRW, curRH, 0;
      if movT > 0.0 {
        frW, frH, mode := lowW, lowH, 2;
        motionPrev := true;
      } else {
        if motionPrev {
          forceFull := 1;
          motionPrev := false;
        }
        if forceFull > 0 {
          mode := 2;
          forceFull := forceFull - 1;
        } else {
          mode := parity;
          if parity == 0 {
            parity := 1;
          } else {
            parity := 0;
          }
        }
      }
    }

    /** The first part of a turn: the menu key, and play if the menu is shut. */
    method Update(input: Input) returns (moved: bool)
      requires Valid()
      modifies this`menuOpen, this`camera, world, world.buf, world.cbuf, world.hbuf
      ensures Valid()
      ensures menuOpen == (old(menuOpen) != input.esc)
      ensures moved == (!menuOpen && input.moved) && camera == if menuOpen then old(camera) else input.camera
      ensures menuOpen ==> world.Blocks() == old(world.Blocks())
      ensures !menuOpen ==>
                forall c :: world.Blocks()(c) ==
                  Played(old(world.Blocks()), world.dims, Edit(Aim(camera, 0.0, 0.0), world.dims, old(world.Blocks())),
                         camera.eye, input)(c)
    {
      if input.esc {
        menuOpen := !menuOpen;
      }
      moved := false;
      if !menuOpen {
        moved := input.moved;
        camera := input.camera;
        Play(input);
      }
    }

    /** One turn of the loop: every pixel on screen is from this frame's picture or the one before it, at the
        resolution now shown; in motion every pixel is from this frame's. */
    method Frame(input: Input)
      requires Valid() && (input.preset.Some? ==> input.preset.value < 5)
      modifies this, fbuf, world, world.buf, world.cbuf, world.hbuf
      ensures Valid() && Fresh() && views == old(views) + [View(camera, world.dims, world.Blocks())]
      ensures shownW == (if movT > 0.0 then old(lowW) else old(curRW))
      ensures shownH == (if movT > 0.0 then old(lowH) else old(curRH))
      ensures movT > 0.0 ==> AllNew()
    {
      var moved := Update(input);
      Show(moved, input.dts);
      if menuOpen {
        Menu(input);
      }
    }

    /** The loop of the game: over any run of turns, what is shown at the end of each is fresh. */
    method Loop(inputs: seq<Input>)
      requires Valid() && forall input | input in inputs :: input.preset.Some? ==> input.preset.value < 5
      modifies this, fbuf, world, world.buf, world.cbuf, world.hbuf
      ensures Valid() && (inputs != [] ==> Fresh())
      ensures |views| == |old(views)| + |inputs| && old(views) <= views
    {
      var i := 0;
      while i < |inputs|
        invariant 0 <= i <= |inputs| && Valid() && (i > 0 ==> Fresh())
        invariant |views| == |old(views)| + i && old(views) <= views
      {
        Frame(inputs[i]);
        i := i + 1;
      }
    }

    /** The middle part of a turn: the scheduler's choice and the drawing of it. */
    method Show(moved: bool, dts: real)
      requires Valid()
      modifies this`movT, this`motionPrev, this`forceFull, this`parity
      modifies this`frameNo, this`shownW, this`shownH, this`views, fbuf
      ensures Valid() && Fresh() && views == old(views) + [View(camera, world.dims, world.Blocks())]
      ensures shownW == (if movT > 0.0 then lowW else curRW) && shownH == if movT > 0.0 then lowH else curRH
      ensures movT > 0.0 ==> AllNew()
    {
      var frW, frH, mode := Choose(moved, dts);
      Draw(frW, frH, mode);
    }

    /** Draws the chosen frame: what the buffer then holds, as one more of the frames drawn. */
    method Paint(frW: nat, frH: nat, mode: nat, ghost view: View)
      requires Sized() && world.Valid() && mode <= 2 && frameNo == |views|
      requires view == View(camera, world.dims, world.Blocks()) && (frW, frH) in {(lowW, lowH), (curRW, curRH)}
      requires mode != 2 ==> HalfLeft(fbuf[..], views, frW, frH, mode)
      modifies fbuf
      ensures frW > 0 && frH > 0 && FreshBuffer(fbuf[..], views + [view], frW, frH)
      ensures mode == 2 ==> AllHold(fbuf[..], PictureOf(views + [view], |views|, frW, frH), frW, frH)
      ensures mode != 1 ==> HalfLeft(fbuf[..], views + [view], frW, frH, 1)
      ensures mode != 0 ==> HalfLeft(fbuf[..], views + [view], frW, frH, 0)
    {
      ChosenDrawable(frW, frH);
      DrawableFits(frW, frH);
      ghost var was := fbuf[..];
      RenderFrame(fbuf, world, camera, frameNo, frW, frH, mode, view);
      FrameLeaves(was, fbuf[..], views, view, frW, frH, mode);
    }

    /** Draws the chosen frame and records what is now on screen. */
    method Draw(frW: nat, frH: nat, mode: nat)
      requires Sized() && world.Valid() && mode <= 2 && frameNo == |views|
      requires ((frW, frH) == (lowW, lowH) && motionPrev) || (frW, frH) == (curRW, curRH)
      requires mode != 2 ==> (frW, frH) == (curRW, curRH) && HalfReady(mode) && parity == 1 - mode
      modifies this`frameNo, this`shownW, this`shownH, this`views, fbuf
      ensures Valid() && Fresh() && views == old(views) + [View(camera, world.dims, world.Blocks())]
      ensures shownW == frW && shownH == frH
      ensures mode == 2 ==> AllNew()
    {
      ghost var view := View(camera, world.dims, world.Blocks());
      Paint(frW, frH, mode, view);
      frameNo, shownW, shownH, views := frameNo + 1, frW, frH, views + [view];
      assert mode == 2 ==> HalfLeft(fbuf[..], views, frW, frH, 0) && HalfLeft(fbuf[..], views, frW, frH, 1);
      assert mode != 2 ==> HalfLeft(fbuf[..], views, frW, frH, parity);
    }

    lemma ChosenDrawable(frW: nat, frH: nat)
      requires Sized() && (frW, frH) in {(lowW, lowH), (curRW, curRH)}
      ensures Drawable(frW, frH)
    {
      var i: nat :| i < 5 && (curRW, curRH) == PresetSize(i);
      assert PresetSize(i).0 == curRW;
    }

    /** The menu's clicks: a new preset asks for two full frames. */
    method Menu(input: Input)
      requires Valid() && (input.preset.Some? ==> input.preset.value < 5)
      modifies this`curRW, this`curRH, this`lowW, this`lowH, this`forceFull, this`menuOpen
      ensures Valid()
      ensures input.preset.None? ==> curRW == old(curRW) && curRH == old(curRH) && forceFull == old(forceFull)
      ensures input.preset.Some? ==> (curRW, curRH) == PresetSize(input.preset.value) && forceFull == 2
      ensures menuOpen == (old(menuOpen) && !input.back)
    {
      if input.preset.Some? {
        var (w, h) := PresetSize(input.preset.value);
        curRW, curRH := w, h;
        lowW, lowH := Low(w), Low(h);
        forceFull := 2;
        assert (curRW, curRH) == PresetSize(input.preset.value);
      }
      if input.back {
        menuOpen := false;
      }
    }
  }
}
