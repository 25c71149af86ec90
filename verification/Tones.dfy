/** What a struck key sounds like, sample by sample: the phase, the envelope, the filter and the echo in closed form,
    up to the samples heard. */
module Tones {
  import opened Reals
  import opened Synth

  function Power(b: real, n: nat): real {
    if n == 0 then 1.0 else b * Power(b, n - 1)
  }

  function Fraction(x: real): real {
    x - x.Floor as real
  }

  /** n equal steps. */
  function Way(n: nat, step: real): real {
    n as real * step
  }

  lemma WayStep(n: nat, step: real)
    ensures Way(0, step) == 0.0 && Way(n + 1, step) == Way(n, step) + step && Climb(step, n) == Way(n, step)
  {
    ClimbProduct(step, n);
    assert (n + 1) as real * step == n as real * step + step;
  }

  // ---------- the waves ----------

  /** The square is up for half a period and down for the other; the saw rises from -1 by 2 over the period. */
  lemma SquareAndSaw(x: real, y: real, sin: real -> real)
    requires 0.0 <= x < 1.0 && 0.0 <= y < 1.0
    ensures WaveSample(1, x, sin) == (if x < 0.5 then 1.0 else -1.0)
    ensures WaveSample(2, 0.0, sin) == -1.0 && WaveSample(2, y, sin) - WaveSample(2, x, sin) == 2.0 * (y - x)
  {
  }

  /** The triangle rises from -1 to 1 and falls back to -1; the sine is that of 2 pi times the phase. */
  lemma TriangleAndSine(wave: int, x: real, y: real, sin: real -> real)
    requires wave !in {0, 1, 2} && 0.0 <= x <= 1.0 && 0.0 <= y <= 1.0
    ensures WaveSample(wave, 0.0, sin) == -1.0 && WaveSample(wave, 0.5, sin) == 1.0 && WaveSample(wave, 1.0, sin) == -1.0
    ensures x <= 0.5 && y <= 0.5 ==> WaveSample(wave, y, sin) - WaveSample(wave, x, sin) == 4.0 * (y - x)
    ensures x >= 0.5 && y >= 0.5 ==> WaveSample(wave, y, sin) - WaveSample(wave, x, sin) == -4.0 * (y - x)
    ensures WaveSample(0, x, sin) == sin(x * 6.283185307179586)
  {
  }

  // ---------- the phase ----------

  lemma FractionStep(x: real, step: real)
    requires 0.0 <= step < 1.0
    ensures Fraction(x + step) == Wrap(Fraction(x) + step)
  {
    var f := x.Floor;
    assert f as real <= x < f as real + 1.0;
    assert (x + step).Floor == if Fraction(x) + step >= 1.0 then f + 1 else f;
  }

  /** A voice that sounds goes on sounding until it is let go. */
  predicate Held(v: Voice) {
    v.stage == ATTACK || v.stage == DECAY || v.stage == SUSTAIN
  }

  lemma {:induction false} HeldGoesOn(p: Params, v: Voice, n: nat)
    requires p.sr != 0.0 && Held(v)
    ensures Held(AdvanceN(p, v, n)) && AdvanceN(p, v, n).freq == v.freq && AdvanceN(p, v, n).amp == v.amp
    ensures AdvanceN(p, v, n).wave == v.wave
    decreases n
  {
    if n > 0 {
      HeldGoesOn(p, v, n - 1);
    }
  }

  lemma PhaseFrame(p: Params, v: Voice, x: real, step: real)
    requires p.sr > 0.0 && Held(v) && 0.0 <= step < 1.0 && v.freq / p.sr == step && v.phase == Fraction(x)
    ensures Advance(p, v).phase == Fraction(x + step)
  {
    FractionStep(x, step);
  }

  /** n frames after it was struck a voice is at the fraction of n * freq / sr of its period. */
  lemma {:induction false} PhaseAfter(p: Params, v: Voice, n: nat, step: real)
    requires p.sr > 0.0 && Held(v) && v.phase == 0.0 && 0.0 <= v.freq < p.sr && step == v.freq / p.sr
    ensures AdvanceN(p, v, n).phase == Fraction(Way(n, step))
    decreases n
  {
    PhaseStep(v.freq, p.sr);
    if n > 0 {
      PhaseAfter(p, v, n - 1, step);
      HeldGoesOn(p, v, n - 1);
      WayStep(n - 1, step);
      PhaseFrame(p, AdvanceN(p, v, n - 1), Way(n - 1, step), step);
    } else {
      WayStep(0, step);
      assert Fraction(0.0) == 0.0;
    }
  }

  // ---------- the envelope ----------

  /** The envelope n frames after a key was struck: up to one, down to the level of sustain, and no lower. */
  function Level(p: Params, n: nat): real
    requires p.aRate > 0.0 && p.dRate > 0.0
  {
    var up := Steps(1.0, p.aRate);
    if n < up then Way(n, p.aRate)
    else if 1.0 - Way(n - up, p.dRate) > p.sLevel then 1.0 - Way(n - up, p.dRate) else p.sLevel
  }

  /** A voice whose envelope has come down from one. */
  predicate Fallen(p: Params, w: Voice, env: real, down: real, begun: bool) {
    if begun && env - down <= p.sLevel then w.stage == SUSTAIN && w.env == p.sLevel
    else w.stage == DECAY && w.env == env - down
  }

  lemma FallFrame(p: Params, w: Voice, env: real, down: real, begun: bool)
    requires ParamsOk(p) && Fallen(p, w, env, down, begun) && down >= 0.0
    ensures Fallen(p, Advance(p, w), env, down + p.dRate, true)
  {
  }

  lemma {:induction false} Falling(p: Params, v: Voice, n: nat)
    requires ParamsOk(p) && v.stage == DECAY
    ensures Fallen(p, AdvanceN(p, v, n), v.env, Climb(p.dRate, n), n > 0)
    decreases n
  {
    if n > 0 {
      Falling(p, v, n - 1);
      ClimbUp(p.dRate, n - 1);
      FallFrame(p, AdvanceN(p, v, n - 1), v.env, Climb(p.dRate, n - 1), n > 1);
    }
  }

  /** The decay lasts for the frames that its envelope takes down to the level of sustain, and at least one; then the
      voice stays at that level. */
  lemma DecayLasts(p: Params, v: Voice, n: nat)
    requires ParamsOk(p) && v.stage == DECAY && v.env >= p.sLevel
    ensures AdvanceN(p, v, n).stage == DECAY <==> n == 0 || n < Steps(v.env - p.sLevel, p.dRate)
    ensures AdvanceN(p, v, n).stage != DECAY ==> AdvanceN(p, v, n).stage == SUSTAIN && AdvanceN(p, v, n).env == p.sLevel
  {
    Falling(p, v, n);
    ClimbProduct(p.dRate, n);
    StepsLeast(v.env - p.sLevel, p.dRate, n);
  }

  lemma {:induction false} AdvanceSum(p: Params, v: Voice, a: nat, b: nat, n: nat)
    requires p.sr != 0.0 && n == a + b
    ensures AdvanceN(p, v, n) == AdvanceN(p, AdvanceN(p, v, a), b)
    decreases b
  {
    if b > 0 {
      AdvanceSum(p, v, a, b - 1, n - 1);
    }
  }

  lemma StepsPositive(step: real)
    requires step > 0.0
    ensures Steps(1.0, step) >= 1
  {
    StepsLeast(1.0, step, 0);
  }

  /** At the end of its attack a voice is at one. */
  lemma AttackEnds(p: Params, v: Voice, up: nat)
    requires ParamsOk(p) && v.stage == ATTACK && v.env == 0.0 && up == Steps(1.0, p.aRate)
    ensures AdvanceN(p, v, up).stage == DECAY && AdvanceN(p, v, up).env == 1.0
  {
    StepsPositive(p.aRate);
    Attacking(p, v, up - 1);
    WayStep(up - 1, p.aRate);
    StepsReach(up, p.aRate);
    TopFrame(p, AdvanceN(p, v, up - 1), Way(up - 1, p.aRate));
  }

  lemma StepsReach(up: nat, step: real)
    requires step > 0.0 && up == Steps(1.0, step)
    ensures up >= 1 && Way(up, step) >= 1.0 && Way(up - 1, step) < 1.0
  {
    StepsPositive(step);
    StepsLeast(1.0, step, up);
    StepsLeast(1.0, step, up - 1);
  }

  lemma TopFrame(p: Params, v: Voice, up: real)
    requires ParamsOk(p) && Attacked(v, 0.0, up) && up < 1.0 && up + p.aRate >= 1.0
    ensures Advance(p, v).stage == DECAY && Advance(p, v).env == 1.0
  {
  }

  lemma Rising(p: Params, v: Voice, n: nat)
    requires ParamsOk(p) && v.stage == ATTACK && v.env == 0.0 && n < Steps(1.0, p.aRate)
    ensures AdvanceN(p, v, n).env == Way(n, p.aRate)
  {
    Attacking(p, v, n);
    WayStep(n, p.aRate);
    StepsUnder(n, p.aRate);
    StillRising(p, AdvanceN(p, v, n), Way(n, p.aRate));
  }

  lemma StepsUnder(n: nat, step: real)
    requires step > 0.0 && n < Steps(1.0, step)
    ensures Way(n, step) < 1.0
  {
    StepsLeast(1.0, step, n);
  }

  lemma StillRising(p: Params, w: Voice, up: real)
    requires Attacked(w, 0.0, up) && up < 1.0
    ensures w.env == up
  {
  }

  lemma FallenLevel(p: Params, w: Voice, down: real, begun: bool)
    requires ParamsOk(p) && Fallen(p, w, 1.0, down, begun) && (!begun ==> down == 0.0)
    ensures w.env == if 1.0 - down > p.sLevel then 1.0 - down else p.sLevel
  {
  }

  /** The envelope of a key held down. */
  lemma LevelAfter(p: Params, v: Voice, n: nat)
    requires ParamsOk(p) && v.stage == ATTACK && v.env == 0.0
    ensures AdvanceN(p, v, n).env == Level(p, n)
  {
    StepsPositive(p.aRate);
    var up: nat := Steps(1.0, p.aRate);
    if n < up {
      Rising(p, v, n);
    } else {
      var w, m: nat := AdvanceN(p, v, up), n - up;
      AttackEnds(p, v, up);
      AdvanceSum(p, v, up, m, n);
      Falling(p, w, m);
      WayStep(m, p.dRate);
      FallenLevel(p, AdvanceN(p, v, n), Way(m, p.dRate), m > 0);
    }
  }

  // ---------- the filter ----------

  /** A sample n frames later. */
  function Share(coef: real, n: nat, x: real): real {
    coef * Power(1.0 - coef, n) * x
  }

  /** The sum of the samples, each with the weight coef * (1 - coef)^k of the k-th last one. */
  function Weighted(coef: real, raws: seq<real>): real {
    if raws == [] then 0.0 else Share(coef, |raws| - 1, raws[0]) + Weighted(coef, raws[1..])
  }

  lemma ShareStep(coef: real, n: nat, x: real)
    ensures Share(coef, 0, x) == coef * x && Share(coef, n + 1, x) == Share(coef, n, x) * (1.0 - coef)
  {
    assert Power(1.0 - coef, 0) == 1.0;
    LaterShare(coef, Power(1.0 - coef, n), x, 1.0 - coef);
  }

  lemma LaterShare(coef: real, q: real, x: real, b: real)
    ensures coef * (b * q) * x == coef * q * x * b
  {
  }

  lemma {:induction false} WeightedLater(coef: real, raws: seq<real>, x: real)
    ensures Weighted(coef, raws + [x]) == Filter(Weighted(coef, raws), x, coef)
  {
    if raws == [] {
      assert [] + [x] == [x] && [x][1..] == [];
      ShareStep(coef, 0, x);
      assert Weighted(coef, []) == 0.0 && Weighted(coef, [x]) == Share(coef, 0, x) + Weighted(coef, []);
      OneSample(coef, x, Weighted(coef, [x]));
    } else {
      var a, b, n := Share(coef, |raws| - 1, raws[0]), Weighted(coef, raws[1..]), |raws| - 1;
      assert (raws + [x])[1..] == raws[1..] + [x];
      WeightedLater(coef, raws[1..], x);
      ShareStep(coef, n, raws[0]);
      FilterSums(coef, a, b, x);
    }
  }

  lemma OneSample(coef: real, x: real, w: real)
    requires w == coef * x
    ensures w == Filter(0.0, x, coef)
  {
  }

  lemma FilterSums(coef: real, a: real, b: real, x: real)
    ensures a * (1.0 - coef) + Filter(b, x, coef) == Filter(a + b, x, coef)
  {
  }

  lemma ShareOfOne(coef: real, n: nat)
    ensures Share(coef, n, 1.0) == Power(1.0 - coef, n) - Power(1.0 - coef, n + 1)
  {
    var q := Power(1.0 - coef, n);
    assert Power(1.0 - coef, n + 1) == (1.0 - coef) * q;
  }

  /** A sample of value one, held for n frames. */
  lemma {:induction false} WeightedOnes(coef: real, raws: seq<real>)
    requires forall i | 0 <= i < |raws| :: raws[i] == 1.0
    ensures Weighted(coef, raws) == 1.0 - Power(1.0 - coef, |raws|)
  {
    if raws != [] {
      WeightedOnes(coef, raws[1..]);
      ShareOfOne(coef, |raws| - 1);
    }
  }

  /** The first n samples of a wave that goes on by `step` of its period in each frame. */
  function Raws(wave: int, step: real, sin: real -> real, n: nat): (r: seq<real>)
    ensures |r| == n && forall j: nat | j < n :: r[j] == WaveSample(wave, Fraction(Way(j, step)), sin)
  {
    seq(n, j requires 0 <= j < n => WaveSample(wave, Fraction(Way(j, step)), sin))
  }

  lemma RawsLater(wave: int, step: real, sin: real -> real, n: nat, x: real)
    requires x == WaveSample(wave, Fraction(Way(n, step)), sin)
    ensures Raws(wave, step, sin, n + 1) == Raws(wave, step, sin, n) + [x]
  {
  }

  lemma FilterFrame(p: Params, v: Voice, raws: seq<real>, x: real)
    requires p.sr > 0.0 && Held(v) && v.lpf == Weighted(p.coef, raws) && x == WaveSample(v.wave, v.phase, p.sin)
    ensures Advance(p, v).lpf == Weighted(p.coef, raws + [x])
  {
    WeightedLater(p.coef, raws, x);
  }

  lemma {:induction false} FilterAfter(p: Params, v: Voice, n: nat, step: real)
    requires p.sr > 0.0 && Held(v) && v.phase == 0.0 && v.lpf == 0.0 && 0.0 <= v.freq < p.sr && step == v.freq / p.sr
    ensures AdvanceN(p, v, n).lpf == Weighted(p.coef, Raws(v.wave, step, p.sin, n))
    decreases n
  {
    if n > 0 {
      var m := n - 1;
      FilterAfter(p, v, m, step);
      HeldGoesOn(p, v, m);
      PhaseAfter(p, v, m, step);
      var x := WaveSample(v.wave, Fraction(Way(m, step)), p.sin);
      RawsLater(v.wave, step, p.sin, m, x);
      FilterFrame(p, AdvanceN(p, v, m), Raws(v.wave, step, p.sin, m), x);
    }
  }

  // ---------- one key ----------

  /** The filtered wave, times the amplitude, times the envelope. */
  function Played(wave: real, amp: real, level: real): real {
    wave * amp * level
  }

  /** What a key held down adds in frame k. */
  function Note(p: Params, freq: real, amp: real, wave: int, k: nat): real
    requires p.aRate > 0.0 && p.dRate > 0.0 && p.sr != 0.0
  {
    Played(Weighted(p.coef, Raws(wave, freq / p.sr, p.sin, k + 1)), amp, Level(p, k + 1))
  }

  lemma StruckSounds(p: Params, v: Voice, k: nat)
    requires ParamsOk(p) && 0.0 <= v.freq < p.sr
    requires v.stage == ATTACK && v.env == 0.0 && v.phase == 0.0 && v.lpf == 0.0
    ensures Sound(p, AdvanceN(p, v, k)) == Note(p, v.freq, v.amp, v.wave, k)
  {
    HeldGoesOn(p, v, k);
    FilterAfter(p, v, k + 1, v.freq / p.sr);
    LevelAfter(p, v, k + 1);
    SoundOf(p, AdvanceN(p, v, k), AdvanceN(p, v, k + 1));
  }

  lemma SoundOf(p: Params, v: Voice, w: Voice)
    requires p.sr != 0.0 && Held(v) && w == Advance(p, v)
    ensures Sound(p, v) == Played(w.lpf, v.amp, w.env)
  {
  }

  lemma WayMono(j: nat, k: nat, step: real)
    requires j <= k && step >= 0.0
    ensures 0.0 <= Way(j, step) <= Way(k, step)
  {
    var d := (k - j) as real;
    assert d * step >= 0.0 && j as real * step >= 0.0;
    assert k as real * step == d * step + j as real * step;
  }

  /** For the first half of its first period the square wave is a constant that the filter comes up to. */
  lemma SquareNote(p: Params, freq: real, amp: real, k: nat, step: real, wave: int)
    requires ParamsOk(p) && step == freq / p.sr && 0.0 <= step && Way(k, step) < 0.5 && wave == 1
    ensures Note(p, freq, amp, wave, k) == Played(1.0 - Power(1.0 - p.coef, k + 1), amp, Level(p, k + 1))
  {
    var raws := Raws(wave, step, p.sin, k + 1);
    forall j: nat | j < k + 1
      ensures raws[j] == 1.0
    {
      WayMono(j, k, step);
      FirstHalf(wave, Way(j, step), p.sin);
    }
    WeightedOnes(p.coef, raws);
  }

  lemma FirstHalf(wave: int, x: real, sin: real -> real)
    requires 0.0 <= x < 0.5 && wave == 1
    ensures WaveSample(wave, Fraction(x), sin) == 1.0
  {
    assert x.Floor == 0;
  }

  lemma LevelUp(p: Params, n: nat)
    requires ParamsOk(p) && Way(n, p.aRate) <= 1.0
    ensures Level(p, n) == Way(n, p.aRate)
  {
    StepsPositive(p.aRate);
    var up: nat := Steps(1.0, p.aRate);
    StepsReach(up, p.aRate);
    if n >= up {
      WayMono(up, n, p.aRate);
      if n > up {
        WayStep(up, p.aRate);
        WayMono(up + 1, n, p.aRate);
        assert false;
      }
      WayStep(0, p.dRate);
    }
  }

  /** A key let go: its voice goes into release as it is, if it sounds; nothing else changes. */
  lemma ReleasedVoice(voices: seq<Voice>, slot: int, i: nat)
    requires i < |voices|
    ensures |LetGo(voices, slot)| == |voices|
    ensures LetGo(voices, slot)[i] == if i == slot && voices[i].stage != IDLE then voices[i].(stage := RELEASE) else voices[i]
  {
  }

  // ---------- all voices ----------

  lemma {:induction false} VoicesAfter(p: Params, st: State, n: nat, i: nat)
    requires p.sr != 0.0 && Shape(st) && i < 8
    ensures After(p, st, n).voices[i] == AdvanceN(p, st.voices[i], n)
    decreases n
  {
    if n > 0 {
      VoicesAfter(p, st, n - 1, i);
    }
  }

  lemma {:induction false} IdleStays(p: Params, v: Voice, n: nat)
    requires p.sr != 0.0 && v.stage == IDLE
    ensures AdvanceN(p, v, n) == v
    decreases n
  {
    if n > 0 {
      IdleStays(p, v, n - 1);
    }
  }

  lemma {:induction false} SumFirst(xs: seq<real>, n: nat)
    requires 0 < n <= |xs| && forall i | 0 < i < |xs| :: xs[i] == 0.0
    ensures Sum(xs, n) == xs[0]
    decreases n
  {
    if n > 1 {
      SumFirst(xs, n - 1);
    } else {
      assert Sum(xs, 0) == 0.0;
    }
  }

  /** With one key struck out of silence the mix is its sound. */
  lemma DryOfOne(p: Params, st: State, v: Voice, k: nat)
    requires ParamsOk(p) && Shape(st) && st.voices[0] == v && forall i | 0 < i < 8 :: st.voices[i].stage == IDLE
    ensures Dry(p, After(p, st, k)) == Sound(p, AdvanceN(p, v, k))
  {
    var voices := After(p, st, k).voices;
    var xs := Sounds(p, voices);
    VoicesAfter(p, st, k, 0);
    forall i: nat | 0 < i < 8
      ensures xs[i] == 0.0
    {
      VoicesAfter(p, st, k, i);
      IdleStays(p, st.voices[i], k);
    }
    SumFirst(xs, 8);
  }

  // ---------- the echo ----------

  /** The echoes of a signal: what it was 12000 frames ago, and 0.35 times the echoes of that moment. */
  function Echoes(dry: nat -> real, k: nat): real {
    if k < 12000 then 0.0 else dry(k - 12000) + 0.35 * Echoes(dry, k - 12000)
  }

  ghost predicate Traces(p: Params, st: State, dry: nat -> real)
    requires p.sr != 0.0 && Shape(st)
  {
    forall k: nat :: dry(k) == Dry(p, After(p, st, k))
  }

  lemma NoEchoYet(p: Params, st: State, k: nat)
    requires p.sr != 0.0 && Shape(st) && k < DELAY_LEN && forall i | 0 <= i < DELAY_LEN :: st.ring[i] == 0.0
    ensures Echo(After(p, st, k)) == 0.0
  {
    var q := if st.pos + k < DELAY_LEN then st.pos + k else st.pos + k - DELAY_LEN;
    CellKept(p, st, q, k);
  }

  lemma EchoLap(p: Params, st: State, j: nat, k: nat)
    requires p.sr != 0.0 && Shape(st) && k == j + 12000
    ensures Echo(After(p, st, k)) == Written(p, After(p, st, j))
  {
    EchoDelay(p, st, j);
  }

  lemma EchoesLater(p: Params, st: State, dry: nat -> real, j: nat, k: nat)
    requires p.sr != 0.0 && Shape(st) && Traces(p, st, dry) && k == j + 12000 && Echo(After(p, st, j)) == Echoes(dry, j)
    ensures Echo(After(p, st, k)) == Echoes(dry, k)
  {
    EchoLap(p, st, j, k);
    WrittenIs(p, After(p, st, j), dry(j), Echoes(dry, j));
  }

  /** From an empty ring on, what is read from it is the sum of the echoes. */
  lemma {:induction false} EchoSeries(p: Params, st: State, dry: nat -> real, k: nat)
    requires p.sr != 0.0 && Shape(st) && Traces(p, st, dry) && forall i | 0 <= i < DELAY_LEN :: st.ring[i] == 0.0
    ensures Echo(After(p, st, k)) == Echoes(dry, k)
    decreases k
  {
    if k < 12000 {
      NoEchoYet(p, st, k);
    } else {
      EchoSeries(p, st, dry, k - 12000);
      EchoesLater(p, st, dry, k - 12000, k);
    }
  }

  lemma WrittenIs(p: Params, st: State, dry: real, echo: real)
    requires p.sr != 0.0 && Shape(st) && dry == Dry(p, st) && echo == Echo(st)
    ensures Written(p, st) == dry + 0.35 * echo
    ensures dry + 0.3 * echo > 1.0 ==> Output(p, st) == 1.0
    ensures dry + 0.3 * echo < -1.0 ==> Output(p, st) == -1.0
    ensures -1.0 <= dry + 0.3 * echo <= 1.0 ==> Output(p, st) == dry + 0.3 * echo
  {
  }

  // ---------- what is heard ----------

  lemma {:induction false} HeardAt(p: Params, st: State, n: nat, k: nat)
    requires p.sr != 0.0 && Shape(st) && k < n
    ensures Heard(p, st, n)[2 * k] == Heard(p, st, n)[2 * k + 1] == Output(p, After(p, st, k))
    decreases n
  {
    if k < n - 1 {
      HeardAt(p, st, n - 1, k);
    }
  }

  /** The loudspeaker plays what lies between -1 and 1. */
  predicate Plays(sample: real, x: real) {
    sample == if x > 1.0 then 1.0 else if x < -1.0 then -1.0 else x
  }

  /** Every sample of rendering from an empty ring: the sum of the voices and 0.3 of its echoes. */
  lemma SamplesHeard(p: Params, st: State, dry: nat -> real, n: nat, k: nat)
    requires p.sr != 0.0 && Shape(st) && Traces(p, st, dry) && forall i | 0 <= i < DELAY_LEN :: st.ring[i] == 0.0
    requires k < n
    ensures Plays(Heard(p, st, n)[2 * k], dry(k) + 0.3 * Echoes(dry, k))
    ensures Plays(Heard(p, st, n)[2 * k + 1], dry(k) + 0.3 * Echoes(dry, k))
  {
    HeardAt(p, st, n, k);
    EchoSeries(p, st, dry, k);
    WrittenIs(p, After(p, st, k), dry(k), Echoes(dry, k));
  }

  /** A session of one key struck out of silence and held. */
  lemma StruckState(p: Params, st: State, freq: real, amp: real, wave: int, r: State)
    requires p.sr != 0.0 && Silent(st) && r == Run(p, st, [NoteOn(freq, amp, wave)])
    ensures r.ring == st.ring && |r.voices| == 8 && r.voices[0] == Voice(freq, 0.0, amp, wave, ATTACK, 0.0, 0.0)
    ensures forall i | 0 < i < 8 :: r.voices[i].stage == IDLE
  {
    var e := NoteOn(freq, amp, wave);
    assert [e][..0] == [];
    assert Run(p, st, []) == st;
    assert FirstIdle(st.voices) == 0;
  }

  /** Every sample of a key struck out of silence and held. */
  lemma KeyHeard(p: Params, st: State, freq: real, amp: real, wave: int, n: nat, k: nat)
    requires ParamsOk(p) && Silent(st) && 0.0 <= freq < p.sr && k < n
    ensures var note: nat -> real := (j: nat) => Note(p, freq, amp, wave, j);
            var samples := Heard(p, Run(p, st, [NoteOn(freq, amp, wave)]), n);
            && Plays(samples[2 * k], note(k) + 0.3 * Echoes(note, k))
            && Plays(samples[2 * k + 1], note(k) + 0.3 * Echoes(note, k))
  {
    var r := Run(p, st, [NoteOn(freq, amp, wave)]);
    var note: nat -> real := (j: nat) => Note(p, freq, amp, wave, j);
    StruckState(p, st, freq, amp, wave, r);
    var v := Voice(freq, 0.0, amp, wave, ATTACK, 0.0, 0.0);
    forall j: nat
      ensures note(j) == Dry(p, After(p, r, j))
    {
      DryOfOne(p, r, v, j);
      StruckSounds(p, v, j);
    }
    SamplesHeard(p, r, note, n, k);
  }

  /** A square wave struck out of silence, before its first fall, the end of its attack and its first echo. */
  lemma SquareHeard(p: Params, st: State, freq: real, amp: real, n: nat, k: nat, x: real)
    requires ParamsOk(p) && Silent(st) && 0.0 <= freq < p.sr && k < n && k < 12000
    requires Way(k, freq / p.sr) < 0.5 && Way(k + 1, p.aRate) <= 1.0
    requires x == Played(1.0 - Power(1.0 - p.coef, k + 1), amp, Way(k + 1, p.aRate))
    ensures var samples := Heard(p, Run(p, st, [NoteOn(freq, amp, 1)]), n);
            Plays(samples[2 * k], x) && Plays(samples[2 * k + 1], x)
  {
    PhaseStep(freq, p.sr);
    KeyHeard(p, st, freq, amp, 1, n, k);
    SquareNote(p, freq, amp, k, freq / p.sr, 1);
    LevelUp(p, k + 1);
  }
}
