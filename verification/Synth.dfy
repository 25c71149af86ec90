/** The polyphonic synthesizer: voices with an attack-decay-sustain-release envelope and a one-pole filter,
    and an echo through a ring of past samples. Audio is over the reals. */
module Synth {
  import opened Reals

  // ---------- one voice ----------

  const IDLE := 0
  const ATTACK := 1
  const DECAY := 2
  const SUSTAIN := 3
  const RELEASE := 4

  datatype Voice = Voice(freq: real, phase: real, amp: real, wave: int, stage: nat, env: real, lpf: real)

  /** The rates per frame, the sustain level, the filter coefficient, the sine and the sample rate. */
  datatype Params = Params(aRate: real, dRate: real, sLevel: real, rRate: real, coef: real, sin: real -> real, sr: real)

  const TWO_PI := 6.283185307179586

  function WaveSample(wave: int, phase: real, sin: real -> real): real {
    if wave == 0 then sin(phase * TWO_PI)
    else if wave == 1 then if phase < 0.5 then 1.0 else -1.0
    else if wave == 2 then 2.0 * phase - 1.0
    else if phase < 0.5 then 4.0 * phase - 1.0 else 3.0 - 4.0 * phase
  }

  function Filter(lpf: real, raw: real, coef: real): real {
    lpf + (raw - lpf) * coef
  }

  function Wrap(phase: real): real {
    if phase >= 1.0 then phase - 1.0 else phase
  }

  /** Stage and envelope one frame later. */
  function Envelope(p: Params, stage: nat, env: real): (nat, real) {
    if stage == ATTACK then if env + p.aRate >= 1.0 then (DECAY, 1.0) else (stage, env + p.aRate)
    else if stage == DECAY then if env - p.dRate <= p.sLevel then (SUSTAIN, p.sLevel) else (stage, env - p.dRate)
    else if stage == RELEASE then if env - p.rRate <= 0.0 then (IDLE, 0.0) else (stage, env - p.rRate)
    else (stage, env)
  }

  /** A voice one frame later; an idle voice stands still. */
  function Advance(p: Params, v: Voice): Voice
    requires p.sr != 0.0
  {
    if v.stage == IDLE then v
    else
      var (stage, env) := Envelope(p, v.stage, v.env);
      v.(stage := stage, env := env,
         lpf := Filter(v.lpf, WaveSample(v.wave, v.phase, p.sin), p.coef),
         phase := Wrap(v.phase + v.freq / p.sr))
  }

  /** What a voice adds to a frame. */
  function Sound(p: Params, v: Voice): real
    requires p.sr != 0.0
  {
    if v.stage == IDLE then 0.0 else var w := Advance(p, v); w.lpf * v.amp * w.env
  }

  ghost predicate Sine(sin: real -> real) {
    forall x: real :: -1.0 <= sin(x) <= 1.0
  }

  ghost predicate ParamsOk(p: Params) {
    && p.aRate > 0.0 && p.dRate > 0.0 && p.rRate > 0.0 && 0.0 <= p.sLevel <= 1.0 && 0.0 <= p.coef <= 1.0
    && Sine(p.sin) && p.sr > 0.0
  }

  /** The range of the envelope in each stage. */
  predicate StageOk(p: Params, stage: nat, env: real) {
    && stage <= RELEASE && 0.0 <= env <= 1.0
    && (stage == ATTACK ==> env < 1.0) && (stage == DECAY ==> p.sLevel <= env) && (stage == SUSTAIN ==> env == p.sLevel)
  }

  predicate VoiceOk(p: Params, v: Voice) {
    && StageOk(p, v.stage, v.env) && 0.0 <= v.phase < 1.0 && -1.0 <= v.lpf <= 1.0 && 0.0 <= v.freq < p.sr
  }

  lemma WaveRange(wave: int, phase: real, sin: real -> real)
    requires Sine(sin) && 0.0 <= phase <= 1.0
    ensures -1.0 <= WaveSample(wave, phase, sin) <= 1.0
  {
    assert -1.0 <= sin(phase * TWO_PI) <= 1.0;
  }

  lemma NonNegative(a: real, b: real)
    requires a >= 0.0 && b >= 0.0
    ensures a * b >= 0.0
  {
  }

  lemma Scaled(x: real, c: real)
    requires -1.0 <= x <= 1.0 && 0.0 <= c
    ensures -c <= x * c <= c
  {
    NonNegative(1.0 + x, c);
    NonNegative(1.0 - x, c);
    assert (1.0 + x) * c == c + x * c;
    assert (1.0 - x) * c == c - x * c;
  }

  lemma Remainder(x: real, c: real)
    requires -1.0 <= x <= 1.0 && c <= 1.0
    ensures -(1.0 - c) <= x - x * c <= 1.0 - c
  {
    NonNegative(1.0 + x, 1.0 - c);
    NonNegative(1.0 - x, 1.0 - c);
    assert (1.0 + x) * (1.0 - c) == 1.0 - c + x - x * c;
    assert (1.0 - x) * (1.0 - c) == 1.0 - c - x + x * c;
  }

  lemma FilterForm(lpf: real, raw: real, coef: real)
    ensures Filter(lpf, raw, coef) == (lpf - lpf * coef) + raw * coef
  {
  }

  lemma FilterRange(lpf: real, raw: real, coef: real)
    requires -1.0 <= lpf <= 1.0 && -1.0 <= raw <= 1.0 && 0.0 <= coef <= 1.0
    ensures -1.0 <= Filter(lpf, raw, coef) <= 1.0
  {
    FilterForm(lpf, raw, coef);
    Remainder(lpf, coef);
    Scaled(raw, coef);
    SumRange(lpf - lpf * coef, raw * coef, coef, Filter(lpf, raw, coef));
  }

  lemma SumRange(x: real, y: real, c: real, sum: real)
    requires -(1.0 - c) <= x <= 1.0 - c && -c <= y <= c && sum == x + y
    ensures -1.0 <= sum <= 1.0
  {
  }

  lemma PhaseStep(freq: real, sr: real)
    requires 0.0 <= freq < sr
    ensures 0.0 <= freq / sr < 1.0
  {
  }

  /** A frame keeps every range: envelope by stage, filter state, phase. */
  lemma AdvanceKeeps(p: Params, v: Voice)
    requires ParamsOk(p) && VoiceOk(p, v)
    ensures VoiceOk(p, Advance(p, v))
  {
    WaveRange(v.wave, v.phase, p.sin);
    FilterRange(v.lpf, WaveSample(v.wave, v.phase, p.sin), p.coef);
    PhaseStep(v.freq, p.sr);
  }

  lemma AbsWithin(y: real, a: real)
    requires -a <= y <= a
    ensures Abs(y) <= a
  {
  }

  lemma ProductBound(c: real, x: real, y: real)
    requires -1.0 <= c <= 1.0 && y == c * x
    ensures Abs(y) <= Abs(x)
  {
    if x < 0.0 {
      Scaled(c, -x);
      assert c * -x == -y;
      AbsWithin(y, -x);
    } else {
      Scaled(c, x);
      AbsWithin(y, x);
    }
  }

  lemma Loudness(lpf: real, amp: real, env: real)
    requires -1.0 <= lpf <= 1.0 && 0.0 <= env <= 1.0
    ensures Abs(lpf * amp * env) <= Abs(amp)
  {
    var x := lpf * amp;
    ProductBound(lpf, amp, x);
    ProductBound(env, x, x * env);
  }

  lemma SoundForm(p: Params, v: Voice, w: Voice)
    requires p.sr != 0.0 && w == Advance(p, v) && w.env <= 1.0 && w.env >= 0.0 && -1.0 <= w.lpf <= 1.0
    ensures Abs(Sound(p, v)) <= Abs(v.amp)
  {
    Loudness(w.lpf, v.amp, w.env);
    assert Sound(p, v) == 0.0 || Sound(p, v) == w.lpf * v.amp * w.env;
  }

  /** A voice is never louder than its amplitude. */
  lemma SoundBound(p: Params, v: Voice)
    requires ParamsOk(p) && VoiceOk(p, v)
    ensures Abs(Sound(p, v)) <= Abs(v.amp)
  {
    AdvanceKeeps(p, v);
    SoundForm(p, v, Advance(p, v));
  }

  // ---------- how long the stages last ----------

  /** A voice n frames later. */
  function AdvanceN(p: Params, v: Voice, n: nat): Voice
    requires p.sr != 0.0
    decreases n
  {
    if n == 0 then v else Advance(p, AdvanceN(p, v, n - 1))
  }

  /** The least number of frames in which steps of the given size cover a distance. */
  function Steps(distance: real, step: real): int
    requires step > 0.0
  {
    -((-(distance / step)).Floor)
  }

  lemma StepsLeast(distance: real, step: real, n: nat)
    requires step > 0.0
    ensures n >= Steps(distance, step) <==> n as real * step >= distance
  {
    var q := distance / step;
    assert q * step == distance;
    assert n as real * step >= distance <==> n as real >= q;
    assert n >= Steps(distance, step) <==> n as real >= q;
  }

  /** The sum of n equal steps. */
  function Climb(step: real, n: nat): real {
    if n == 0 then 0.0 else Climb(step, n - 1) + step
  }

  lemma {:induction false} ClimbProduct(step: real, n: nat)
    ensures Climb(step, n) == n as real * step
  {
    if n > 0 {
      ClimbProduct(step, n - 1);
      assert (n as real - 1.0) * step == n as real * step - step;
    }
  }

  lemma {:induction false} ClimbUp(step: real, n: nat)
    requires step >= 0.0
    ensures Climb(step, n) >= 0.0
  {
    if n > 0 {
      ClimbUp(step, n - 1);
    }
  }

  /** A released voice that has come down by some way from its envelope. */
  predicate Released(w: Voice, env: real, down: real, begun: bool) {
    if begun && down >= env then w.stage == IDLE else w.stage == RELEASE && w.env == env - down
  }

  lemma ReleaseFrame(p: Params, w: Voice, env: real, down: real, begun: bool)
    requires ParamsOk(p) && down >= 0.0 && Released(w, env, down, begun)
    ensures Released(Advance(p, w), env, down + p.rRate, true)
  {
  }

  lemma {:induction false} Releasing(p: Params, v: Voice, n: nat)
    requires ParamsOk(p) && v.stage == RELEASE
    ensures Released(AdvanceN(p, v, n), v.env, Climb(p.rRate, n), n > 0)
  {
    if n > 0 {
      Releasing(p, v, n - 1);
      ClimbUp(p.rRate, n - 1);
      ReleaseFrame(p, AdvanceN(p, v, n - 1), v.env, Climb(p.rRate, n - 1), n > 1);
    }
  }

  /** A released voice is idle from exactly the first frame that brings its envelope to zero, and not before
      one frame has passed. */
  lemma ReleaseLasts(p: Params, v: Voice, n: nat)
    requires ParamsOk(p) && v.stage == RELEASE && v.env >= 0.0
    ensures AdvanceN(p, v, n).stage == IDLE <==> n >= 1 && n >= Steps(v.env, p.rRate)
  {
    Releasing(p, v, n);
    ClimbProduct(p.rRate, n);
    StepsLeast(v.env, p.rRate, n);
  }

  /** A released voice is idle after the frames its envelope takes down to zero exactly when the envelope was
      not at zero already: from zero it still takes one frame. */
  lemma ReleaseBound(p: Params, v: Voice)
    requires ParamsOk(p) && v.stage == RELEASE && v.env >= 0.0
    ensures Steps(v.env, p.rRate) >= 0
    ensures AdvanceN(p, v, Steps(v.env, p.rRate)).stage == IDLE <==> v.env > 0.0
  {
    StepsLeast(v.env, p.rRate, 0);
    var q := v.env / p.rRate;
    assert q >= 0.0;
    assert Steps(v.env, p.rRate) >= 0;
    ReleaseLasts(p, v, Steps(v.env, p.rRate));
  }

  /** From zero it takes one frame more: a voice let go in the frame it was struck. */
  lemma ReleaseFromZero(p: Params, v: Voice)
    requires ParamsOk(p) && v.stage == RELEASE && v.env == 0.0
    ensures Steps(v.env, p.rRate) == 0 && AdvanceN(p, v, 0).stage == RELEASE && AdvanceN(p, v, 1).stage == IDLE
  {
    ReleaseBound(p, v);
    StepsLeast(v.env, p.rRate, 0);
    ReleaseLasts(p, v, 0);
    ReleaseLasts(p, v, 1);
  }

  predicate Attacked(w: Voice, env: real, up: real) {
    if up >= 1.0 - env then w.stage == DECAY || w.stage == SUSTAIN else w.stage == ATTACK && w.env == env + up
  }

  lemma AttackFrame(p: Params, w: Voice, env: real, up: real)
    requires ParamsOk(p) && Attacked(w, env, up)
    ensures Attacked(Advance(p, w), env, up + p.aRate)
  {
  }

  lemma {:induction false} Attacking(p: Params, v: Voice, n: nat)
    requires ParamsOk(p) && v.stage == ATTACK && v.env < 1.0
    ensures Attacked(AdvanceN(p, v, n), v.env, Climb(p.aRate, n))
  {
    if n > 0 {
      Attacking(p, v, n - 1);
      AttackFrame(p, AdvanceN(p, v, n - 1), v.env, Climb(p.aRate, n - 1));
    }
  }

  /** A voice is in its attack for exactly as many frames as the envelope takes to reach one; then it stays in
      decay and sustain until it is let go. */
  lemma AttackLasts(p: Params, v: Voice, n: nat)
    requires ParamsOk(p) && v.stage == ATTACK && v.env < 1.0
    ensures AdvanceN(p, v, n).stage == ATTACK <==> n < Steps(1.0 - v.env, p.aRate)
    ensures n >= Steps(1.0 - v.env, p.aRate) ==> AdvanceN(p, v, n).stage in {DECAY, SUSTAIN}
  {
    Attacking(p, v, n);
    ClimbProduct(p.aRate, n);
    StepsLeast(1.0 - v.env, p.aRate, n);
  }

  // ---------- all voices, and the echo ----------

  const MAX := 8
  const DELAY_LEN := 12000
  const FEEDBACK := 0.35
  const DELAY_MIX := 0.3

  /** The voices, the ring of past samples, and where in it the next frame reads and writes. */
  datatype State = State(voices: seq<Voice>, ring: seq<real>, pos: nat)

  predicate Shape(st: State) {
    |st.voices| == MAX && |st.ring| == DELAY_LEN && st.pos < DELAY_LEN
  }

  function Sounds(p: Params, voices: seq<Voice>): (r: seq<real>)
    requires p.sr != 0.0
    ensures |r| == |voices| && forall i | 0 <= i < |voices| :: r[i] == Sound(p, voices[i])
  {
    seq(|voices|, i requires 0 <= i < |voices| => Sound(p, voices[i]))
  }

  /** The sum of the first n samples. */
  function Sum(xs: seq<real>, n: nat): real
    requires n <= |xs|
  {
    if n == 0 then 0.0 else Sum(xs, n - 1) + xs[n - 1]
  }

  function AllAdvanced(p: Params, voices: seq<Voice>): (r: seq<Voice>)
    requires p.sr != 0.0
    ensures |r| == |voices| && forall i | 0 <= i < |voices| :: r[i] == Advance(p, voices[i])
  {
    seq(|voices|, i requires 0 <= i < |voices| => Advance(p, voices[i]))
  }

  function Dry(p: Params, st: State): real
    requires p.sr != 0.0
  {
    Sum(Sounds(p, st.voices), |st.voices|)
  }

  /** The sample read from the ring in the next frame. */
  function Echo(st: State): real
    requires Shape(st)
  {
    st.ring[st.pos]
  }

  /** The sample written to the ring in the next frame. */
  function Written(p: Params, st: State): real
    requires p.sr != 0.0 && Shape(st)
  {
    Dry(p, st) + Echo(st) * FEEDBACK
  }

  function Clip(x: real): (r: real)
    ensures -1.0 <= r <= 1.0
  {
    if x > 1.0 then 1.0 else if x < -1.0 then -1.0 else x
  }

  /** The sample heard in the next frame. */
  function Output(p: Params, st: State): real
    requires p.sr != 0.0 && Shape(st)
  {
    Clip(Dry(p, st) + Echo(st) * DELAY_MIX)
  }

  function NextPos(pos: nat): (r: nat)
    requires pos < DELAY_LEN
    ensures r < DELAY_LEN
  {
    if pos + 1 >= DELAY_LEN then 0 else pos + 1
  }

  function Frame(p: Params, st: State): (r: State)
    requires p.sr != 0.0 && Shape(st)
    ensures Shape(r)
  {
    State(AllAdvanced(p, st.voices), st.ring[st.pos := Written(p, st)], NextPos(st.pos))
  }

  function After(p: Params, st: State, n: nat): (r: State)
    requires p.sr != 0.0 && Shape(st)
    ensures Shape(r)
    decreases n
  {
    if n == 0 then st else Frame(p, After(p, st, n - 1))
  }

  /** What is heard in n frames from a state on: every frame gives two equal samples. */
  function Heard(p: Params, st: State, n: nat): (r: seq<real>)
    requires p.sr != 0.0 && Shape(st)
    ensures |r| == 2 * n
    decreases n
  {
    if n == 0 then [] else var v := Output(p, After(p, st, n - 1)); Heard(p, st, n - 1) + [v, v]
  }

  /** Frames until the ring position comes to q. */
  function Gap(pos: nat, q: nat): (g: nat)
    requires pos < DELAY_LEN && q < DELAY_LEN
    ensures g < DELAY_LEN && (g == 0 <==> pos == q)
  {
    if pos <= q then q - pos else q + DELAY_LEN - pos
  }

  /** Until its turn comes a cell of the ring keeps its sample. */
  lemma {:induction false} CellKept(p: Params, st: State, q: nat, n: nat)
    requires p.sr != 0.0 && Shape(st) && q < DELAY_LEN && n <= Gap(st.pos, q)
    ensures After(p, st, n).ring[q] == st.ring[q] && Gap(After(p, st, n).pos, q) == Gap(st.pos, q) - n
    decreases n
  {
    if n > 0 {
      CellKept(p, st, q, n - 1);
    }
  }

  lemma {:induction false} AfterSum(p: Params, st: State, a: nat, b: nat, n: nat)
    requires p.sr != 0.0 && Shape(st) && n == a + b
    ensures After(p, st, n) == After(p, After(p, st, a), b)
    decreases b
  {
    if b > 0 {
      AfterSum(p, st, a, b - 1, n - 1);
    }
  }

  /** The sample read in any frame is the one written exactly DELAY_LEN frames before. */
  lemma EchoDelay(p: Params, st: State, n: nat)
    requires p.sr != 0.0 && Shape(st)
    ensures Echo(After(p, st, n + DELAY_LEN)) == Written(p, After(p, st, n))
  {
    var a := After(p, st, n);
    var b := Frame(p, a);
    var lap := DELAY_LEN - 1;
    AfterSum(p, st, n, 1, n + 1);
    AfterOne(p, a);
    AfterSum(p, st, n + 1, lap, n + DELAY_LEN);
    CellKept(p, b, a.pos, lap);
    assert n + 1 + lap == n + DELAY_LEN;
  }

  lemma AfterOne(p: Params, st: State)
    requires p.sr != 0.0 && Shape(st)
    ensures After(p, st, 1) == Frame(p, st)
  {
    assert After(p, st, 0) == st;
  }

  ghost predicate VoicesOk(p: Params, voices: seq<Voice>, loud: real) {
    forall i | 0 <= i < |voices| :: VoiceOk(p, voices[i]) && Abs(voices[i].amp) <= loud
  }

  lemma {:induction false} SumBound(xs: seq<real>, n: nat, loud: real)
    requires n <= |xs| && forall i | 0 <= i < |xs| :: Abs(xs[i]) <= loud
    ensures Abs(Sum(xs, n)) <= Climb(loud, n)
    decreases n
  {
    if n > 0 {
      SumBound(xs, n - 1, loud);
      AbsSum(Sum(xs, n - 1), xs[n - 1], Climb(loud, n - 1), loud, Sum(xs, n), Climb(loud, n));
    }
  }

  lemma SoundsBound(p: Params, voices: seq<Voice>, loud: real)
    requires ParamsOk(p) && VoicesOk(p, voices, loud)
    ensures forall i | 0 <= i < |voices| :: Abs(Sounds(p, voices)[i]) <= loud
  {
    forall i | 0 <= i < |voices|
      ensures Abs(Sounds(p, voices)[i]) <= loud
    {
      SoundBound(p, voices[i]);
    }
  }

  lemma AbsSum(x: real, y: real, a: real, b: real, sum: real, total: real)
    requires Abs(x) <= a && Abs(y) <= b && sum == x + y && total == a + b
    ensures Abs(sum) <= total
  {
  }

  /** No sample of the ring is beyond m / (1 - 0.35). */
  ghost predicate RingOk(ring: seq<real>, m: real) {
    forall i | 0 <= i < |ring| :: Abs(ring[i]) * (1.0 - FEEDBACK) <= m
  }

  lemma EchoBound(mix: real, echo: real, m: real)
    requires Abs(mix) <= m && Abs(echo) * (1.0 - FEEDBACK) <= m
    ensures Abs(mix + echo * FEEDBACK) * (1.0 - FEEDBACK) <= m
  {
  }

  /** A frame whose mix stays within m keeps the ring within m / (1 - 0.35). */
  lemma FrameRing(p: Params, st: State, m: real)
    requires p.sr != 0.0 && Shape(st) && RingOk(st.ring, m) && Abs(Dry(p, st)) <= m
    ensures RingOk(Frame(p, st).ring, m)
  {
    EchoBound(Dry(p, st), Echo(st), m);
  }

  // ---------- whole sessions ----------

  /** The first idle voice, or -1. */
  function FirstIdle(voices: seq<Voice>): (i: int)
    ensures -1 <= i < |voices|
    ensures i >= 0 ==> voices[i].stage == IDLE
    ensures forall k | 0 <= k < |voices| && (k < i || i < 0) :: voices[k].stage != IDLE
  {
    if voices == [] then -1
    else if voices[0].stage == IDLE then 0
    else
      var i := FirstIdle(voices[1..]);
      assert forall k | 0 < k < |voices| :: voices[k] == voices[1..][k - 1];
      if i < 0 then -1 else i + 1
  }

  function Struck(voices: seq<Voice>, freq: real, amp: real, wave: int): seq<Voice> {
    var i := FirstIdle(voices);
    if i < 0 then voices else voices[i := Voice(freq, 0.0, amp, wave, ATTACK, 0.0, 0.0)]
  }

  function LetGo(voices: seq<Voice>, slot: int): seq<Voice> {
    if 0 <= slot < |voices| && voices[slot].stage != IDLE
    then voices[slot := voices[slot].(stage := RELEASE)] else voices
  }

  datatype Event = NoteOn(freq: real, amp: real, wave: int) | NoteOff(slot: int) | Render(frames: nat)

  function Next(p: Params, st: State, e: Event): (r: State)
    requires p.sr != 0.0 && Shape(st)
    ensures Shape(r)
  {
    match e
    case NoteOn(freq, amp, wave) => st.(voices := Struck(st.voices, freq, amp, wave))
    case NoteOff(slot) => st.(voices := LetGo(st.voices, slot))
    case Render(frames) => After(p, st, frames)
  }

  function Run(p: Params, st: State, es: seq<Event>): (r: State)
    requires p.sr != 0.0 && Shape(st)
    ensures Shape(r)
  {
    if es == [] then st else Next(p, Run(p, st, es[..|es| - 1]), es[|es| - 1])
  }

  function Frames(es: seq<Event>): nat {
    if es == [] then 0
    else Frames(es[..|es| - 1]) + if es[|es| - 1].Render? then es[|es| - 1].frames else 0
  }

  lemma {:induction false} SessionCellKept(p: Params, st: State, es: seq<Event>, q: nat)
    requires p.sr != 0.0 && Shape(st) && q < DELAY_LEN && Frames(es) <= Gap(st.pos, q)
    ensures var r := Run(p, st, es); r.ring[q] == st.ring[q] && Gap(r.pos, q) == Gap(st.pos, q) - Frames(es)
  {
    if es != [] {
      var before, e := es[..|es| - 1], es[|es| - 1];
      SessionCellKept(p, st, before, q);
      if e.Render? {
        CellKept(p, Run(p, st, before), q, e.frames);
      }
    }
  }

  /** Also with notes struck and let go in between, what a frame writes is what is read DELAY_LEN frames later. */
  lemma SessionEcho(p: Params, st: State, es: seq<Event>)
    requires p.sr != 0.0 && Shape(st) && Frames(es) == DELAY_LEN - 1
    ensures Echo(Run(p, Frame(p, st), es)) == Written(p, st)
  {
    SessionCellKept(p, Frame(p, st), es, st.pos);
  }

  /** Every voice in its ranges and the ring bounded for MAX voices of the given loudness. */
  ghost predicate StateOk(p: Params, st: State, loud: real) {
    Shape(st) && VoicesOk(p, st.voices, loud) && RingOk(st.ring, MAX as real * loud)
  }

  lemma FrameKeeps(p: Params, st: State, loud: real)
    requires ParamsOk(p) && StateOk(p, st, loud)
    ensures StateOk(p, Frame(p, st), loud)
  {
    forall i | 0 <= i < |st.voices|
      ensures VoiceOk(p, Advance(p, st.voices[i])) && Abs(Advance(p, st.voices[i]).amp) <= loud
    {
      AdvanceKeeps(p, st.voices[i]);
    }
    SoundsBound(p, st.voices, loud);
    SumBound(Sounds(p, st.voices), |st.voices|, loud);
    ClimbProduct(loud, |st.voices|);
    FrameRing(p, st, MAX as real * loud);
  }

  lemma {:induction false} AfterKeeps(p: Params, st: State, n: nat, loud: real)
    requires ParamsOk(p) && StateOk(p, st, loud)
    ensures StateOk(p, After(p, st, n), loud)
    decreases n
  {
    if n > 0 {
      AfterKeeps(p, st, n - 1, loud);
      FrameKeeps(p, After(p, st, n - 1), loud);
    }
  }

  /** Notes below the sample rate and no louder than loud. */
  predicate Playable(p: Params, es: seq<Event>, loud: real) {
    forall e | e in es && e.NoteOn? :: 0.0 <= e.freq < p.sr && Abs(e.amp) <= loud
  }

  /** In every state of every session the envelopes are in the range of their stage, the filters within one,
      the phases in [0, 1), and the ring within MAX * loud / (1 - 0.35). */
  lemma {:induction false} SessionKeeps(p: Params, st: State, es: seq<Event>, loud: real)
    requires ParamsOk(p) && StateOk(p, st, loud) && Playable(p, es, loud)
    ensures StateOk(p, Run(p, st, es), loud)
  {
    if es != [] {
      var before, e := Run(p, st, es[..|es| - 1]), es[|es| - 1];
      SessionKeeps(p, st, es[..|es| - 1], loud);
      match e
      case NoteOn(freq, amp, wave) => assert e in es && e.NoteOn?;
      case NoteOff(slot) =>
      case Render(frames) => AfterKeeps(p, before, frames, loud);
    }
  }

  const QUIET := Voice(0.0, 0.0, 0.0, 0, IDLE, 0.0, 0.0)

  /** Where every session starts: idle voices and an empty ring. */
  predicate Silent(st: State) {
    && Shape(st) && st.pos == 0 && (forall i | 0 <= i < MAX :: st.voices[i] == QUIET)
    && forall i | 0 <= i < DELAY_LEN :: st.ring[i] == 0.0
  }

  /** So all of this holds in every session from the start. */
  lemma SessionFromSilence(p: Params, st: State, es: seq<Event>, loud: real)
    requires ParamsOk(p) && Silent(st) && Playable(p, es, loud) && loud >= 0.0
    ensures StateOk(p, st, loud) && StateOk(p, Run(p, st, es), loud)
  {
    SessionKeeps(p, st, es, loud);
  }

  /** The rendering buffer of the program, of block * channels samples, has room for the two samples of every
      frame of a whole block exactly from two channels on. */
  lemma BlockFits(block: nat, channels: nat)
    requires block > 0
    ensures 2 * block <= block * channels <==> channels >= 2
  {
    if channels >= 2 {
      assert block * (channels - 2) >= 0;
    } else {
      assert block * channels <= block;
    }
  }

  // ---------- the engine in place ----------

  class Synth {
    const voices: array<Voice>
    const ring: array<real>
    var pos: nat

    ghost predicate Valid()
      reads this
    {
      voices.Length == MAX && ring.Length == DELAY_LEN && pos < DELAY_LEN
    }

    ghost function View(): (st: State)
      reads this, voices, ring
      requires Valid()
      ensures Shape(st)
    {
      State(voices[..], ring[..], pos)
    }

    constructor ()
      ensures Valid() && fresh(voices) && fresh(ring) && Silent(View())
    {
      voices := new Voice[MAX](_ => QUIET);
      ring := new real[DELAY_LEN](_ => 0.0);
      pos := 0;
    }

    /** The slot taken is the first idle one; with none idle the note is dropped. */
    method NoteOn(freq: real, amp: real, wave: int) returns (slot: int)
      requires Valid()
      modifies voices
      ensures Valid() && slot == FirstIdle(old(voices[..]))
      ensures voices[..] == Struck(old(voices[..]), freq, amp, wave)
    {
      ghost var vs := voices[..];
      var i := 0;
      while i < MAX
        invariant 0 <= i <= MAX && voices[..] == vs && |vs| == MAX
        invariant forall k | 0 <= k < i :: vs[k].stage != IDLE
      {
        if voices[i].stage == IDLE {
          assert vs[i].stage == IDLE;
          voices[i] := Voice(freq, 0.0, amp, wave, ATTACK, 0.0, 0.0);
          return i;
        }
        i := i + 1;
      }
      return -1;
    }

    method NoteOff(slot: int)
      requires Valid()
      modifies voices
      ensures Valid() && voices[..] == LetGo(old(voices[..]), slot)
    {
      if slot >= 0 && slot < MAX && voices[slot].stage != IDLE {
        voices[slot] := voices[slot].(stage := RELEASE);
      }
    }

    /** One frame of a voice that is not idle: envelope, oscillator, filter, phase. */
    static method AdvanceVoice(p: Params, v: Voice) returns (w: Voice, sound: real)
      requires p.sr != 0.0 && v.stage != IDLE
      ensures w == Advance(p, v) && sound == Sound(p, v)
    {
      w := v;
      if w.stage == ATTACK {
        w := w.(env := w.env + p.aRate);
        if w.env >= 1.0 { w := w.(env := 1.0, stage := DECAY); }
      } else if w.stage == DECAY {
        w := w.(env := w.env - p.dRate);
        if w.env <= p.sLevel { w := w.(env := p.sLevel, stage := SUSTAIN); }
      } else if w.stage == RELEASE {
        w := w.(env := w.env - p.rRate);
        if w.env <= 0.0 { w := w.(env := 0.0, stage := IDLE); }
      }
      var raw := WaveSample(w.wave, w.phase, p.sin);
      w := w.(lpf := w.lpf + (raw - w.lpf) * p.coef);
      sound := w.lpf * w.amp * w.env;
      w := w.(phase := w.phase + w.freq / p.sr);
      if w.phase >= 1.0 { w := w.(phase := w.phase - 1.0); }
    }

    /** One frame of every voice, summed. */
    method MixFrame(p: Params) returns (mix: real)
      requires Valid() && p.sr != 0.0
      modifies voices
      ensures Valid() && mix == Sum(Sounds(p, old(voices[..])), MAX) && voices[..] == AllAdvanced(p, old(voices[..]))
    {
      ghost var vs := voices[..];
      ghost var sounds, all := Sounds(p, vs), AllAdvanced(p, vs);
      mix := 0.0;
      var i := 0;
      while i < MAX
        invariant 0 <= i <= MAX && |vs| == |sounds| == |all| == MAX && mix == Sum(sounds, i)
        invariant forall k | 0 <= k < MAX :: voices[k] == if k < i then all[k] else vs[k]
      {
        assert voices[i] == vs[i] && sounds[i] == Sound(p, vs[i]) && all[i] == Advance(p, vs[i]);
        if voices[i].stage != IDLE {
          var w, sound := AdvanceVoice(p, voices[i]);
          voices[i] := w;
          mix := mix + sound;
        }
        i := i + 1;
      }
      assert voices[..] == all;
    }

    /** One frame: the sample read from the ring is mixed in, and the ring gets its successor. */
    method RenderFrame(p: Params) returns (v: real)
      requires Valid() && p.sr != 0.0
      modifies `pos, voices, ring
      ensures Valid() && View() == Frame(p, old(View())) && v == Output(p, old(View()))
    {
      ghost var now := View();
      var mix := MixFrame(p);
      var echoed := ring[pos];
      v := mix + echoed * DELAY_MIX;
      ring[pos] := mix + echoed * FEEDBACK;
      pos := pos + 1;
      if pos >= DELAY_LEN { pos := 0; }
      assert ring[..] == now.ring[now.pos := Written(p, now)];
      if v > 1.0 { v := 1.0; }
      if v < -1.0 { v := -1.0; }
    }

    /** After n frames from state st on: the state, and the buffer, which held `was`. */
    ghost predicate Rendered(p: Params, out: array<real>, st: State, was: seq<real>, n: nat)
      reads this, voices, ring, out
    {
      && p.sr != 0.0 && Shape(st) && 2 * n <= |was|
      && Valid() && View() == After(p, st, n) && out[..] == Heard(p, st, n) + was[2 * n..]
    }

    /** One frame, written twice. */
    method WriteFrame(p: Params, out: array<real>, s: nat, f: nat, ghost st: State, ghost was: seq<real>)
      requires Rendered(p, out, st, was, f) && out != ring && s == 2 * f && s + 2 <= |was|
      modifies `pos, voices, ring, out
      ensures Rendered(p, out, st, was, f + 1)
    {
      FrameHeard(p, st, f, View());
      TwoWritten(Heard(p, st, f), was, s, Output(p, View()));
      ghost var before := out[..];
      var v := RenderFrame(p);
      assert out[..] == before;
      out[s] := v;
      out[s + 1] := v;
      assert out[..] == before[s := v][s + 1 := v];
    }

    /** Frames are rendered one after the other. */
    method Render(p: Params, out: array<real>, frames: nat)
      requires Valid() && p.sr != 0.0 && out != ring && 2 * frames <= out.Length
      modifies `pos, voices, ring, out
      ensures Valid() && View() == After(p, old(View()), frames)
      ensures out[..] == Heard(p, old(View()), frames) + old(out[2 * frames..])
    {
      ghost var st, was := View(), out[..];
      var s, f := 0, 0;
      assert [] + was[0..] == was;
      while f < frames
        invariant 0 <= f <= frames && s == 2 * f && Rendered(p, out, st, was, f)
      {
        WriteFrame(p, out, s, f, st, was);
        s, f := s + 2, f + 1;
      }
    }
  }

  lemma FrameHeard(p: Params, st: State, f: nat, now: State)
    requires p.sr != 0.0 && Shape(st) && now == After(p, st, f)
    ensures Frame(p, now) == After(p, st, f + 1)
    ensures Heard(p, st, f + 1) == Heard(p, st, f) + [Output(p, now), Output(p, now)]
  {
  }

  lemma TwoWritten(heard: seq<real>, was: seq<real>, s: nat, v: real)
    requires |heard| == s && s + 2 <= |was|
    ensures (heard + was[s..])[s := v][s + 1 := v] == heard + [v, v] + was[s + 2..]
  {
  }
}
