/** The rhythm game's judging: notes fall past a line and are hit or missed frame by frame. Whatever the frame
    times and the keys, the incremental bookkeeping equals what the history of frames says of each note. */
module Rhythm {
  import opened Reals
  import opened Sequences

  const NOTE_COUNT := 64
  const HIT_WINDOW := 60.0
  const PERFECT_WINDOW := 25.0
  const FALL_SPEED := 0.45
  const FIRST_NOTE := 2000
  const BEAT := 480
  const END := 2000 + NOTE_COUNT * BEAT + 2000

  datatype Verdict = Active | Perfect | Good | Miss

  /** The remainder of a non-negative double by two. */
  function Rem2(x: real): real
    requires x >= 0.0
    decreases x
  {
    if x < 2.0 then x else Rem2(x - 2.0)
  }

  /** The column of a note: mirrored where the block number of the note, its index over four, is one modulo two. */
  function Column(k: nat): nat {
    if Rem2(k as real / 4.0) == 1.0 then 3 - k % 4 else k % 4
  }

  function TimeOf(k: nat): int {
    FIRST_NOTE + k * BEAT
  }

  /** How far a note is past the line, in pixels; negative above it. */
  function Past(k: nat, time: real): real {
    (time - TimeOf(k) as real) * FALL_SPEED
  }

  predicate InWindow(k: nat, time: real) {
    Abs(Past(k, time)) < HIT_WINDOW
  }

  /** One frame: the time of the game and the columns whose key went down. */
  datatype Shot = Shot(time: real, keys: set<nat>)

  /** The verdict by the place of the note. */
  function VerdictAt(past: real, pressed: bool): Verdict {
    if pressed && Abs(past) < HIT_WINDOW then if Abs(past) < PERFECT_WINDOW then Perfect else Good
    else if past > HIT_WINDOW then Miss
    else Active
  }

  /** What one frame makes of a note still falling. */
  function Judge(k: nat, f: Shot): Verdict {
    VerdictAt(Past(k, f.time), Column(k) in f.keys)
  }

  /** What a history of frames makes of a note: the verdict of the first frame that has one. */
  function VerdictOf(k: nat, history: seq<Shot>): Verdict {
    if history == [] then Active
    else
      var before := VerdictOf(k, history[..|history| - 1]);
      if before != Active then before else Judge(k, history[|history| - 1])
  }

  function Verdicts(history: seq<Shot>): (vs: seq<Verdict>)
    ensures |vs| == NOTE_COUNT && forall k | 0 <= k < NOTE_COUNT :: vs[k] == VerdictOf(k, history)
  {
    seq(NOTE_COUNT, k requires 0 <= k < NOTE_COUNT => VerdictOf(k, history))
  }

  function Count(vs: seq<Verdict>, v: Verdict): nat {
    if vs == [] then 0 else Count(vs[..|vs| - 1], v) + if vs[|vs| - 1] == v then 1 else 0
  }

  // ---------- streaks ----------

  /** What one verdict adds to the run of outcomes: a hit, a miss, or nothing yet. */
  function Outcome(v: Verdict): seq<bool> {
    match v
    case Active => []
    case Miss => [false]
    case _ => [true]
  }

  /** The outcomes of one frame among the first k notes, in the order of the notes. */
  function FrameOutcomes(was: seq<Verdict>, f: Shot, k: nat): seq<bool>
    requires k <= |was|
  {
    if k == 0 then []
    else FrameOutcomes(was, f, k - 1) + if was[k - 1] == Active then Outcome(Judge(k - 1, f)) else []
  }

  /** All outcomes so far, hits true and misses false, in the order in which they were judged. */
  function Outcomes(history: seq<Shot>): seq<bool> {
    if history == [] then []
    else
      var before := history[..|history| - 1];
      Outcomes(before) + FrameOutcomes(Verdicts(before), history[|history| - 1], |Verdicts(before)|)
  }

  /** The number of hits since the last miss. */
  function Trailing(o: seq<bool>): (n: nat)
    ensures n <= |o|
  {
    if o == [] || !o[|o| - 1] then 0 else Trailing(o[..|o| - 1]) + 1
  }

  /** The greatest number of hits in a row. */
  function Longest(o: seq<bool>): (n: nat)
    ensures n >= Trailing(o)
  {
    if o == [] then 0
    else
      var before, now := Longest(o[..|o| - 1]), Trailing(o);
      if now > before then now else before
  }

  /** n hits in a row, the last of them just before position e. */
  ghost predicate HitsBefore(o: seq<bool>, e: nat, n: nat) {
    n <= e <= |o| && forall i | e - n <= i < e :: o[i]
  }

  lemma {:induction false} TrailingHits(o: seq<bool>, n: nat)
    ensures HitsBefore(o, |o|, n) <==> n <= Trailing(o)
  {
    if o != [] && n > 0 {
      var init := o[..|o| - 1];
      TrailingHits(init, n - 1);
      assert HitsBefore(o, |o|, n) <==> o[|o| - 1] && HitsBefore(init, |init|, n - 1);
    }
  }

  /** Longest is what its name says: there are n hits in a row somewhere if and only if n is at most that. */
  lemma {:induction false} LongestRun(o: seq<bool>, n: nat)
    ensures (exists e: nat :: HitsBefore(o, e, n)) <==> n <= Longest(o)
  {
    TrailingHits(o, n);
    if o == [] {
      assert HitsBefore(o, 0, 0);
    } else {
      var init := o[..|o| - 1];
      LongestRun(init, n);
      assert forall e: nat | e < |o| :: HitsBefore(o, e, n) <==> HitsBefore(init, e, n);
      assert HitsBefore(o, |o|, n) <==> n <= Trailing(o);
    }
  }

  lemma StreakSnoc(o: seq<bool>, hit: bool)
    ensures Trailing(o + [hit]) == if hit then Trailing(o) + 1 else 0
    ensures Longest(o + [hit])
            == if hit && Trailing(o) + 1 > Longest(o) then Trailing(o) + 1 else Longest(o)
  {
    assert (o + [hit])[..|o|] == o;
  }

  // ---------- counting verdicts ----------

  lemma {:induction false} CountAll(vs: seq<Verdict>)
    ensures Count(vs, Active) + Count(vs, Perfect) + Count(vs, Good) + Count(vs, Miss) == |vs|
  {
    if vs != [] {
      CountAll(vs[..|vs| - 1]);
    }
  }

  lemma {:induction false} CountSet(vs: seq<Verdict>, k: nat, x: Verdict, v: Verdict)
    requires k < |vs|
    ensures Count(vs[k := x], v)
            == Count(vs, v) - (if vs[k] == v then 1 else 0) + (if x == v then 1 else 0)
  {
    var last := |vs| - 1;
    if k == last {
      assert vs[k := x][..last] == vs[..last];
    } else {
      assert vs[k := x][..last] == vs[..last][k := x];
      CountSet(vs[..last], k, x, v);
    }
  }

  lemma {:induction false} CountNone(vs: seq<Verdict>, v: Verdict)
    requires v !in vs
    ensures Count(vs, v) == 0
  {
    if vs != [] {
      CountNone(vs[..|vs| - 1], v);
    }
  }

  lemma {:induction false} CountSame(vs: seq<Verdict>, v: Verdict)
    requires forall k | 0 <= k < |vs| :: vs[k] == v
    ensures Count(vs, v) == |vs| && forall w | w != v :: Count(vs, w) == 0
  {
    if vs != [] {
      CountSame(vs[..|vs| - 1], v);
    }
  }

  /** Notes are farther apart than the window is wide: no two of them can be hit at one time. */
  lemma OneInWindow(j: nat, k: nat, time: real)
    requires j < k
    ensures !(InWindow(j, time) && InWindow(k, time))
  {
    assert TimeOf(k) - TimeOf(j) >= BEAT;
    assert Past(j, time) - Past(k, time) == (TimeOf(k) - TimeOf(j)) as real * FALL_SPEED;
  }

  /** Once the end has come no note is still falling. */
  lemma NoneActiveAtEnd(k: nat, f: Shot)
    requires k < NOTE_COUNT && f.time > END as real
    ensures Judge(k, f) != Active
  {
    assert TimeOf(k) <= END - 2480;
    assert Past(k, f.time) >= 2480.0 * FALL_SPEED;
  }

  lemma HistorySnoc(k: nat, history: seq<Shot>, f: Shot)
    ensures VerdictOf(k, history + [f])
            == if VerdictOf(k, history) != Active then VerdictOf(k, history) else Judge(k, f)
  {
    assert (history + [f])[..|history|] == history;
  }

  /** The verdicts one frame later, note by note. */
  function Judged(was: seq<Verdict>, f: Shot): (now: seq<Verdict>)
    ensures |now| == |was| && forall k | 0 <= k < |was| :: now[k] == if was[k] != Active then was[k] else Judge(k, f)
  {
    seq(|was|, k requires 0 <= k < |was| => if was[k] != Active then was[k] else Judge(k, f))
  }

  lemma HistoryGrows(history: seq<Shot>, f: Shot, was: seq<Verdict>, now: seq<Verdict>, o: seq<bool>, out: seq<bool>)
    requires was == Verdicts(history) && now == Verdicts(history + [f])
    requires o == Outcomes(history) && out == Outcomes(history + [f])
    ensures now == Judged(was, f) && out == o + FrameOutcomes(was, f, |was|)
  {
    forall k | 0 <= k < NOTE_COUNT
      ensures now[k] == Judged(was, f)[k]
    {
      HistorySnoc(k, history, f);
    }
    assert (history + [f])[..|history|] == history;
  }

  /** Going on to note k of a frame, what is known of the notes turns from the old to the new verdict there. */
  lemma Mixed(was: seq<Verdict>, now: seq<Verdict>, k: nat)
    requires |was| == |now| && k < |was|
    ensures (now[..k] + was[k..])[k] == was[k]
    ensures (now[..k] + was[k..])[k := now[k]] == now[..k + 1] + was[k + 1..]
    ensures now[k] == was[k] ==> now[..k] + was[k..] == now[..k + 1] + was[k + 1..]
  {
  }

  function Hits(vs: seq<Verdict>): nat {
    Count(vs, Perfect) + Count(vs, Good)
  }

  /** The first k notes gain at most one hit in a frame, and if one, then note `hit`, which is in the window. */
  lemma {:induction false} HitsGrow(was: seq<Verdict>, f: Shot, now: seq<Verdict>, k: nat) returns (hit: int)
    requires now == Judged(was, f) && k <= |was|
    ensures -1 <= hit < k && (hit >= 0 ==> InWindow(hit, f.time))
    ensures Hits(now[..k]) == Hits(was[..k]) + if hit >= 0 then 1 else 0
    decreases k
  {
    hit := -1;
    if k > 0 {
      hit := HitsGrow(was, f, now, k - 1);
      assert now[..k][..k - 1] == now[..k - 1] && was[..k][..k - 1] == was[..k - 1];
      if was[k - 1] == Active && now[k - 1] in {Perfect, Good} {
        if hit >= 0 {
          OneInWindow(hit, k - 1, f.time);
        }
        hit := k - 1;
      }
    }
  }

  /** A frame scores at most one hit. */
  lemma OneHit(was: seq<Verdict>, f: Shot, now: seq<Verdict>)
    requires now == Judged(was, f)
    ensures Hits(was) <= Hits(now) <= Hits(was) + 1
  {
    var hit := HitsGrow(was, f, now, |was|);
    assert now[..|was|] == now && was[..|was|] == was;
  }

  lemma NextOutcomes(was: seq<Verdict>, f: Shot, k: nat, o: seq<bool>, soFar: seq<bool>)
    requires k < |was| && soFar == o + FrameOutcomes(was, f, k)
    ensures o + FrameOutcomes(was, f, k + 1) == if was[k] == Active then soFar + Outcome(Judge(k, f)) else soFar
  {
    var before := FrameOutcomes(was, f, k);
    Regroup(o, before, Outcome(Judge(k, f)));
    assert before + [] == before;
  }

  /** How one verdict on a falling note moves the counts and the streaks. */
  lemma Recounted(vs: seq<Verdict>, o: seq<bool>, k: nat, v: Verdict, now: seq<Verdict>, out: seq<bool>)
    requires k < |vs| && vs[k] == Active && now == vs[k := v] && out == o + Outcome(v)
    ensures Count(now, Perfect) == Count(vs, Perfect) + if v == Perfect then 1 else 0
    ensures Count(now, Good) == Count(vs, Good) + if v == Good then 1 else 0
    ensures Count(now, Miss) == Count(vs, Miss) + if v == Miss then 1 else 0
    ensures Trailing(out) == if v == Active then Trailing(o) else if v == Miss then 0 else Trailing(o) + 1
    ensures Longest(out) == if v == Active || Trailing(out) < Longest(o) then Longest(o) else Trailing(out)
  {
    CountSet(vs, k, v, Perfect);
    CountSet(vs, k, v, Good);
    CountSet(vs, k, v, Miss);
    StreakSnoc(o, v != Miss);
    assert v == Active ==> out == o;
  }

  const MENU := 0
  const PLAYING := 1
  const OVER := 2

  class Game {
    const noteCol: array<nat>
    const noteTime: array<int>
    const noteHit: array<int>
    var screen: int
    var gameTime: real
    var score: int
    var combo: int
    var maxCombo: int
    var perfects: int
    var goods: int
    var misses: int
    /** The frames since the last reset. */
    ghost var history: seq<Shot>

    ghost predicate Table()
      reads noteCol, noteTime
    {
      && noteCol.Length == noteTime.Length == noteHit.Length == NOTE_COUNT
      && noteHit != noteTime
      && forall k | 0 <= k < NOTE_COUNT :: noteCol[k] == Column(k) && noteTime[k] == TimeOf(k)
    }

    /** The flag of a note: 0 while it falls, 1 hit, 2 missed. */
    static function Flag(v: Verdict): int {
      match v
      case Active => 0
      case Miss => 2
      case _ => 1
    }

    ghost predicate Flags(vs: seq<Verdict>)
      reads noteHit
    {
      noteHit.Length == |vs| && forall k | 0 <= k < |vs| :: noteHit[k] == Flag(vs[k])
    }

    /** The counters are those of the verdicts, the score is their value, and the combos are the current and the
        longest streak of the outcomes. */
    ghost predicate Tallied(vs: seq<Verdict>, o: seq<bool>)
      reads `score, `combo, `maxCombo, `perfects, `goods, `misses
    {
      && perfects == Count(vs, Perfect) && goods == Count(vs, Good) && misses == Count(vs, Miss)
      && score == 100 * perfects + 50 * goods
      && combo == Trailing(o) && maxCombo == Longest(o)
      && 0 <= combo <= maxCombo <= perfects + goods
    }

    ghost predicate Valid()
      reads `score, `combo, `maxCombo, `perfects, `goods, `misses, `history, noteCol, noteTime, noteHit
    {
      Table() && Flags(Verdicts(history)) && Tallied(Verdicts(history), Outcomes(history))
    }

    /** What the flags, the counters and the score say at any time. */
    lemma FlagsRead(k: nat)
      requires Valid() && k < 64
      ensures noteHit[k] == match VerdictOf(k, history) case Active => 0 case Perfect => 1 case Good => 1 case Miss => 2
      ensures perfects == Count(Verdicts(history), Perfect) && goods == Count(Verdicts(history), Good)
      ensures misses == Count(Verdicts(history), Miss) && score == 100 * perfects + 50 * goods
    {
    }

    constructor ()
      ensures Valid() && screen == MENU && history == []
      ensures fresh(noteCol) && fresh(noteTime) && fresh(noteHit)
    {
      noteCol := new nat[NOTE_COUNT](k requires 0 <= k => Column(k));
      noteTime := new int[NOTE_COUNT](k requires 0 <= k => TimeOf(k));
      noteHit := new int[NOTE_COUNT](_ => 0);
      screen, gameTime, score, combo, maxCombo, perfects, goods, misses := MENU, 0.0, 0, 0, 0, 0, 0, 0;
      history := [];
      new;
      CountSame(Verdicts([]), Active);
    }

    method Reset()
      requires Table()
      modifies this, noteHit
      ensures Valid() && screen == PLAYING && history == []
    {
      gameTime, score, combo, maxCombo, perfects, goods, misses := 0.0, 0, 0, 0, 0, 0, 0;
      var r := 0;
      while r < NOTE_COUNT
        invariant 0 <= r <= NOTE_COUNT && Table() && forall k | 0 <= k < r :: noteHit[k] == 0
        invariant gameTime == 0.0 && score == combo == maxCombo == perfects == goods == misses == 0
      {
        noteHit[r] := 0;
        r := r + 1;
      }
      screen := PLAYING;
      history := [];
      CountSame(Verdicts([]), Active);
    }

    /** What a hit at this distance adds to the counters. */
    method ScoreHit(dist: real)
      modifies `score, `combo, `maxCombo, `perfects, `goods
      ensures combo == old(combo) + 1 && maxCombo == if combo > old(maxCombo) then combo else old(maxCombo)
      ensures dist < PERFECT_WINDOW ==>
                score == old(score) + 100 && perfects == old(perfects) + 1 && goods == old(goods)
      ensures dist >= PERFECT_WINDOW ==>
                score == old(score) + 50 && perfects == old(perfects) && goods == old(goods) + 1
    {
      combo := combo + 1;
      if combo > maxCombo { maxCombo := combo; }
      if dist < PERFECT_WINDOW {
        score := score + 100;
        perfects := perfects + 1;
      } else {
        score := score + 50;
        goods := goods + 1;
      }
    }

    /** One note that is still falling, in one frame. */
    method JudgeNote(k: nat, f: Shot, ghost vs: seq<Verdict>, ghost o: seq<bool>) returns (ghost v: Verdict)
      requires k < NOTE_COUNT && |vs| == NOTE_COUNT && vs[k] == Active
      requires Table() && Flags(vs) && Tallied(vs, o)
      modifies noteHit, `score, `combo, `maxCombo, `perfects, `goods, `misses
      ensures v == Judge(k, f) && Table() && Flags(vs[k := v]) && Tallied(vs[k := v], o + Outcome(v))
    {
      v := Judge(k, f);
      Recounted(vs, o, k, v, vs[k := v], o + Outcome(v));
      var past := (f.time - noteTime[k] as real) * FALL_SPEED;
      var pressed := noteCol[k] in f.keys;
      Settle(k, past, pressed);
    }

    /** What the verdict on a falling note at this place does to its flag and to the counters. */
    method Settle(k: nat, past: real, pressed: bool)
      requires k < noteHit.Length && noteHit[k] == 0
      modifies noteHit, `score, `combo, `maxCombo, `perfects, `goods, `misses
      ensures noteHit[..] == old(noteHit[..])[k := Flag(VerdictAt(past, pressed))]
      ensures var v := VerdictAt(past, pressed);
              && perfects == old(perfects) + (if v == Perfect then 1 else 0)
              && goods == old(goods) + (if v == Good then 1 else 0)
              && misses == old(misses) + (if v == Miss then 1 else 0)
              && score == old(score) + (if v == Perfect then 100 else if v == Good then 50 else 0)
              && combo == (if v == Miss then 0 else if v == Active then old(combo) else old(combo) + 1)
              && maxCombo == if v in {Perfect, Good} && combo > old(maxCombo) then combo else old(maxCombo)
    {
      if pressed {
        var dist := past;
        if dist < 0.0 { dist := 0.0 - dist; }
        if dist < HIT_WINDOW {
          noteHit[k] := 1;
          ScoreHit(dist);
        }
      }
      if past > HIT_WINDOW {
        noteHit[k] := 2;
        misses := misses + 1;
        combo := 0;
      }
    }

    /** One turn over the notes: note k is judged if it is still falling. */
    method JudgeTurn(k: nat, f: Shot, ghost vs: seq<Verdict>, ghost next: seq<Verdict>,
                     ghost o: seq<bool>, ghost out: seq<bool>)
      requires k < NOTE_COUNT && |vs| == NOTE_COUNT && Table() && Flags(vs) && Tallied(vs, o)
      requires next == vs[k := if vs[k] != Active then vs[k] else Judge(k, f)]
      requires out == if vs[k] == Active then o + Outcome(Judge(k, f)) else o
      modifies noteHit, `score, `combo, `maxCombo, `perfects, `goods, `misses
      ensures Table() && Flags(next) && Tallied(next, out)
    {
      if noteHit[k] == 0 {
        ghost var v := JudgeNote(k, f, vs, o);
      } else {
        assert next == vs;
      }
    }

    /** All notes in one frame: every falling note is judged. */
    method JudgeNotes(f: Shot, ghost was: seq<Verdict>, ghost now: seq<Verdict>, ghost o: seq<bool>, ghost out: seq<bool>)
      requires |was| == NOTE_COUNT && Table() && Flags(was) && Tallied(was, o)
      requires now == Judged(was, f) && out == o + FrameOutcomes(was, f, |was|)
      modifies noteHit, `score, `combo, `maxCombo, `perfects, `goods, `misses
      ensures Table() && Flags(now) && Tallied(now, out)
    {
      ghost var vs, soFar := was, o;
      var k := 0;
      assert o + [] == o;
      while k < NOTE_COUNT
        invariant 0 <= k <= NOTE_COUNT && Table() && Flags(vs) && Tallied(vs, soFar)
        invariant vs == now[..k] + was[k..] && soFar == o + FrameOutcomes(was, f, k)
      {
        NextOutcomes(was, f, k, o, soFar);
        Mixed(was, now, k);
        ghost var next, longer := now[..k + 1] + was[k + 1..], o + FrameOutcomes(was, f, k + 1);
        JudgeTurn(k, f, vs, next, soFar, longer);
        vs, soFar, k := next, longer, k + 1;
      }
      assert vs == now;
    }

    /** The notes of one frame, and with them one more frame in the history. */
    method Record(f: Shot)
      requires Valid()
      modifies noteHit, `score, `combo, `maxCombo, `perfects, `goods, `misses, `history
      ensures Valid() && history == old(history) + [f]
      ensures old(perfects + goods) <= perfects + goods <= old(perfects + goods) + 1
      ensures f.time > END as real ==> perfects + goods + misses == NOTE_COUNT
    {
      ghost var longer := history + [f];
      ghost var was, now, o, out := Verdicts(history), Verdicts(longer), Outcomes(history), Outcomes(longer);
      HistoryGrows(history, f, was, now, o, out);
      OneHit(was, f, now);
      EndCounts(history, f, now);
      JudgeNotes(f, was, now, o, out);
      history := longer;
    }

    /** One frame of play. */
    method Play(dt: real, keys: set<nat>, escape: bool)
      requires Valid() && screen == PLAYING
      modifies this, noteHit
      ensures Valid() && gameTime == old(gameTime) + dt
      ensures history == old(history) + [Shot(gameTime, keys)]
      ensures old(perfects + goods) <= perfects + goods <= old(perfects + goods) + 1
      ensures screen == if escape then MENU else if gameTime > 34720.0 then OVER else PLAYING
      ensures screen == OVER ==> perfects + goods + misses == NOTE_COUNT
    {
      gameTime := gameTime + dt;
      Record(Shot(gameTime, keys));
      if gameTime > END as real { screen := OVER; }
      if escape { screen := MENU; }
    }
  }

  lemma EndCounts(history: seq<Shot>, f: Shot, vs: seq<Verdict>)
    requires vs == Verdicts(history + [f])
    ensures f.time > END as real
            ==> Active !in vs && Count(vs, Perfect) + Count(vs, Good) + Count(vs, Miss) == NOTE_COUNT
  {
    if f.time > END as real {
      forall k | 0 <= k < NOTE_COUNT
        ensures vs[k] != Active
      {
        HistorySnoc(k, history, f);
        NoneActiveAtEnd(k, f);
      }
      CountAll(vs);
      CountNone(vs, Active);
    }
  }

  /** At every moment every note is falling, hit or missed, and each counted once. */
  lemma NotesConserved(history: seq<Shot>)
    ensures var vs := Verdicts(history);
            Count(vs, Active) + Count(vs, Perfect) + Count(vs, Good) + Count(vs, Miss) == NOTE_COUNT
  {
    CountAll(Verdicts(history));
  }

  /** A verdict never changes. */
  lemma {:induction false} VerdictStays(k: nat, history: seq<Shot>, more: seq<Shot>)
    requires VerdictOf(k, history) != Active
    ensures VerdictOf(k, history + more) == VerdictOf(k, history)
  {
    if more == [] {
      assert history + more == history;
    } else {
      VerdictStays(k, history, more[..|more| - 1]);
      assert (history + more)[..|history + more| - 1] == history + more[..|more| - 1];
    }
  }

  lemma {:induction false} QuarterRem2(k: nat)
    ensures Rem2(k as real / 4.0) == (k % 8) as real / 4.0
  {
    if k >= 8 {
      QuarterRem2(k - 8);
      assert k as real / 4.0 - 2.0 == (k - 8) as real / 4.0;
    }
  }

  /** The quotient is not rounded down: so not alternate blocks of four are mirrored, but only notes 4, 12, 20, ... */
  lemma MirroredColumns(k: nat)
    ensures Column(k) < 4 && (Column(k) != k % 4 <==> k % 8 == 4)
    ensures Column(k) == if k % 8 == 4 then 3 else k % 4
  {
    QuarterRem2(k);
  }

  // ---------- keys and notes ----------

  /** In this frame the key of the note's column went down. */
  predicate KeyDown(k: nat, f: Shot) {
    (if k % 8 == 4 then 3 else k % 4) in f.keys
  }

  /** How far note k is from the line at a time: it crosses the line at 2000 + 480 k, and falls 0.45 in one. */
  function Distance(k: nat, time: real): real {
    0.45 * time - 0.45 * (2000 + 480 * k) as real
  }

  /** In one frame a falling note is hit exactly if its key went down less than 60 from the line, perfectly less than 25;
      and missed exactly if it is more than 60 below. */
  lemma FrameVerdict(k: nat, f: Shot, d: real)
    requires d == Distance(k, f.time)
    ensures Judge(k, f) == Perfect <==> KeyDown(k, f) && -25.0 < d < 25.0
    ensures Judge(k, f) in {Perfect, Good} <==> KeyDown(k, f) && -60.0 < d < 60.0
    ensures Judge(k, f) == Miss <==> d > 60.0
  {
    MirroredColumns(k);
    assert Past(k, f.time) == d;
  }

  /** In frame i something happens to note k. */
  predicate Settled(k: nat, f: Shot) {
    (KeyDown(k, f) && -60.0 < Distance(k, f.time) < 60.0) || Distance(k, f.time) > 60.0
  }

  /** A note falls as long as nothing has happened to it, and then keeps the verdict of that frame: so it is a hit only
      if its key went down in that frame within 60 of the line, and a perfect one only within 25. */
  lemma {:induction false} NoteSettled(k: nat, history: seq<Shot>, i: nat, d: real)
    requires i <= |history| && forall j | 0 <= j < i :: !Settled(k, history[j])
    requires i < |history| ==> Settled(k, history[i]) && d == Distance(k, history[i].time)
    ensures i == |history| ==> VerdictOf(k, history) == Active
    ensures i < |history| && d > 60.0 ==> VerdictOf(k, history) == Miss
    ensures i < |history| && d <= 60.0 ==>
              KeyDown(k, history[i]) && VerdictOf(k, history) == if -25.0 < d < 25.0 then Perfect else Good
  {
    if history != [] {
      var last := |history| - 1;
      FrameVerdict(k, history[last], Distance(k, history[last].time));
      NoteSettled(k, history[..last], if i < last then i else last, d);
    }
  }
}
