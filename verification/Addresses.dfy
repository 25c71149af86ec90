/** When printed paths are addresses. A path is text, and a tag may itself contain what looks like a step; so it
    depends on the tags whether a path can be read in one way only. Both for sets of tags and for pairs of tags
    the exact condition is proved, the latter over all texts a page can be parsed from. */
module Addresses {
  import opened Options
  import opened Sequences
  import opened Decimal
  import opened PathWalk
  import HtmlTokens
  import opened HtmlTree

  lemma SplitLast(a: string, s: string, b: string, t: string, sep: char)
    requires sep !in s && sep !in t
    requires a + [sep] + s == b + [sep] + t
    ensures a == b && s == t
  {
    var x := a + [sep] + s;
    assert x[|a|] == sep && x[|b|] == sep;
    assert forall i | |a| < i < |x| :: x[i] == s[i - |a| - 1];
    assert forall i | |b| < i < |x| :: x[i] == t[i - |b| - 1];
    assert a == x[..|a|] == b;
    assert s == x[|a| + 1..] == t;
  }

  lemma SegmentInjective(s: Step, t: Step)
    requires Segment(s) == Segment(t)
    ensures s == t
  {
    var d, e := Digits(s.k) + "]", Digits(t.k) + "]";
    assert Segment(s) == s.tag + ['['] + d && Segment(t) == t.tag + ['['] + e;
    SplitLast(s.tag, d, t.tag, e, '[');
    assert Digits(s.k) == d[..|d| - 1] == e[..|e| - 1] == Digits(t.k);
    DigitsInjective(s.k, t.k);
  }

  // ---------- which tags keep all paths apart ----------

  /** Steps with these tags and with positions from one on. */
  ghost predicate Over(steps: seq<Step>, tags: set<string>) {
    forall s | s in steps :: s.tag in tags && s.k > 0
  }

  /** What a step adds to a path. */
  function Word(s: Step): string {
    "/" + Segment(s)
  }

  lemma WordInjective(s: Step, t: Step)
    requires Word(s) == Word(t)
    ensures s == t
  {
    assert Segment(s) == Word(s)[1..] == Word(t)[1..] == Segment(t);
    SegmentInjective(s, t);
  }

  /** A text that is left over when the words of two different steps end alike. */
  ghost predicate Begins(tags: set<string>, w: string) {
    exists s, t :: Over([s, t], tags) && s != t && Word(s) == w + Word(t)
  }

  /** One word more, taken from the longer of the two sides, leaves w' over instead of w. */
  ghost predicate Leaves(tags: set<string>, w: string, w': string) {
    exists s :: Over([s], tags) && (Word(s) == w' + w || w == w' + Word(s))
  }

  /** Texts left over one after the other, until nothing is left. */
  ghost predicate Chain(tags: set<string>, ws: seq<string>) {
    ws != [] && ws[|ws| - 1] == "" && forall i | 0 <= i < |ws| - 1 :: Leaves(tags, ws[i], ws[i + 1])
  }

  ghost predicate Confusable(tags: set<string>) {
    exists ws :: Chain(tags, ws) && Begins(tags, ws[0])
  }

  lemma RenderSnoc(a: seq<Step>, s: Step)
    ensures Render(a + [s]) == Render(a) + Word(s)
  {
    assert (a + [s])[..|a|] == a;
    Regroup(Render(a), "/", Segment(s));
  }

  lemma {:induction false} RootFirst(a: seq<Step>)
    ensures |Render(a)| >= |ROOT| && (|Render(a)| == |ROOT| <==> a == [])
  {
    if a != [] {
      RootFirst(a[..|a| - 1]);
    }
  }

  /** What a chain leaves over at any point is made good by two step lists. */
  lemma {:induction false} ChainMeets(tags: set<string>, ws: seq<string>) returns (a: seq<Step>, b: seq<Step>)
    requires Chain(tags, ws)
    ensures Over(a, tags) && Over(b, tags) && Render(a) + ws[0] == Render(b)
    decreases |ws|
  {
    a, b := [], [];
    if |ws| > 1 {
      var w, w' := ws[0], ws[1];
      assert Leaves(tags, ws[0], ws[0 + 1]);
      assert forall i | 0 <= i < |ws[1..]| - 1 :: Leaves(tags, ws[1..][i], ws[1..][i + 1]) by {
        forall i | 0 <= i < |ws[1..]| - 1
          ensures Leaves(tags, ws[1..][i], ws[1..][i + 1])
        {
          assert Leaves(tags, ws[i + 1], ws[i + 1 + 1]);
        }
      }
      a, b := ChainMeets(tags, ws[1..]);
      var s :| Over([s], tags) && (Word(s) == w' + w || w == w' + Word(s));
      assert s in [s];
      if Word(s) == w' + w {
        a, b := OtherSide(a, b, s, w, w');
      } else {
        b := SameSide(a, b, s, w, w');
      }
    }
  }

  lemma OtherSide(a: seq<Step>, b: seq<Step>, s: Step, w: string, w': string) returns (c: seq<Step>, d: seq<Step>)
    requires Render(a) + w' == Render(b) && Word(s) == w' + w
    ensures c == b && d == a + [s] && Render(c) + w == Render(d)
  {
    c, d := b, a + [s];
    RenderSnoc(a, s);
    Regroup(Render(a), w', w);
  }

  lemma SameSide(a: seq<Step>, b: seq<Step>, s: Step, w: string, w': string) returns (d: seq<Step>)
    requires Render(a) + w' == Render(b) && w == w' + Word(s)
    ensures d == b + [s] && Render(a) + w == Render(d)
  {
    d := b + [s];
    RenderSnoc(b, s);
    Regroup(Render(a), w', Word(s));
  }

  /** From two step lists that print alike but for w, a chain that begins with w. */
  lemma {:induction false} MeetsChain(tags: set<string>, a: seq<Step>, b: seq<Step>, w: string) returns (ws: seq<string>)
    requires Over(a, tags) && Over(b, tags) && Render(a) + w == Render(b)
    ensures Chain(tags, ws) && ws[0] == w
    decreases |a| + |b|
  {
    ws := [w];
    if w != "" {
      RootFirst(a);
      RootFirst(b);
      var init, s := b[..|b| - 1], b[|b| - 1];
      assert b == init + [s] && s in b;
      RenderSnoc(init, s);
      var w', more;
      if |w| <= |Word(s)| {
        w' := Longer(Render(init), Word(s), Render(a), w);
        more := MeetsChain(tags, init, a, w');
      } else {
        w' := Longer(Render(a), w, Render(init), Word(s));
        more := MeetsChain(tags, a, init, w');
      }
      assert Over([s], tags) && Leaves(tags, w, w');
      ws := [w] + more;
      Prepended(tags, w, more);
    }
  }

  lemma Prepended(tags: set<string>, w: string, ws: seq<string>)
    requires Chain(tags, ws) && Leaves(tags, w, ws[0])
    ensures Chain(tags, [w] + ws)
  {
    var all := [w] + ws;
    forall i | 0 <= i < |all| - 1
      ensures Leaves(tags, all[i], all[i + 1])
    {
      if i > 0 {
        assert Leaves(tags, ws[i - 1], ws[i - 1 + 1]);
      }
    }
  }

  /** Of two texts cut in two at different places, the longer end is the shorter one and what is between. */
  lemma Longer(p: string, v: string, q: string, w: string) returns (gap: string)
    requires p + v == q + w && |w| <= |v|
    ensures v == gap + w && p + gap == q
  {
    gap := v[..|v| - |w|];
    var all := p + v;
    assert v == all[|p|..] && w == all[|q|..];
    assert v[|v| - |w|..] == all[|p| + |v| - |w|..] == w;
    assert p + gap == all[..|p| + |gap|] == q;
  }

  /** Where two step lists that print alike part, something is left over to begin with. */
  lemma {:induction false} Parting(tags: set<string>, a: seq<Step>, b: seq<Step>)
      returns (x: seq<Step>, s: Step, y: seq<Step>, t: Step, w: string)
    requires Over(a, tags) && Over(b, tags) && a != b && Render(a) == Render(b)
    ensures Over(x + [s], tags) && Over(y + [t], tags) && s != t && Word(s) == w + Word(t) && Render(x) + w == Render(y)
    decreases |a|
  {
    RootFirst(a);
    RootFirst(b);
    x, y, s, t := a[..|a| - 1], b[..|b| - 1], a[|a| - 1], b[|b| - 1];
    assert a == x + [s] && b == y + [t];
    RenderSnoc(x, s);
    RenderSnoc(y, t);
    if s == t {
      assert Render(x) == (Render(x) + Word(s))[..|Render(x)|] == Render(y);
      x, s, y, t, w := Parting(tags, x, y);
    } else if |Word(t)| <= |Word(s)| {
      w := Longer(Render(x), Word(s), Render(y), Word(t));
    } else {
      w := Longer(Render(y), Word(t), Render(x), Word(s));
      x, s, y, t := y, t, x, s;
    }
  }

  /** The exact condition on a set of tags: two different step lists over them print the same path if and only if
      some chain that begins in them ends with nothing left over. */
  lemma ConfusableExact(tags: set<string>)
    ensures (exists a, b :: Over(a, tags) && Over(b, tags) && a != b && Render(a) == Render(b)) <==> Confusable(tags)
  {
    if Confusable(tags) {
      var ws :| Chain(tags, ws) && Begins(tags, ws[0]);
      var a, b := ChainConfuses(tags, ws);
    }
    forall a, b | Over(a, tags) && Over(b, tags) && a != b && Render(a) == Render(b)
      ensures Confusable(tags)
    {
      var ws := ConfusedChain(tags, a, b);
    }
  }

  lemma ChainConfuses(tags: set<string>, ws: seq<string>) returns (a: seq<Step>, b: seq<Step>)
    requires Chain(tags, ws) && Begins(tags, ws[0])
    ensures Over(a, tags) && Over(b, tags) && a != b && Render(a) == Render(b)
  {
    a, b := ChainMeets(tags, ws);
    var s, t :| Over([s, t], tags) && s != t && Word(s) == ws[0] + Word(t);
    assert s in [s, t] && t in [s, t];
    RenderSnoc(a, s);
    RenderSnoc(b, t);
    Regroup(Render(a), ws[0], Word(t));
    assert (a + [s])[|a + [s]| - 1] != (b + [t])[|b + [t]| - 1];
    a, b := a + [s], b + [t];
  }

  lemma ConfusedChain(tags: set<string>, a: seq<Step>, b: seq<Step>) returns (ws: seq<string>)
    requires Over(a, tags) && Over(b, tags) && a != b && Render(a) == Render(b)
    ensures Chain(tags, ws) && Begins(tags, ws[0])
  {
    var x, s, y, t, w := Parting(tags, a, b);
    assert s in x + [s] && t in y + [t];
    assert Over([s, t], tags) && Begins(tags, w);
    assert forall r | r in x :: r in x + [s];
    assert forall r | r in y :: r in y + [t];
    ws := MeetsChain(tags, x, y, w);
  }

  lemma RenderInjective(a: seq<Step>, b: seq<Step>, tags: set<string>)
    requires Over(a, tags) && Over(b, tags) && !Confusable(tags) && Render(a) == Render(b)
    ensures a == b
  {
    ConfusableExact(tags);
  }

  // ---------- pages ----------

  /** The lowered tags of all elements below n are among these. */
  ghost predicate Tagged(lower: string -> string, n: Dom, tags: set<string>) {
    forall i | 0 <= i < |n.kids| && n.kids[i].Some? ::
      lower(n.kids[i].value.tag) in tags && Tagged(lower, n.kids[i].value, tags)
  }

  lemma {:induction false} PreorderOver(lower: string -> string, n: Dom, steps: seq<Step>, tags: set<string>)
    requires Tagged(lower, n, tags) && Over(steps, tags)
    ensures forall e | e in Preorder(lower, n, steps) :: Over(e.steps, tags)
    decreases n, |n.kids| + 1
  {
    PreorderKidsOver(lower, n, steps, |n.kids|, tags);
  }

  lemma {:induction false} PreorderKidsOver(lower: string -> string, n: Dom, steps: seq<Step>, i: nat, tags: set<string>)
    requires i <= |n.kids| && Tagged(lower, n, tags) && Over(steps, tags)
    ensures forall e | e in PreorderKids(lower, n, steps, i) :: Over(e.steps, tags)
    decreases n, i
  {
    if i > 0 {
      PreorderKidsOver(lower, n, steps, i - 1, tags);
      if n.kids[i - 1].Some? {
        PreorderOver(lower, n.kids[i - 1].value, steps + [StepTo(lower, n, i - 1)], tags);
      }
    }
  }

  /** The walk's output is a set of addresses, on every page whose tags are not confusable: each emitted path leads
      to the element it was emitted for, read over the tags of the page it can be read in no other way, and no two
      emitted paths are the same string. */
  lemma PathsAreAddresses(lower: string -> string, root: Dom, tags: set<string>)
    requires Tagged(lower, root, tags) && !Confusable(tags)
    ensures var es := Preorder(lower, root, []);
            && (forall e | e in es :: Resolve(lower, root, e.steps) == Some(e.node))
            && (forall e, st | e in es && Over(st, tags) && Render(st) == Render(e.steps) ::
                  Resolve(lower, root, st) == Some(e.node))
            && (forall i, j | 0 <= i < j < |es| :: Render(es[i].steps) != Render(es[j].steps))
  {
    var es := Preorder(lower, root, []);
    PreorderAddressed(lower, root, root, []);
    PreorderDistinct(lower, root, []);
    PreorderOver(lower, root, [], tags);
    forall e, st | e in es && Over(st, tags) && Render(st) == Render(e.steps)
      ensures Resolve(lower, root, st) == Some(e.node)
    {
      RenderInjective(st, e.steps, tags);
    }
    forall i, j | 0 <= i < j < |es|
      ensures Render(es[i].steps) != Render(es[j].steps)
    {
      if Render(es[i].steps) == Render(es[j].steps) {
        assert es[i] in es && es[j] in es;
        RenderInjective(es[i].steps, es[j].steps, tags);
      }
    }
  }

  // ---------- tags that keep paths apart ----------

  /** Tag s is tag t behind a path step: some u, a position in brackets, and a slash. */
  ghost predicate Extends(s: string, t: string) {
    exists u: string, n: nat :: n > 0 && s == Behind(u, n, t)
  }

  function Behind(u: string, n: nat, t: string): string {
    u + "[" + Digits(n) + "]/" + t
  }

  /** A path ends with the position of its last step, behind something. */
  lemma RenderEnds(a: seq<Step>) returns (head: string, n: nat)
    requires a != [] ==> a[|a| - 1].k > 0
    ensures Render(a) == head + "[" + Digits(n) + "]" && n > 0
  {
    if a == [] {
      head, n := "html", 1;
      assert Digits(1) == "1";
    } else {
      head, n := Render(a[..|a| - 1]) + "/" + a[|a| - 1].tag, a[|a| - 1].k;
    }
  }

  /** A text after a slash takes the whole position at the end with it. */
  lemma PositionKept(p: string, w: string, head: string, n: nat) returns (u: string)
    requires p + "/" + w == head + "[" + Digits(n) + "]"
    ensures w == u + "[" + Digits(n) + "]"
  {
    var q, d := p + "/" + w, "[" + Digits(n) + "]";
    assert '/' !in d by {
      assert forall c | c in Digits(n) :: IsDigit(c);
    }
    assert q[|p|] == '/' && q == head + d;
    assert forall i | |head| <= i < |q| :: q[i] in d;
    u := head[|p| + 1..];
    assert w == q[|p| + 1..] == u + d;
  }

  lemma Overlap(p: string, s: string, q: string, t: string) returns (w: string)
    requires p + "/" + s == q + "/" + t && |p| < |q|
    ensures q == p + "/" + w && s == w + "/" + t
  {
    var all := q + "/" + t;
    w := q[|p| + 1..];
    assert all == p + "/" + s;
    assert q == all[..|q|] && all[|p|] == '/' && all[..|p|] == p;
    assert q == p + "/" + w;
    assert s == all[|p| + 1..] == w + "/" + t;
  }

  lemma BehindSegment(u: string, n: nat, t: Step, w: string)
    requires w == u + "[" + Digits(n) + "]"
    ensures Segment(Step(Behind(u, n, t.tag), t.k)) == w + "/" + Segment(t)
  {
    var d, e := Digits(n), Digits(t.k);
    assert u + "[" + d + "]/" + t.tag + "[" + e + "]" == u + "[" + d + "]" + "/" + (t.tag + "[" + e + "]");
  }

  /** Two paths that agree although the paths before their last steps, p and the longer q, do not: the last tag on
      the shorter one is the other last tag behind a step. */
  lemma TextExtends(p: string, s: Step, q: string, t: Step, head: string, n: nat)
    requires p + Word(s) == q + Word(t) && |p| < |q|
    requires n > 0 && q == head + "[" + Digits(n) + "]"
    ensures Extends(s.tag, t.tag)
  {
    Regroup(p, "/", Segment(s));
    Regroup(q, "/", Segment(t));
    var w := Overlap(p, Segment(s), q, Segment(t));
    FromOverlap(p, w, head, n, s, t);
  }

  lemma FromOverlap(p: string, w: string, head: string, n: nat, s: Step, t: Step)
    requires n > 0 && p + "/" + w == head + "[" + Digits(n) + "]" && Segment(s) == w + "/" + Segment(t)
    ensures Extends(s.tag, t.tag)
  {
    var u := PositionKept(p, w, head, n);
    BehindSegment(u, n, t, w);
    SegmentInjective(s, Step(Behind(u, n, t.tag), t.k));
  }

  lemma SameParents(p: string, s: Step, q: string, t: Step)
    requires |p| == |q| && p + Word(s) == q + Word(t)
    ensures s == t
  {
    var all := p + Word(s);
    assert Word(s) == all[|p|..] == Word(t);
    WordInjective(s, t);
  }

  /** Tags of which none extends another. */
  ghost predicate Apart(tags: set<string>) {
    forall s, t | s in tags && t in tags :: !Extends(s, t)
  }

  /** Such tags are never confusable. */
  lemma ApartSuffices(tags: set<string>)
    requires Apart(tags)
    ensures !Confusable(tags)
  {
    ConfusableExact(tags);
    forall a, b | Over(a, tags) && Over(b, tags) && a != b && Render(a) == Render(b)
      ensures false
    {
      var x, s, y, t, w := Parting(tags, a, b);
      assert s in x + [s] && t in y + [t];
      assert y != [] ==> y[|y| - 1] in y + [t];
      PartingExtends(x, s, y, t, w);
    }
  }

  lemma PartingExtends(x: seq<Step>, s: Step, y: seq<Step>, t: Step, w: string)
    requires s != t && Word(s) == w + Word(t) && Render(x) + w == Render(y) && (y != [] ==> y[|y| - 1].k > 0)
    ensures Extends(s.tag, t.tag)
  {
    if w == "" {
      WordInjective(s, t);
    }
    var head, n := RenderEnds(y);
    Regroup(Render(x), w, Word(t));
    TextExtends(Render(x), s, Render(y), t, head, n);
  }

  /** Tags in which no bracket closes before a slash are apart: in particular all tags without a slash. */
  lemma PlainTagsApart(tags: set<string>)
    requires forall t, i | t in tags && 0 <= i < |t| - 1 :: !(t[i] == ']' && t[i + 1] == '/')
    ensures Apart(tags)
  {
    forall s, t | s in tags && t in tags
      ensures !Extends(s, t)
    {
      if Extends(s, t) {
        ClosesBeforeSlash(s, t);
      }
    }
  }

  lemma ClosesBeforeSlash(s: string, t: string)
    requires Extends(s, t)
    ensures exists i :: 0 <= i < |s| - 1 && s[i] == ']' && s[i + 1] == '/'
  {
    var u, n :| n > 0 && s == Behind(u, n, t);
    var i := |u + "[" + Digits(n)|;
    assert s[i] == ']' && s[i + 1] == '/';
  }

  // ---------- which tags can share a path ----------

  /** Two elements of the page, whose paths end in these tags, get the same path. */
  ghost predicate SharePath(lower: string -> string, page: Dom, s: string, t: string) {
    exists e, f :: Sharing(Preorder(lower, page, []), e, f, s, t)
  }

  ghost predicate Sharing(es: seq<Entry>, e: Entry, f: Entry, s: string, t: string) {
    && e in es && f in es && e.steps != [] && f.steps != []
    && e.steps[|e.steps| - 1].tag == s && f.steps[|f.steps| - 1].tag == t && Render(e.steps) == Render(f.steps)
  }

  /** Every address of the page is emitted. */
  lemma {:induction false} AddressEmitted(lower: string -> string, n: Dom, steps: seq<Step>, path: seq<Step>, m: Dom)
    requires Resolve(lower, n, path) == Some(m)
    ensures Entry(m, steps + path) in Preorder(lower, n, steps)
    decreases |path|
  {
    if path == [] {
      assert steps + path == steps;
    } else {
      var i := FoundAt(lower, n, path[0], |n.kids|);
      var kid := n.kids[i].value;
      AddressEmitted(lower, kid, steps + [path[0]], path[1..], m);
      assert steps + [path[0]] + path[1..] == steps + path;
      KidEmitted(lower, n, steps, i, |n.kids|, Entry(m, steps + path));
    }
  }

  lemma {:induction false} FoundAt(lower: string -> string, n: Dom, s: Step, j: nat) returns (i: nat)
    requires j <= |n.kids| && Find(lower, n, s, j).Some?
    ensures i < |n.kids| && n.kids[i] == Find(lower, n, s, j) && n.kids[i].Some? && StepTo(lower, n, i) == s
  {
    if Matches(lower, n, s.tag, j - 1) && Count(lower, n, s.tag, j) == s.k {
      i := j - 1;
    } else {
      i := FoundAt(lower, n, s, j - 1);
    }
  }

  lemma {:induction false} KidEmitted(lower: string -> string, n: Dom, steps: seq<Step>, i: nat, j: nat, e: Entry)
    requires i < j <= |n.kids| && n.kids[i].Some?
    requires e in Preorder(lower, n.kids[i].value, steps + [StepTo(lower, n, i)])
    ensures e in PreorderKids(lower, n, steps, j)
    decreases j
  {
    if i < j - 1 {
      KidEmitted(lower, n, steps, i, j - 1, e);
    }
  }

  lemma {:induction false} PreorderNumbered(lower: string -> string, n: Dom, steps: seq<Step>)
    requires forall s | s in steps :: s.k > 0
    ensures forall e, s | e in Preorder(lower, n, steps) && s in e.steps :: s.k > 0
    decreases n, |n.kids| + 1
  {
    PreorderKidsNumbered(lower, n, steps, |n.kids|);
  }

  lemma {:induction false} PreorderKidsNumbered(lower: string -> string, n: Dom, steps: seq<Step>, i: nat)
    requires i <= |n.kids| && forall s | s in steps :: s.k > 0
    ensures forall e, s | e in PreorderKids(lower, n, steps, i) && s in e.steps :: s.k > 0
    decreases n, i
  {
    if i > 0 {
      PreorderKidsNumbered(lower, n, steps, i - 1);
      if n.kids[i - 1].Some? {
        PreorderNumbered(lower, n.kids[i - 1].value, steps + [StepTo(lower, n, i - 1)]);
      }
    }
  }

  lemma Last(a: seq<Step>) returns (x: seq<Step>, s: Step)
    requires a != []
    ensures a == x + [s] && s == a[|a| - 1] && Render(a) == Render(x) + Word(s)
  {
    x, s := a[..|a| - 1], a[|a| - 1];
    RenderSnoc(x, s);
  }

  /** Elements that share a path with different last tags have tags of which one extends the other. */
  lemma SharingTagsExtend(lower: string -> string, page: Dom, s: string, t: string)
    requires s != t && SharePath(lower, page, s, t)
    ensures Extends(s, t) || Extends(t, s)
  {
    var e, f :| Sharing(Preorder(lower, page, []), e, f, s, t);
    PreorderNumbered(lower, page, []);
    var x, last := Last(e.steps);
    var y, last' := Last(f.steps);
    assert forall r | r in x :: r in e.steps;
    assert forall r | r in y :: r in f.steps;
    if |Render(x)| < |Render(y)| {
      assert y != [] ==> y[|y| - 1] in y;
      var head, n := RenderEnds(y);
      TextExtends(Render(x), last, Render(y), last', head, n);
    } else if |Render(y)| < |Render(x)| {
      assert x != [] ==> x[|x| - 1] in x;
      var head, n := RenderEnds(x);
      TextExtends(Render(y), last', Render(x), last, head, n);
    } else {
      SameParents(Render(x), last, Render(y), last');
    }
  }

  // ---------- the pages on which they do ----------

  /** Lowering changes nothing about a name that has no capitals, as far as ASCII goes. */
  ghost predicate Keeps(lower: string -> string) {
    forall x: string | HtmlTokens.Name(x) && Ascii(x) :: lower(x) == x
  }

  /** On the page of this text two elements, whose paths end in these tags, get the same path. */
  ghost predicate TextShares(lower: string -> string, text: string, s: string, t: string) {
    Page(text).Some? && SharePath(lower, Page(text).value, s, t)
  }

  /** The i-th kid is the k-th with its tag, when k are met up to it: its step leads to it. */
  lemma StepLeads(lower: string -> string, n: Dom, i: nat, t: string, k: nat)
    requires i < |n.kids| && Matches(lower, n, t, i) && Count(lower, n, t, i + 1) == k
    ensures Find(lower, n, Step(t, k), |n.kids|) == n.kids[i]
  {
    StepFinds(lower, n, i, |n.kids|);
  }

  lemma OnlyKid(lower: string -> string, n: Dom, kid: Dom, rest: seq<Step>, m: Dom)
    requires n.kids == [Some(kid)] && lower(kid.tag) == kid.tag && Resolve(lower, kid, rest) == Some(m)
    ensures Resolve(lower, n, [Step(kid.tag, 1)] + rest) == Some(m)
  {
    assert Count(lower, n, kid.tag, 0) == 0 && Matches(lower, n, kid.tag, 0);
    StepLeads(lower, n, 0, kid.tag, 1);
    assert ([Step(kid.tag, 1)] + rest)[1..] == rest;
  }

  lemma {:induction false} RowCount(lower: string -> string, body: Dom, first: Dom, v: string, n: nat, t: string, i: nat)
    requires n > 0 && i <= n && lower(first.tag) != v && lower(v) == v && body.kids == [Some(first)] + Row(v, n, t)
    ensures Count(lower, body, v, i + 1) == i
  {
    if i > 0 {
      RowCount(lower, body, first, v, n, t, i - 1);
      assert Matches(lower, body, v, i);
    } else {
      assert !Matches(lower, body, v, 0) && Count(lower, body, v, 0) == 0;
    }
  }

  /** The two addresses of such a body: that of what the first kid holds and that of what the last one does. */
  lemma RowResolves(lower: string -> string, body: Dom, s: string, v: string, n: nat, t: string)
    requires n > 0 && v != "a" && body.kids == [Some(Element("a", [Some(Element(s, []))]))] + Row(v, n, t)
    requires lower("a") == "a" && lower(s) == s && lower(v) == v && lower(t) == t
    ensures Resolve(lower, body, [Step("a", 1), Step(s, 1)]) == Some(Element(s, []))
    ensures Resolve(lower, body, [Step(v, n), Step(t, 1)]) == Some(Element(t, []))
  {
    var first, last := Element("a", [Some(Element(s, []))]), Element(v, [Some(Element(t, []))]);
    assert Count(lower, body, "a", 0) == 0 && Matches(lower, body, "a", 0);
    StepLeads(lower, body, 0, "a", 1);
    OnlyKid(lower, first, Element(s, []), [], Element(s, []));
    assert [Step(s, 1)] + [] == [Step(s, 1)] == [Step("a", 1), Step(s, 1)][1..];
    RowCount(lower, body, first, v, n, t, n);
    assert body.kids[n] == Some(last) && Matches(lower, body, v, n);
    StepLeads(lower, body, n, v, n);
    OnlyKid(lower, last, Element(t, []), [], Element(t, []));
    assert [Step(t, 1)] + [] == [Step(t, 1)] == [Step(v, n), Step(t, 1)][1..];
  }

  lemma RenderThree(r: Step, s: Step, t: Step)
    ensures Render([r, s, t]) == ROOT + Word(r) + (Word(s) + Word(t))
  {
    RenderSnoc([], r);
    RenderSnoc([r], s);
    RenderSnoc([r, s], t);
    assert [] + [r] == [r] && [r] + [s] == [r, s] && [r, s] + [t] == [r, s, t];
    Regroup(ROOT + Word(r), Word(s), Word(t));
  }

  /** The words of the two paths: a tag that spells out the whole of the other element's parents. */
  lemma SameWords(u: string, n: nat, t: string)
    ensures Word(Step("a", 1)) + Word(Step(Behind(u, n, t), 1)) == Word(Step("a[1]/" + u, n)) + Word(Step(t, 1))
  {
    var gap, last := "/" + u + "[" + Digits(n) + "]", Word(Step(t, 1));
    assert Digits(1) == "1";
    assert Word(Step("a", 1)) == "/a[1]";
    assert Word(Step(Behind(u, n, t), 1)) == gap + last;
    assert Word(Step("a[1]/" + u, n)) == "/a[1]" + gap;
    Regroup("/a[1]", gap, last);
  }

  lemma {:induction false} PlainScan(x: string)
    requires forall i | 0 <= i < |x| :: x[i] !in {'=', '"', '\'', '>'}
    ensures HtmlTokens.TagEnd(x, HtmlTokens.START) == |x| && HtmlTokens.After(x, HtmlTokens.START) == HtmlTokens.START
  {
    if x != "" {
      PlainScan(x[1..]);
    }
  }

  /** The parent's tag is a name when the tag that extends is one. */
  lemma ParentNamed(u: string, n: nat, t: string)
    requires HtmlTokens.Name(Behind(u, n, t)) && Ascii(Behind(u, n, t))
    ensures HtmlTokens.Name("a[1]/" + u) && Ascii("a[1]/" + u)
  {
    var s, rest := Behind(u, n, t), "[" + Digits(n) + "]/" + t;
    assert s == u + rest;
    HtmlTokens.TagEndPrefix(u, rest, HtmlTokens.START);
    assert forall i | 0 <= i < |u| :: u[i] == s[i] && s[i] in s;
    JoinNamed("a[1]/", u);
  }

  /** Characters of names. */
  predicate Lowered(x: string) {
    forall i | 0 <= i < |x| :: !HtmlTokens.Space(x[i]) && HtmlTokens.Lower(x[i]) == x[i] && x[i] < 128 as char
  }

  lemma JoinNamed(front: string, u: string)
    requires front != "" && Lowered(front) && Lowered(u) && HtmlTokens.TagEnd(u, HtmlTokens.START) == |u|
    requires forall i | 0 <= i < |front| :: front[i] !in {'=', '"', '\'', '>'}
    ensures HtmlTokens.Name(front + u) && Ascii(front + u)
  {
    PlainScan(front);
    HtmlTokens.ScanConcat(front, u, HtmlTokens.START);
    assert forall i | 0 <= i < |front + u| :: (front + u)[i] == if i < |front| then front[i] else u[i - |front|];
  }

  /** For every tag behind a step a text whose page prints one path twice. */
  lemma ExtendingTagsShare(lower: string -> string, u: string, n: nat, t: string) returns (text: string)
    requires n > 0 && HtmlTokens.Name(t) && Ascii(t) && Keeps(lower)
    requires HtmlTokens.Name(Behind(u, n, t)) && Ascii(Behind(u, n, t))
    ensures TextShares(lower, text, Behind(u, n, t), t)
  {
    var s, v := Behind(u, n, t), "a[1]/" + u;
    ParentNamed(u, n, t);
    assert s[|u|] == '[';
    text := RowText(s, v, n, t);
    BracketsParsed(s, v, n, t);
    KeepsPlain(lower);
    PathsMeet(lower, u, n, t, s, v, RowPage(s, v, n, t));
  }

  lemma KeepsPlain(lower: string -> string)
    requires Keeps(lower)
    ensures lower("a") == "a" && lower("body") == "body"
  {
    assert HtmlTokens.Name("a") && HtmlTokens.Name("body");
  }

  lemma BracketsParsed(s: string, v: string, n: nat, t: string)
    requires n > 0 && HtmlTokens.Name(s) && HtmlTokens.Name(v) && HtmlTokens.Name(t) && '[' in s && '[' in v && v[0] == 'a'
    ensures Page(RowText(s, v, n, t)) == Some(RowPage(s, v, n, t))
  {
    BracketPlain(s);
    BracketPlain(v);
    RowParsed(s, v, n, t);
  }

  /** On such a page both elements are emitted, with the same path. */
  lemma PathsMeet(lower: string -> string, u: string, n: nat, t: string, s: string, v: string, page: Dom)
    requires n > 0 && s == Behind(u, n, t) && v == "a[1]/" + u && page == RowPage(s, v, n, t)
    requires lower("body") == "body" && lower("a") == "a" && lower(s) == s && lower(v) == v && lower(t) == t
    ensures SharePath(lower, page, s, t)
  {
    var body := page.kids[0].value;
    var a, b := [Step("body", 1), Step("a", 1), Step(s, 1)], [Step("body", 1), Step(v, n), Step(t, 1)];
    assert |v| > 1;
    RowResolves(lower, body, s, v, n, t);
    Emitted(lower, page, body, [Step("a", 1), Step(s, 1)], Element(s, []), a);
    Emitted(lower, page, body, [Step(v, n), Step(t, 1)], Element(t, []), b);
    SameRendering(u, n, t, a, b);
    Shared(Preorder(lower, page, []), Entry(Element(s, []), a), Entry(Element(t, []), b), s, t);
    assert Sharing(Preorder(lower, page, []), Entry(Element(s, []), a), Entry(Element(t, []), b), s, t);
  }

  lemma Shared(es: seq<Entry>, e: Entry, f: Entry, s: string, t: string)
    requires e in es && f in es && |e.steps| == |f.steps| == 3 && e.steps[2].tag == s && f.steps[2].tag == t
    requires Render(e.steps) == Render(f.steps)
    ensures Sharing(es, e, f, s, t)
  {
  }

  lemma Emitted(lower: string -> string, page: Dom, body: Dom, rest: seq<Step>, m: Dom, path: seq<Step>)
    requires page.kids == [Some(body)] && lower(body.tag) == body.tag && Resolve(lower, body, rest) == Some(m)
    requires path == [Step(body.tag, 1)] + rest
    ensures Entry(m, path) in Preorder(lower, page, [])
  {
    OnlyKid(lower, page, body, rest, m);
    AddressEmitted(lower, page, [], path, m);
    assert [] + path == path;
  }

  lemma SameRendering(u: string, n: nat, t: string, a: seq<Step>, b: seq<Step>)
    requires a == [Step("body", 1), Step("a", 1), Step(Behind(u, n, t), 1)]
    requires b == [Step("body", 1), Step("a[1]/" + u, n), Step(t, 1)]
    ensures Render(a) == Render(b)
  {
    RenderThree(a[0], a[1], a[2]);
    RenderThree(b[0], b[1], b[2]);
    SameWords(u, n, t);
  }

  lemma ShareSwap(lower: string -> string, page: Dom, s: string, t: string)
    requires SharePath(lower, page, s, t)
    ensures SharePath(lower, page, t, s)
  {
    var e, f :| Sharing(Preorder(lower, page, []), e, f, s, t);
    assert Sharing(Preorder(lower, page, []), f, e, t, s);
  }

  /** The exact condition on a pair of tags, over all texts: elements with two different tags can get the same path
      if and only if one of the tags is the other behind a step. */
  lemma TagsShareAPath(lower: string -> string, s: string, t: string)
    requires HtmlTokens.Name(s) && Ascii(s) && HtmlTokens.Name(t) && Ascii(t) && s != t && Keeps(lower)
    ensures (exists text :: TextShares(lower, text, s, t)) <==> Extends(s, t) || Extends(t, s)
  {
    if Extends(s, t) {
      var u, n :| n > 0 && s == Behind(u, n, t);
      var text := ExtendingTagsShare(lower, u, n, t);
    } else if Extends(t, s) {
      var u, n :| n > 0 && t == Behind(u, n, s);
      var text := ExtendingTagsShare(lower, u, n, s);
      ShareSwap(lower, Page(text).value, t, s);
      assert TextShares(lower, text, s, t);
    } else {
      forall text | TextShares(lower, text, s, t)
        ensures false
      {
        SharingTagsExtend(lower, Page(text).value, s, t);
      }
    }
  }

  /** The two addresses of a body that holds an a with a b in it, and an element ab. */
  lemma SmallResolves(lower: string -> string, body: Dom, ab: string)
    requires body == Element("body", [Some(Element("a", [Some(Element("b", []))])), Some(Element(ab, []))])
    requires lower("a") == "a" && lower("b") == "b" && lower(ab) == ab && ab != "a"
    ensures Resolve(lower, body, [Step("a", 1), Step("b", 1)]) == Some(Element("b", []))
    ensures Resolve(lower, body, [Step(ab, 1)]) == Some(Element(ab, []))
  {
    var first := Element("a", [Some(Element("b", []))]);
    assert Count(lower, body, "a", 0) == 0 && Matches(lower, body, "a", 0);
    StepLeads(lower, body, 0, "a", 1);
    OnlyKid(lower, first, Element("b", []), [], Element("b", []));
    assert [Step("b", 1)] + [] == [Step("b", 1)] == [Step("a", 1), Step("b", 1)][1..];
    assert !Matches(lower, body, ab, 0) && Count(lower, body, ab, 0) == Count(lower, body, ab, 1) == 0;
    assert Matches(lower, body, ab, 1);
    StepLeads(lower, body, 1, ab, 1);
    assert [Step(ab, 1)][1..] == [];
  }

  lemma SmallRendering(ab: string)
    requires ab == "a[1]/b"
    ensures Render([Step("body", 1), Step("a", 1), Step("b", 1)]) == Render([Step("body", 1), Step(ab, 1)])
  {
    var body, a, b := Step("body", 1), Step("a", 1), Step("b", 1);
    RenderThree(body, a, b);
    RenderSnoc([], body);
    RenderSnoc([body], Step(ab, 1));
    assert [] + [body] == [body] && [body] + [Step(ab, 1)] == [body, Step(ab, 1)];
    assert Digits(1) == "1";
    assert Word(a) + Word(b) == "/a[1]/b[1]" == Word(Step(ab, 1));
  }

  /** A text whose page prints one path twice, html[1]/body[1]/a[1]/b[1]. */
  lemma SlashTagsCollide(lower: string -> string, text: string)
    requires Keeps(lower) && text == "<a><b></a><a[1]/b>"
    ensures TextShares(lower, text, "b", "a[1]/b")
  {
    var ab := "a[1]/b";
    var t1, t2, t3 := SmallText(text, ab);
    SmallNames(ab);
    SmallParsed(text, t1, t2, t3, ab);
    KeepsPlain(lower);
    SmallShares(lower, ab, Page(text).value);
  }

  lemma SmallText(text: string, ab: string) returns (t1: string, t2: string, t3: string)
    requires text == "<a><b></a><a[1]/b>" && ab == "a[1]/b"
    ensures t3 == "<" + ("" + ab) + ">" + "" && t2 == "<" + ("/" + "a") + ">" + t3
    ensures t1 == "<" + ("" + "b") + ">" + t2 && text == "<" + ("" + "a") + ">" + t1
  {
    t3 := "<" + ("" + ab) + ">" + "";
    t2 := "<" + ("/" + "a") + ">" + t3;
    t1 := "<" + ("" + "b") + ">" + t2;
    assert t3 == "<a[1]/b>";
    assert t2 == "</a><a[1]/b>";
    assert t1 == "<b></a><a[1]/b>";
  }

  lemma SmallNames(ab: string)
    requires ab == "a[1]/b"
    ensures HtmlTokens.Name("b") && HtmlTokens.Name(ab) && Ascii(ab) && HtmlTokens.Simple(ab) && Plain(ab)
  {
    PlainScan(ab);
    PlainScan("b");
    assert ab[1] == '[';
    BracketPlain(ab);
  }

  lemma SmallShares(lower: string -> string, ab: string, page: Dom)
    requires page == Whole([Some(Element("a", [Some(Element("b", []))])), Some(Element(ab, []))]) && ab == "a[1]/b"
    requires lower("body") == "body" && lower("a") == "a" && lower("b") == "b" && lower(ab) == ab
    ensures SharePath(lower, page, "b", ab)
  {
    var body := page.kids[0].value;
    SmallResolves(lower, body, ab);
    var x, y := [Step("body", 1), Step("a", 1), Step("b", 1)], [Step("body", 1), Step(ab, 1)];
    Emitted(lower, page, body, [Step("a", 1), Step("b", 1)], Element("b", []), x);
    Emitted(lower, page, body, [Step(ab, 1)], Element(ab, []), y);
    SmallRendering(ab);
    assert Sharing(Preorder(lower, page, []), Entry(Element("b", []), x), Entry(Element(ab, []), y), "b", ab);
  }
}
