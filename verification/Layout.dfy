/** The block layout engine: heights are measured bottom up, boxes are painted top down. The boxes form a
    nested, stacked picture, and the display list is its nodes in document order. */
module Layout {
  import opened Sequences

  const NONE := -1

  /** The style slots of a node; NONE where nothing is set. */
  datatype Style = Style(color: int, bg: int, font: int, pad: int, margin: int, bw: int, bc: int, radius: int)

  datatype Node = Node(text: string, style: Style, children: seq<Node>)

  datatype Box = Box(x: int, y: int, w: int, h: int)

  datatype Cmd =
    | Rect(box: Box, fill: int, stroke: int, strokeColor: int, corner: int)
    | Words(x: int, y: int, text: string, color: int, size: int)

  function Or(v: int, other: int): int {
    if v == NONE then other else v
  }

  /** Margin and padding of a node on one side. */
  function Edge(n: Node): int {
    Or(n.style.margin, 0) + Or(n.style.pad, 0)
  }

  // ---------- the two passes as functions ----------

  /** The height of the one line of a leaf. */
  function Line(n: Node): int {
    if n.text == "" then 0 else Or(n.style.font, 16) + 6
  }

  function Measure(n: Node): int
    decreases n
  {
    (if n.children == [] then Line(n) else Stack(n, |n.children|)) + Edge(n) * 2
  }

  /** The height of the first k children. */
  function Stack(n: Node, k: nat): int
    requires k <= |n.children|
    decreases n, k
  {
    if k == 0 then 0 else Stack(n, k - 1) + Measure(n.children[k - 1])
  }

  /** A box with the same distance taken off on every side. */
  function Shrink(b: Box, d: int): Box {
    Box(b.x + d, b.y + d, b.w - d * 2, b.h - d * 2)
  }

  function Content(n: Node, b: Box): Box {
    Shrink(b, Edge(n))
  }

  /** The place of child i of a node placed at b. */
  function ChildBox(n: Node, b: Box, i: nat): Box
    requires i < |n.children|
  {
    var c := Content(n, b);
    Box(c.x, c.y + Stack(n, i), c.w, Measure(n.children[i]))
  }

  predicate Filled(n: Node) {
    n.style.bg != NONE || n.style.bw != NONE
  }

  predicate Worded(n: Node) {
    n.children == [] && n.text != ""
  }

  function FillOf(n: Node, b: Box): Cmd {
    Rect(Shrink(b, Or(n.style.margin, 0)), Or(n.style.bg, 0), Or(n.style.bw, 0), Or(n.style.bc, 0),
         Or(n.style.radius, 0))
  }

  function WordsOf(n: Node, b: Box): Cmd {
    var c := Content(n, b);
    Words(c.x, c.y, n.text, Or(n.style.color, 0xFFFFFFFF), Or(n.style.font, 16))
  }

  /** What a node draws itself, before its children. */
  function Own(n: Node, b: Box): seq<Cmd> {
    (if Filled(n) then [FillOf(n, b)] else []) + if Worded(n) then [WordsOf(n, b)] else []
  }

  function Display(n: Node, b: Box): seq<Cmd>
    decreases n
  {
    Own(n, b) + Kids(n, b, |n.children|)
  }

  function Kids(n: Node, b: Box, k: nat): seq<Cmd>
    requires k <= |n.children|
    decreases n, k
  {
    if k == 0 then [] else Kids(n, b, k - 1) + Display(n.children[k - 1], ChildBox(n, b, k - 1))
  }

  // ---------- the passes of the engine ----------

  /** The width is passed down and never used. */
  method MeasureNode(n: Node, w: int) returns (h: int)
    ensures h == Measure(n)
    decreases n
  {
    var m := Or(n.style.margin, 0);
    var p := Or(n.style.pad, 0);
    var inner := 0;
    if |n.children| == 0 {
      if |n.text| > 0 {
        inner := Or(n.style.font, 16) + 6;
      }
    } else {
      var i := 0;
      while i < |n.children|
        invariant 0 <= i <= |n.children| && inner == Stack(n, i)
      {
        var child := MeasureNode(n.children[i], w - (m + p) * 2);
        inner := inner + child;
        i := i + 1;
      }
    }
    return inner + p * 2 + m * 2;
  }

  class Canvas {
    var list: seq<Cmd>

    constructor ()
      ensures list == []
    {
      list := [];
    }

    /** Paints a node at x, y in the width w; the height taken is the one measured. */
    method PaintNode(n: Node, x: int, y: int, w: int) returns (h: int)
      modifies this
      ensures h == Measure(n)
      ensures list == old(list) + Display(n, Box(x, y, w, Measure(n)))
      decreases n
    {
      ghost var b := Box(x, y, w, Measure(n));
      ghost var before := list;
      var m := Or(n.style.margin, 0);
      var p := Or(n.style.pad, 0);
      var boxX, boxY, boxW := x + m, y + m, w - m * 2;
      var boxH := MeasureNode(n, w);
      boxH := boxH - m * 2;
      if n.style.bg != NONE || n.style.bw != NONE {
        list := list + [Rect(Box(boxX, boxY, boxW, boxH), Or(n.style.bg, 0), Or(n.style.bw, 0), Or(n.style.bc, 0),
                             Or(n.style.radius, 0))];
      }
      var contentX, contentW := boxX + p, boxW - p * 2;
      var cy := boxY + p;
      if |n.children| == 0 {
        if |n.text| > 0 {
          list := list + [Words(contentX, cy, n.text, Or(n.style.color, 0xFFFFFFFF), Or(n.style.font, 16))];
        }
        assert list == before + Own(n, b) && Kids(n, b, 0) == [];
      } else {
        var i := 0;
        assert list == before + Own(n, b) + Kids(n, b, 0);
        while i < |n.children|
          invariant 0 <= i <= |n.children| && cy == Content(n, b).y + Stack(n, i)
          invariant list == before + Own(n, b) + Kids(n, b, i)
        {
          var child := PaintNode(n.children[i], contentX, cy, contentW);
          Regroup(before + Own(n, b), Kids(n, b, i), Display(n.children[i], ChildBox(n, b, i)));
          cy := cy + child;
          i := i + 1;
        }
      }
      Regroup(before, Own(n, b), Kids(n, b, |n.children|));
      return boxH + m * 2;
    }

    /** The top nodes of a document, stacked from the top of the window. */
    method PaintPage(page: Node, width: int)
      requires Edge(page) == 0 && !Filled(page) && !Worded(page)
      modifies this
      ensures list == old(list) + Display(page, Box(0, 0, width, Measure(page)))
    {
      ghost var b, before := Box(0, 0, width, Measure(page)), list;
      var yy, i := 0, 0;
      while i < |page.children|
        invariant 0 <= i <= |page.children| && yy == Stack(page, i)
        invariant list == before + Kids(page, b, i)
      {
        var h := PaintNode(page.children[i], 0, yy, width);
        Regroup(before, Kids(page, b, i), Display(page.children[i], ChildBox(page, b, i)));
        yy := yy + h;
        i := i + 1;
      }
      assert Display(page, b) == Kids(page, b, |page.children|);
    }
  }

  // ---------- nodes by their path ----------

  type Path = seq<nat>

  predicate Valid(n: Node, path: Path)
    decreases |path|
  {
    path != [] ==> path[0] < |n.children| && Valid(n.children[path[0]], path[1..])
  }

  function At(n: Node, path: Path): Node
    requires Valid(n, path)
    decreases |path|
  {
    if path == [] then n else At(n.children[path[0]], path[1..])
  }

  /** The outer box of the node at a path, when its root is placed at b. */
  function Place(n: Node, b: Box, path: Path): Box
    requires Valid(n, path)
    decreases |path|
  {
    if path == [] then b else Place(n.children[path[0]], ChildBox(n, b, path[0]), path[1..])
  }

  lemma {:induction false} PlaceJoin(n: Node, b: Box, p: Path, q: Path)
    requires Valid(n, p + q)
    ensures Valid(n, p) && Valid(At(n, p), q) && At(n, p + q) == At(At(n, p), q)
    ensures Place(n, b, p + q) == Place(At(n, p), Place(n, b, p), q)
    decreases |p|
  {
    if p == [] {
      assert p + q == q;
    } else {
      assert (p + q)[0] == p[0] && (p + q)[1..] == p[1..] + q;
      PlaceJoin(n.children[p[0]], ChildBox(n, b, p[0]), p[1..], q);
    }
  }

  lemma {:induction false} PlaceHeight(n: Node, b: Box, path: Path)
    requires Valid(n, path) && b.h == Measure(n)
    ensures Place(n, b, path).h == Measure(At(n, path))
    decreases |path|
  {
    if path != [] {
      PlaceHeight(n.children[path[0]], ChildBox(n, b, path[0]), path[1..]);
    }
  }

  /** No edge and no font of the tree is negative. */
  predicate Sane(n: Node) {
    && Or(n.style.margin, 0) >= 0 && Or(n.style.pad, 0) >= 0 && Or(n.style.font, 16) >= 0
    && forall c | c in n.children :: Sane(c)
  }

  lemma {:induction false} HeightUp(n: Node)
    requires Sane(n)
    ensures Measure(n) >= Edge(n) * 2
    decreases n
  {
    StackUp(n, 0, |n.children|);
  }

  lemma {:induction false} StackUp(n: Node, i: nat, k: nat)
    requires Sane(n) && i <= k <= |n.children|
    ensures Stack(n, i) <= Stack(n, k)
    decreases n, k - i
  {
    if i < k {
      StackUp(n, i, k - 1);
      assert n.children[k - 1] in n.children;
      HeightUp(n.children[k - 1]);
    }
  }

  predicate Within(a: Box, b: Box) {
    b.x <= a.x && a.x + a.w <= b.x + b.w && b.y <= a.y && a.y + a.h <= b.y + b.h
  }

  /** The children of a node fill its content box: stacked without gaps from its top to its bottom. */
  lemma ChildrenFill(n: Node, b: Box, i: nat)
    requires i < |n.children| && b.h == Measure(n)
    ensures var c := Content(n, b);
            && ChildBox(n, b, 0).y == c.y
            && (if i + 1 < |n.children| then ChildBox(n, b, i + 1).y else c.y + c.h)
               == ChildBox(n, b, i).y + ChildBox(n, b, i).h
            && ChildBox(n, b, i).x == c.x && ChildBox(n, b, i).w == c.w
  {
  }

  lemma ChildInside(n: Node, b: Box, i: nat)
    requires Sane(n) && i < |n.children| && b.h == Measure(n)
    ensures Within(ChildBox(n, b, i), Content(n, b))
  {
    StackUp(n, 0, i);
    StackUp(n, i + 1, |n.children|);
  }

  lemma {:induction false} DescendantInside(n: Node, b: Box, path: Path)
    requires Sane(n) && Valid(n, path) && path != [] && b.h == Measure(n)
    ensures Within(Place(n, b, path), Content(n, b))
    decreases |path|
  {
    var i, c := path[0], ChildBox(n, b, path[0]);
    ChildInside(n, b, i);
    assert n.children[i] in n.children;
    if |path| > 1 {
      DescendantInside(n.children[i], c, path[1..]);
    } else {
      assert path[1..] == [];
    }
  }

  lemma {:induction false} SaneAt(n: Node, path: Path)
    requires Sane(n) && Valid(n, path)
    ensures Sane(At(n, path))
    decreases |path|
  {
    if path != [] {
      assert n.children[path[0]] in n.children;
      SaneAt(n.children[path[0]], path[1..]);
    }
  }

  /** Every box lies in the content box of each of its ancestors. */
  lemma AncestorsContain(n: Node, b: Box, p: Path, q: Path)
    requires Sane(n) && Valid(n, p + q) && q != [] && b.h == Measure(n)
    ensures Valid(n, p) && Within(Place(n, b, p + q), Content(At(n, p), Place(n, b, p)))
  {
    PlaceJoin(n, b, p, q);
    PlaceHeight(n, b, p);
    SaneAt(n, p);
    DescendantInside(At(n, p), Place(n, b, p), q);
  }

  /** A node lies wholly above every node that comes after it in the document without being inside it. */
  lemma {:induction false} LaterBelow(n: Node, b: Box, p: Path, i: nat, q: Path, j: nat, r: Path)
    requires Sane(n) && b.h == Measure(n) && i < j && Valid(n, p + ([i] + q)) && Valid(n, p + ([j] + r))
    ensures var above := Place(n, b, p + ([i] + q)); above.y + above.h <= Place(n, b, p + ([j] + r)).y
  {
    PlaceJoin(n, b, p, [i] + q);
    PlaceJoin(n, b, p, [j] + r);
    PlaceHeight(n, b, p);
    SaneAt(n, p);
    SiblingsApart(At(n, p), Place(n, b, p), i, q, j, r);
  }

  lemma SiblingsApart(n: Node, b: Box, i: nat, q: Path, j: nat, r: Path)
    requires Sane(n) && b.h == Measure(n) && i < j && Valid(n, [i] + q) && Valid(n, [j] + r)
    ensures var above := Place(n, b, [i] + q); above.y + above.h <= Place(n, b, [j] + r).y
  {
    BranchInside(n, b, i, q);
    BranchInside(n, b, j, r);
    StackUp(n, i + 1, j);
  }

  lemma BranchInside(n: Node, b: Box, i: nat, q: Path)
    requires Sane(n) && b.h == Measure(n) && Valid(n, [i] + q)
    ensures i < |n.children| && Within(Place(n, b, [i] + q), ChildBox(n, b, i))
  {
    assert ([i] + q)[0] == i && ([i] + q)[1..] == q;
    assert n.children[i] in n.children;
    if q != [] {
      DescendantInside(n.children[i], ChildBox(n, b, i), q);
      HeightUp(n.children[i]);
    }
  }

  // ---------- what one node takes and draws ----------

  /** v is the value of a style slot: -1 stands for what holds when nothing is set. */
  predicate Slot(slot: int, unset: int, v: int) {
    if slot == -1 then v == unset else v == slot
  }

  /** A leaf is as high as its line and its edges: the line is 6 more than the font, 16 unless set, and a leaf with no
      text has none. */
  lemma LeafHeight(n: Node, font: int, margin: int, pad: int)
    requires n.children == [] && Slot(n.style.font, 16, font)
    requires Slot(n.style.margin, 0, margin) && Slot(n.style.pad, 0, pad)
    ensures n.text == "" ==> Measure(n) == 2 * (margin + pad)
    ensures n.text != "" ==> Measure(n) == font + 6 + 2 * (margin + pad)
  {
  }

  /** A node with children is as high as these together and its edges; without, its own text does not count. */
  lemma ParentHeight(n: Node, margin: int, pad: int, i: nat)
    requires i < |n.children| && Slot(n.style.margin, 0, margin) && Slot(n.style.pad, 0, pad)
    ensures Measure(n) == Stack(n, |n.children|) + 2 * (margin + pad)
    ensures Stack(n, 0) == 0 && Stack(n, i + 1) - Stack(n, i) == Measure(n.children[i])
  {
  }

  /** The rectangle of a node is its margin inside its box, and drawn exactly if a background or a border is set. */
  lemma RectDrawn(n: Node, b: Box, margin: int, r: Box)
    requires Slot(n.style.margin, 0, margin)
    requires r.x == b.x + margin && r.y == b.y + margin
    requires r.x + r.w == b.x + b.w - margin && r.y + r.h == b.y + b.h - margin
    ensures n.style.bg == -1 && n.style.bw == -1 <==> forall c | c in Own(n, b) :: c.Words?
    ensures n.style.bg != -1 || n.style.bw != -1 ==>
              var c := Own(n, b)[0];
              && c.Rect? && c.box == r && Slot(n.style.bg, 0, c.fill) && Slot(n.style.bw, 0, c.stroke)
              && Slot(n.style.bc, 0, c.strokeColor) && Slot(n.style.radius, 0, c.corner)
  {
    if n.style.bg != -1 || n.style.bw != -1 {
      assert FillOf(n, b).box == r;
      assert Own(n, b)[0] in Own(n, b);
    }
  }

  /** The words of a leaf stand one margin and one padding inside the upper left corner, over the rectangle, and the
      line that they take fills the height between the edges. */
  lemma WordsDrawn(n: Node, b: Box, margin: int, pad: int, font: int)
    requires Slot(n.style.margin, 0, margin) && Slot(n.style.pad, 0, pad) && Slot(n.style.font, 16, font)
    ensures n.children != [] || n.text == "" <==> forall c | c in Own(n, b) :: c.Rect?
    ensures n.children == [] && n.text != "" ==>
              var c := Own(n, b)[|Own(n, b)| - 1];
              && c.Words? && c.text == n.text && c.size == font && Slot(n.style.color, 0xFFFFFFFF, c.color)
              && c.x == b.x + margin + pad && c.y == b.y + margin + pad
              && (b.h == Measure(n) ==> c.y + font + 6 + pad + margin == b.y + b.h)
  {
    if n.children == [] && n.text != "" {
      LeafHeight(n, font, margin, pad);
      assert Own(n, b)[|Own(n, b)| - 1] == WordsOf(n, b);
      assert Own(n, b)[|Own(n, b)| - 1] in Own(n, b);
    }
  }

  // ---------- enough width ----------

  /** The width below which some content box of the tree is narrower than nothing. */
  function MinWidth(n: Node): int
    decreases n
  {
    Edge(n) * 2 + Widest(n, |n.children|)
  }

  /** The greatest width that one of the first k children needs, and no less than zero. */
  function Widest(n: Node, k: nat): (r: int)
    requires k <= |n.children|
    ensures r >= 0
    decreases n, k
  {
    if k == 0 then 0
    else
      var before, last := Widest(n, k - 1), MinWidth(n.children[k - 1]);
      if before < last then last else before
  }

  lemma {:induction false} WidestCovers(n: Node, k: nat, i: nat)
    requires i < k <= |n.children|
    ensures MinWidth(n.children[i]) <= Widest(n, k)
  {
    if i < k - 1 {
      WidestCovers(n, k - 1, i);
    }
  }

  lemma {:induction false} WidestReached(n: Node, k: nat) returns (i: nat)
    requires k <= |n.children| && Widest(n, k) > 0
    ensures i < k && Widest(n, k) == MinWidth(n.children[i])
  {
    if Widest(n, k - 1) < MinWidth(n.children[k - 1]) {
      i := k - 1;
    } else {
      i := WidestReached(n, k - 1);
    }
  }

  lemma {:induction false} WideDown(n: Node, b: Box, path: Path)
    requires Valid(n, path) && b.w >= MinWidth(n)
    ensures Content(At(n, path), Place(n, b, path)).w >= 0
    decreases |path|
  {
    if path != [] {
      WidestCovers(n, |n.children|, path[0]);
      WideDown(n.children[path[0]], ChildBox(n, b, path[0]), path[1..]);
    }
  }

  lemma {:induction false} NarrowSomewhere(n: Node, b: Box) returns (path: Path)
    requires b.w < MinWidth(n)
    ensures Valid(n, path) && Content(At(n, path), Place(n, b, path)).w < 0
    decreases n
  {
    path := [];
    if Content(n, b).w >= 0 {
      var i := WidestReached(n, |n.children|);
      var rest := NarrowSomewhere(n.children[i], ChildBox(n, b, i));
      path := [i] + rest;
      assert path[1..] == rest;
    }
  }

  /** No content box of the tree has a negative width exactly when the width given is at least MinWidth. */
  lemma WideEnough(n: Node, b: Box)
    ensures b.w >= MinWidth(n)
            <==> forall path: Path | Valid(n, path) :: Content(At(n, path), Place(n, b, path)).w >= 0
  {
    if b.w >= MinWidth(n) {
      forall path: Path | Valid(n, path)
        ensures Content(At(n, path), Place(n, b, path)).w >= 0
      {
        WideDown(n, b, path);
      }
    } else {
      var path := NarrowSomewhere(n, b);
    }
  }

  // ---------- the display list ----------

  function Prefixed(i: nat, ps: seq<Path>): (r: seq<Path>)
    ensures |r| == |ps| && forall k | 0 <= k < |ps| :: r[k] == [i] + ps[k]
  {
    seq(|ps|, k requires 0 <= k < |ps| => [i] + ps[k])
  }

  /** The paths of all nodes, each before those inside it and after those of earlier siblings. */
  function Paths(n: Node): seq<Path>
    decreases n
  {
    [[]] + KidPaths(n, |n.children|)
  }

  function KidPaths(n: Node, k: nat): seq<Path>
    requires k <= |n.children|
    decreases n, k
  {
    if k == 0 then [] else KidPaths(n, k - 1) + Prefixed(k - 1, Paths(n.children[k - 1]))
  }

  /** p comes before q in the document: q is inside p, or they part at siblings of which p's is the earlier. */
  predicate Before(p: Path, q: Path)
    decreases |p|
  {
    q != [] && (p == [] || p[0] < q[0] || (p[0] == q[0] && Before(p[1..], q[1..])))
  }

  ghost predicate Sorted(ps: seq<Path>) {
    forall k, l | 0 <= k < l < |ps| :: Before(ps[k], ps[l])
  }

  lemma BeforeCons(i: nat, p: Path, q: Path)
    ensures Before([i] + p, [i] + q) == Before(p, q)
  {
    assert ([i] + p)[1..] == p && ([i] + q)[1..] == q;
  }

  lemma PrefixedSorted(i: nat, ps: seq<Path>)
    requires Sorted(ps)
    ensures Sorted(Prefixed(i, ps))
  {
    var r := Prefixed(i, ps);
    forall k, l | 0 <= k < l < |r|
      ensures Before(r[k], r[l])
    {
      BeforeCons(i, ps[k], ps[l]);
    }
  }

  lemma {:induction false} KidPathsSorted(n: Node, k: nat)
    requires k <= |n.children|
    ensures Sorted(KidPaths(n, k)) && forall p | p in KidPaths(n, k) :: p != [] && p[0] < k
    decreases n, k
  {
    if k > 0 {
      KidPathsSorted(n, k - 1);
      PathsSorted(n.children[k - 1]);
      var a, b := KidPaths(n, k - 1), Prefixed(k - 1, Paths(n.children[k - 1]));
      PrefixedSorted(k - 1, Paths(n.children[k - 1]));
      SortedJoin(a, b, k - 1);
    }
  }

  lemma SortedJoin(a: seq<Path>, b: seq<Path>, i: nat)
    requires Sorted(a) && Sorted(b)
    requires forall p | p in a :: p != [] && p[0] < i
    requires forall k | 0 <= k < |b| :: b[k] != [] && b[k][0] == i
    ensures Sorted(a + b) && forall p | p in a + b :: p != [] && p[0] < i + 1
  {
    var c := a + b;
    assert forall k | 0 <= k < |a| :: c[k] == a[k] && a[k] in a;
    assert forall k | |a| <= k < |c| :: c[k] == b[k - |a|];
  }

  /** The paths are in document order; so none occurs twice, and every ancestor comes before what is in it. */
  lemma {:induction false} PathsSorted(n: Node)
    ensures Sorted(Paths(n))
    decreases n
  {
    KidPathsSorted(n, |n.children|);
    var ks := KidPaths(n, |n.children|);
    SortedUnderRoot(ks);
  }

  lemma SortedUnderRoot(ks: seq<Path>)
    requires Sorted(ks) && forall p | p in ks :: p != []
    ensures Sorted([[]] + ks)
  {
    var root: seq<Path> := [[]];
    assert forall k | 0 < k < |root + ks| :: (root + ks)[k] == ks[k - 1] && ks[k - 1] in ks;
  }

  /** What an ancestor draws comes before anything drawn inside it. */
  lemma AncestorFirst(n: Node, k: nat, l: nat, q: Path)
    requires k < |Paths(n)| && l < |Paths(n)| && q != [] && Paths(n)[l] == Paths(n)[k] + q
    ensures k < l
  {
    PathsSorted(n);
    AncestorBefore(Paths(n)[k], q);
    BeforeStrict(Paths(n)[k], Paths(n)[l]);
  }

  lemma {:induction false} BeforeStrict(p: Path, q: Path)
    ensures !(Before(p, q) && Before(q, p)) && !Before(p, p)
    decreases |p|
  {
    if p != [] {
      BeforeStrict(p[1..], p[1..]);
      if q != [] {
        BeforeStrict(p[1..], q[1..]);
      }
    }
  }

  lemma {:induction false} AncestorBefore(p: Path, q: Path)
    requires q != []
    ensures Before(p, p + q)
    decreases |p|
  {
    if p == [] {
      assert p + q == q;
    } else {
      assert (p + q)[1..] == p[1..] + q;
      AncestorBefore(p[1..], q);
    }
  }

  lemma {:induction false} KidPathsExact(n: Node, k: nat, path: Path)
    requires k <= |n.children|
    ensures path in KidPaths(n, k) <==> path != [] && path[0] < k && Valid(n, path)
    decreases n, k
  {
    if k > 0 {
      KidPathsExact(n, k - 1, path);
      var ps := Paths(n.children[k - 1]);
      InPrefixed(k - 1, ps, path);
      if path != [] {
        PathsExact(n.children[k - 1], path[1..]);
      }
    }
  }

  lemma InPrefixed(i: nat, ps: seq<Path>, path: Path)
    ensures path in Prefixed(i, ps) <==> path != [] && path[0] == i && path[1..] in ps
  {
    if path in Prefixed(i, ps) {
      var k :| 0 <= k < |ps| && Prefixed(i, ps)[k] == path;
      assert path[1..] == ps[k];
    }
    if path != [] && path[0] == i && path[1..] in ps {
      var k :| 0 <= k < |ps| && ps[k] == path[1..];
      assert Prefixed(i, ps)[k] == [i] + path[1..] == path;
    }
  }

  /** Every node has its path in the list, and nothing else has. */
  lemma {:induction false} PathsExact(n: Node, path: Path)
    ensures path in Paths(n) <==> Valid(n, path)
    decreases n
  {
    KidPathsExact(n, |n.children|, path);
  }

  ghost predicate AllValid(n: Node, ps: seq<Path>) {
    forall k | 0 <= k < |ps| :: Valid(n, ps[k])
  }

  /** What the nodes at the given paths draw themselves, one after the other. */
  ghost function Drawn(n: Node, b: Box, ps: seq<Path>): seq<Cmd>
    requires AllValid(n, ps)
    decreases |ps|
  {
    if ps == [] then []
    else Drawn(n, b, ps[..|ps| - 1]) + Own(At(n, ps[|ps| - 1]), Place(n, b, ps[|ps| - 1]))
  }

  lemma {:induction false} DrawnJoin(n: Node, b: Box, ps: seq<Path>, qs: seq<Path>)
    requires AllValid(n, ps) && AllValid(n, qs)
    ensures AllValid(n, ps + qs) && Drawn(n, b, ps + qs) == Drawn(n, b, ps) + Drawn(n, b, qs)
    decreases |qs|
  {
    if qs == [] {
      assert ps + qs == ps;
    } else {
      var init, last := qs[..|qs| - 1], qs[|qs| - 1];
      DrawnJoin(n, b, ps, init);
      assert (ps + qs)[..|ps + qs| - 1] == ps + init;
      assert (ps + qs)[|ps + qs| - 1] == last;
      Regroup(Drawn(n, b, ps), Drawn(n, b, init), Own(At(n, last), Place(n, b, last)));
    }
  }

  lemma {:induction false} DrawnPrefixed(n: Node, b: Box, i: nat, ps: seq<Path>)
    requires i < |n.children| && AllValid(n.children[i], ps)
    ensures AllValid(n, Prefixed(i, ps)) && Drawn(n, b, Prefixed(i, ps)) == Drawn(n.children[i], ChildBox(n, b, i), ps)
    decreases |ps|
  {
    forall k | 0 <= k < |ps|
      ensures Valid(n, Prefixed(i, ps)[k])
    {
      assert ([i] + ps[k])[1..] == ps[k];
    }
    if ps != [] {
      var init, last := ps[..|ps| - 1], ps[|ps| - 1];
      DrawnPrefixed(n, b, i, init);
      assert Prefixed(i, ps)[..|ps| - 1] == Prefixed(i, init);
      assert ([i] + last)[1..] == last;
    }
  }

  lemma {:induction false} KidsDrawn(n: Node, b: Box, k: nat, ps: seq<Path>, cmds: seq<Cmd>)
    requires k <= |n.children| && ps == KidPaths(n, k) && cmds == Kids(n, b, k)
    ensures AllValid(n, ps) && cmds == Drawn(n, b, ps)
    decreases n, k
  {
    if k > 0 {
      var kid, at := n.children[k - 1], ChildBox(n, b, k - 1);
      var before, drawn, inside, own := KidPaths(n, k - 1), Kids(n, b, k - 1), Paths(kid), Display(kid, at);
      KidsDrawn(n, b, k - 1, before, drawn);
      DisplayDrawn(kid, at);
      KidDrawn(n, b, k - 1, before, drawn, inside, own, ps);
    }
  }

  /** What a child draws joins what the children before it draw. */
  lemma KidDrawn(n: Node, b: Box, i: nat, ps: seq<Path>, before: seq<Cmd>, qs: seq<Path>, own: seq<Cmd>, all: seq<Path>)
    requires i < |n.children| && AllValid(n, ps) && AllValid(n.children[i], qs) && all == ps + Prefixed(i, qs)
    requires before == Drawn(n, b, ps) && own == Drawn(n.children[i], ChildBox(n, b, i), qs)
    ensures AllValid(n, all) && Drawn(n, b, all) == before + own
  {
    DrawnPrefixed(n, b, i, qs);
    DrawnJoin(n, b, ps, Prefixed(i, qs));
  }

  /** The display list is exactly what every node draws at its own place, in document order. */
  lemma {:induction false} DisplayDrawn(n: Node, b: Box)
    ensures AllValid(n, Paths(n)) && Display(n, b) == Drawn(n, b, Paths(n))
    decreases n
  {
    KidsDrawn(n, b, |n.children|, KidPaths(n, |n.children|), Kids(n, b, |n.children|));
    RootDrawn(n, b, KidPaths(n, |n.children|));
  }

  lemma RootDrawn(n: Node, b: Box, ps: seq<Path>)
    requires AllValid(n, ps)
    ensures AllValid(n, [[]] + ps) && Drawn(n, b, [[]] + ps) == Own(n, b) + Drawn(n, b, ps)
  {
    var root: seq<Path> := [[]];
    DrawnJoin(n, b, root, ps);
    assert root[..0] == [];
    assert Drawn(n, b, root) == [] + Own(n, b);
  }
}
