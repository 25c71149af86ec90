/** The parity tool's walk over a page: an explicit stack instead of recursion, emitting every element
    with a path made of tags and same-tag positions. The order is document order, and the steps behind each path are an
    address in the sense of XPath 1.0 (section 2.5, abbreviated steps with a position). */
module PathWalk {
  import opened Options
  import opened Sequences
  import opened Decimal

  /** An element; a child slot can hold something that is not an element. */
  datatype Dom = Element(tag: string, kids: seq<Option<Dom>>)

  datatype Step = Step(tag: string, k: nat)

  datatype Entry = Entry(node: Dom, steps: seq<Step>)

  // ---------- paths ----------

  /** Is the i-th child an element with this tag? Tags are compared after lowering. */
  predicate Matches(lower: string -> string, n: Dom, t: string, i: nat)
    requires i < |n.kids|
  {
    n.kids[i].Some? && lower(n.kids[i].value.tag) == t
  }

  /** How many of the first i children are elements with tag t. */
  function Count(lower: string -> string, n: Dom, t: string, i: nat): (c: nat)
    requires i <= |n.kids|
    ensures c <= i
  {
    if i == 0 then 0 else Count(lower, n, t, i - 1) + if Matches(lower, n, t, i - 1) then 1 else 0
  }

  /** The step that leads from n to its i-th child: its tag and its 1-based position among that tag. */
  function StepTo(lower: string -> string, n: Dom, i: nat): Step
    requires i < |n.kids| && n.kids[i].Some?
  {
    var t := lower(n.kids[i].value.tag);
    Step(t, Count(lower, n, t, i + 1))
  }

  function Segment(s: Step): string {
    s.tag + "[" + Digits(s.k) + "]"
  }

  const ROOT := "html[1]"

  /** The printed path. */
  function Render(steps: seq<Step>): string {
    if steps == [] then ROOT else Render(steps[..|steps| - 1]) + "/" + Segment(steps[|steps| - 1])
  }

  // ---------- document order ----------

  /** The subtree of n in document order, with addresses relative to `steps`. */
  function Preorder(lower: string -> string, n: Dom, steps: seq<Step>): seq<Entry>
    decreases n, |n.kids| + 1
  {
    [Entry(n, steps)] + PreorderKids(lower, n, steps, |n.kids|)
  }

  function PreorderKids(lower: string -> string, n: Dom, steps: seq<Step>, i: nat): seq<Entry>
    requires i <= |n.kids|
    decreases n, i
  {
    if i == 0 then []
    else
      PreorderKids(lower, n, steps, i - 1) +
      if n.kids[i - 1].Some? then Preorder(lower, n.kids[i - 1].value, steps + [StepTo(lower, n, i - 1)]) else []
  }

  /** Number of elements in a subtree. */
  function Size(n: Dom): (s: nat)
    ensures s > 0
    decreases n, |n.kids| + 1
  {
    1 + SizeKids(n, |n.kids|)
  }

  function SizeKids(n: Dom, i: nat): nat
    requires i <= |n.kids|
    decreases n, i
  {
    if i == 0 then 0 else SizeKids(n, i - 1) + if n.kids[i - 1].Some? then Size(n.kids[i - 1].value) else 0
  }

  /** Every element exactly once: the list is as long as the subtree is large. */
  lemma {:induction false} PreorderSize(lower: string -> string, n: Dom, steps: seq<Step>)
    ensures |Preorder(lower, n, steps)| == Size(n)
    decreases n, |n.kids| + 1
  {
    PreorderKidsSize(lower, n, steps, |n.kids|);
  }

  lemma {:induction false} PreorderKidsSize(lower: string -> string, n: Dom, steps: seq<Step>, i: nat)
    requires i <= |n.kids|
    ensures |PreorderKids(lower, n, steps, i)| == SizeKids(n, i)
    decreases n, i
  {
    if i > 0 {
      PreorderKidsSize(lower, n, steps, i - 1);
      if n.kids[i - 1].Some? {
        PreorderSize(lower, n.kids[i - 1].value, steps + [StepTo(lower, n, i - 1)]);
      }
    }
  }

  /** The order: an element comes first, and then its element children with all that is in them, each after those of the
      children before it. */
  lemma {:induction false} DocumentOrder(lower: string -> string, n: Dom, steps: seq<Step>, i: nat, m: Dom, from: nat)
    requires i < |n.kids| && n.kids[i] == Some(m) && from == 1 + SizeKids(n, i)
    ensures Preorder(lower, n, steps)[0] == Entry(n, steps)
    ensures from + Size(m) <= |Preorder(lower, n, steps)|
    ensures Preorder(lower, n, steps)[from..from + Size(m)] == Preorder(lower, m, steps + [StepTo(lower, n, i)])
    ensures SizeKids(n, 0) == 0 && SizeKids(n, i + 1) == SizeKids(n, i) + Size(m)
  {
    KidStretch(lower, n, steps, i, |n.kids|, m);
    var kids := PreorderKids(lower, n, steps, |n.kids|);
    assert ([Entry(n, steps)] + kids)[from..from + Size(m)] == kids[from - 1..from - 1 + Size(m)];
  }

  lemma {:induction false} KidStretch(lower: string -> string, n: Dom, steps: seq<Step>, i: nat, j: nat, m: Dom)
    requires i < j <= |n.kids| && n.kids[i] == Some(m)
    ensures SizeKids(n, i) + Size(m) <= |PreorderKids(lower, n, steps, j)|
    ensures PreorderKids(lower, n, steps, j)[SizeKids(n, i)..SizeKids(n, i) + Size(m)]
            == Preorder(lower, m, steps + [StepTo(lower, n, i)])
    decreases j
  {
    PreorderKidsSize(lower, n, steps, i);
    PreorderSize(lower, m, steps + [StepTo(lower, n, i)]);
    if i + 1 < j {
      KidStretch(lower, n, steps, i, j - 1, m);
      var before := PreorderKids(lower, n, steps, j - 1);
      assert before <= PreorderKids(lower, n, steps, j);
      assert before[SizeKids(n, i)..SizeKids(n, i) + Size(m)]
          == PreorderKids(lower, n, steps, j)[SizeKids(n, i)..SizeKids(n, i) + Size(m)];
    }
  }

  ghost function SameTag(lower: string -> string, n: Dom, t: string, i: nat): set<nat>
    requires i <= |n.kids|
  {
    set j: nat {:trigger Matches(lower, n, t, j)} | j < i && Matches(lower, n, t, j)
  }

  lemma {:induction false} CountIsSize(lower: string -> string, n: Dom, t: string, i: nat)
    requires i <= |n.kids|
    ensures Count(lower, n, t, i) == |SameTag(lower, n, t, i)|
  {
    if i > 0 {
      CountIsSize(lower, n, t, i - 1);
      var before, now := SameTag(lower, n, t, i - 1), SameTag(lower, n, t, i);
      assert i - 1 !in before;
      if Matches(lower, n, t, i - 1) {
        assert now == before + {i - 1};
      } else {
        assert now == before;
      }
    }
  }

  /** The number of a child: how many of the children up to it are elements of its tag. */
  lemma StepNumber(lower: string -> string, n: Dom, i: nat, t: string)
    requires i < |n.kids| && n.kids[i].Some? && t == lower(n.kids[i].value.tag)
    ensures StepTo(lower, n, i).tag == t
    ensures StepTo(lower, n, i).k == |SameTag(lower, n, t, i + 1)| && i in SameTag(lower, n, t, i + 1)
    ensures forall j: nat | j < |n.kids| :: j in SameTag(lower, n, t, i + 1)
              <==> j <= i && n.kids[j].Some? && lower(n.kids[j].value.tag) == t
  {
    CountIsSize(lower, n, t, i + 1);
  }

  // ---------- addresses ----------

  /** The child that a step leads to. */
  function Find(lower: string -> string, n: Dom, s: Step, i: nat): Option<Dom>
    requires i <= |n.kids|
  {
    if i == 0 then None
    else if Matches(lower, n, s.tag, i - 1) && Count(lower, n, s.tag, i) == s.k then n.kids[i - 1]
    else Find(lower, n, s, i - 1)
  }

  function Resolve(lower: string -> string, n: Dom, steps: seq<Step>): Option<Dom>
    decreases |steps|
  {
    if steps == [] then Some(n)
    else
      match Find(lower, n, steps[0], |n.kids|)
      case None => None
      case Some(m) => Resolve(lower, m, steps[1..])
  }

  lemma {:induction false} CountMono(lower: string -> string, n: Dom, t: string, i: nat, j: nat)
    requires i <= j <= |n.kids|
    ensures Count(lower, n, t, i) <= Count(lower, n, t, j)
  {
    if i < j {
      CountMono(lower, n, t, i, j - 1);
    }
  }

  lemma {:induction false} StepFinds(lower: string -> string, n: Dom, i: nat, j: nat)
    requires i < j <= |n.kids| && n.kids[i].Some?
    ensures Find(lower, n, StepTo(lower, n, i), j) == n.kids[i]
    decreases j
  {
    if i + 1 < j {
      var s := StepTo(lower, n, i);
      CountMono(lower, n, s.tag, i + 1, j - 1);
      StepFinds(lower, n, i, j - 1);
    }
  }

  /** Children of one element are told apart by their steps. */
  lemma StepsDiffer(lower: string -> string, n: Dom, i: nat, j: nat)
    requires i < j < |n.kids| && n.kids[i].Some? && n.kids[j].Some?
    ensures StepTo(lower, n, i) != StepTo(lower, n, j)
  {
    var t := StepTo(lower, n, j).tag;
    CountMono(lower, n, t, i + 1, j);
  }

  lemma {:induction false} ResolveConcat(lower: string -> string, n: Dom, m: Dom, a: seq<Step>, b: seq<Step>)
    requires Resolve(lower, n, a) == Some(m)
    ensures Resolve(lower, n, a + b) == Resolve(lower, m, b)
    decreases |a|
  {
    if a == [] {
      assert a + b == b;
    } else {
      assert (a + b)[0] == a[0] && (a + b)[1..] == a[1..] + b;
      ResolveConcat(lower, Find(lower, n, a[0], |n.kids|).value, m, a[1..], b);
    }
  }

  /** What every entry of a list satisfies: its steps lead from the root to its node, through `base`. */
  ghost predicate Addressed(lower: string -> string, root: Dom, base: seq<Step>, es: seq<Entry>) {
    forall e | e in es :: base <= e.steps && Resolve(lower, root, e.steps) == Some(e.node)
  }

  lemma {:induction false} PreorderAddressed(lower: string -> string, root: Dom, n: Dom, steps: seq<Step>)
    requires Resolve(lower, root, steps) == Some(n)
    ensures Addressed(lower, root, steps, Preorder(lower, n, steps))
    decreases n, |n.kids| + 1
  {
    PreorderKidsAddressed(lower, root, n, steps, |n.kids|);
  }

  lemma {:induction false} PreorderKidsAddressed(lower: string -> string, root: Dom, n: Dom, steps: seq<Step>, i: nat)
    requires i <= |n.kids| && Resolve(lower, root, steps) == Some(n)
    ensures Addressed(lower, root, steps, PreorderKids(lower, n, steps, i))
    decreases n, i
  {
    if i > 0 {
      PreorderKidsAddressed(lower, root, n, steps, i - 1);
      if n.kids[i - 1].Some? {
        var s, m := StepTo(lower, n, i - 1), n.kids[i - 1].value;
        StepFinds(lower, n, i - 1, |n.kids|);
        ResolveConcat(lower, root, n, steps, [s]);
        assert Resolve(lower, m, [s][1..]) == Some(m);
        PreorderAddressed(lower, root, m, steps + [s]);
      }
    }
  }

  ghost predicate DistinctSteps(es: seq<Entry>) {
    forall i, j | 0 <= i < j < |es| :: es[i].steps != es[j].steps
  }

  lemma {:induction false} PreorderDistinct(lower: string -> string, n: Dom, steps: seq<Step>)
    ensures DistinctSteps(Preorder(lower, n, steps))
    ensures forall e | e in Preorder(lower, n, steps) :: steps <= e.steps
    decreases n, |n.kids| + 1
  {
    PreorderKidsDistinct(lower, n, steps, |n.kids|);
    var kids := PreorderKids(lower, n, steps, |n.kids|);
    forall e | e in kids
      ensures steps < e.steps
    {
      var j: nat :| j < |n.kids| && n.kids[j].Some? && steps + [StepTo(lower, n, j)] <= e.steps;
    }
    DistinctConcat([Entry(n, steps)], kids);
  }

  lemma {:induction false} PreorderKidsDistinct(lower: string -> string, n: Dom, steps: seq<Step>, i: nat)
    requires i <= |n.kids|
    ensures DistinctSteps(PreorderKids(lower, n, steps, i))
    ensures forall e | e in PreorderKids(lower, n, steps, i) :: FromKid(lower, n, steps, i, e)
    decreases n, i
  {
    if i > 0 {
      PreorderKidsDistinct(lower, n, steps, i - 1);
      var a := PreorderKids(lower, n, steps, i - 1);
      forall e | e in a
        ensures FromKid(lower, n, steps, i, e)
      {
        var j: nat :| j < i - 1 && n.kids[j].Some? && steps + [StepTo(lower, n, j)] <= e.steps;
      }
      if n.kids[i - 1].Some? {
        var s := StepTo(lower, n, i - 1);
        PreorderDistinct(lower, n.kids[i - 1].value, steps + [s]);
        var b := Preorder(lower, n.kids[i - 1].value, steps + [s]);
        forall e, f | e in a && f in b
          ensures e.steps != f.steps
        {
          var j: nat :| j < i - 1 && n.kids[j].Some? && steps + [StepTo(lower, n, j)] <= e.steps;
          StepsDiffer(lower, n, j, i - 1);
          assert e.steps[|steps|] == (steps + [StepTo(lower, n, j)])[|steps|];
          assert f.steps[|steps|] == (steps + [s])[|steps|];
        }
        DistinctConcat(a, b);
      } else {
        assert PreorderKids(lower, n, steps, i) == a;
      }
    }
  }

  /** e lies in the subtree of one of the first i children. */
  ghost predicate FromKid(lower: string -> string, n: Dom, steps: seq<Step>, i: nat, e: Entry)
    requires i <= |n.kids|
  {
    exists j: nat :: j < i && n.kids[j].Some? && steps + [StepTo(lower, n, j)] <= e.steps
  }

  lemma DistinctConcat(a: seq<Entry>, b: seq<Entry>)
    requires DistinctSteps(a) && DistinctSteps(b)
    requires forall e, f | e in a && f in b :: e.steps != f.steps
    ensures DistinctSteps(a + b)
  {
    var c := a + b;
    forall i, j | 0 <= i < j < |c|
      ensures c[i].steps != c[j].steps
    {
      if i < |a| <= j {
        assert c[i] in a && c[j] in b;
      } else if j < |a| {
        assert c[i] == a[i] && c[j] == a[j];
      } else {
        assert c[i] == b[i - |a|] && c[j] == b[j - |a|];
      }
    }
  }

  // ---------- the walk with a stack ----------

  /** What a stack of elements still has to emit: the top first, then the rest. */
  ghost function Pending(lower: string -> string, stack: seq<Entry>): seq<Entry> {
    if stack == [] then []
    else
      var top := stack[|stack| - 1];
      Preorder(lower, top.node, top.steps) + Pending(lower, stack[..|stack| - 1])
  }

  ghost function Weight(stack: seq<Entry>): nat {
    if stack == [] then 0 else Size(stack[|stack| - 1].node) + Weight(stack[..|stack| - 1])
  }

  /** The element children among the first i, in order. */
  ghost function Kids(lower: string -> string, n: Dom, steps: seq<Step>, i: nat): seq<Entry>
    requires i <= |n.kids|
  {
    if i == 0 then []
    else Kids(lower, n, steps, i - 1) +
         if n.kids[i - 1].Some? then [Entry(n.kids[i - 1].value, steps + [StepTo(lower, n, i - 1)])] else []
  }

  ghost function Reverse(s: seq<Entry>): (r: seq<Entry>)
    ensures |r| == |s|
  {
    if s == [] then [] else Reverse(s[1..]) + [s[0]]
  }

  lemma {:induction false} ReverseSnoc(s: seq<Entry>, e: Entry)
    ensures Reverse(s + [e]) == [e] + Reverse(s)
  {
    if s == [] {
      assert s + [e] == [e] && [e][1..] == [];
    } else {
      assert (s + [e])[1..] == s[1..] + [e];
      ReverseSnoc(s[1..], e);
    }
  }

  lemma PendingPush(lower: string -> string, stack: seq<Entry>, e: Entry)
    ensures Pending(lower, stack + [e]) == Preorder(lower, e.node, e.steps) + Pending(lower, stack)
    ensures Weight(stack + [e]) == Size(e.node) + Weight(stack)
  {
    assert (stack + [e])[..|stack + [e]| - 1] == stack;
  }

  /** The subtrees of a list of entries, one after the other. */
  ghost function Subtrees(lower: string -> string, es: seq<Entry>): seq<Entry> {
    if es == [] then []
    else Subtrees(lower, es[..|es| - 1]) + Preorder(lower, es[|es| - 1].node, es[|es| - 1].steps)
  }

  ghost function Sizes(es: seq<Entry>): nat {
    if es == [] then 0 else Sizes(es[..|es| - 1]) + Size(es[|es| - 1].node)
  }

  /** Pushing entries last to first leaves their subtrees to be emitted first to last. */
  lemma {:induction false} PendingReverse(lower: string -> string, stack: seq<Entry>, es: seq<Entry>)
    ensures Pending(lower, stack + Reverse(es)) == Subtrees(lower, es) + Pending(lower, stack)
    ensures Weight(stack + Reverse(es)) == Weight(stack) + Sizes(es)
    decreases |es|
  {
    if es == [] {
      assert stack + Reverse(es) == stack;
    } else {
      var init, e := es[..|es| - 1], es[|es| - 1];
      assert es == init + [e];
      ReverseLast(stack, init, e, es);
      PendingReverse(lower, stack + [e], init);
      PendingPush(lower, stack, e);
      Regroup(Subtrees(lower, init), Preorder(lower, e.node, e.steps), Pending(lower, stack));
    }
  }

  lemma ReverseLast(stack: seq<Entry>, init: seq<Entry>, e: Entry, es: seq<Entry>)
    requires es == init + [e]
    ensures stack + Reverse(es) == (stack + [e]) + Reverse(init)
  {
    ReverseSnoc(init, e);
    Regroup(stack, [e], Reverse(init));
  }

  lemma SubtreesSnoc(lower: string -> string, es: seq<Entry>, e: Entry)
    ensures Subtrees(lower, es + [e]) == Subtrees(lower, es) + Preorder(lower, e.node, e.steps)
    ensures Sizes(es + [e]) == Sizes(es) + Size(e.node)
  {
    assert (es + [e])[..|es + [e]| - 1] == es;
  }

  lemma {:induction false} KidsSubtrees(lower: string -> string, n: Dom, steps: seq<Step>, i: nat)
    requires i <= |n.kids|
    ensures Subtrees(lower, Kids(lower, n, steps, i)) == PreorderKids(lower, n, steps, i)
    ensures Sizes(Kids(lower, n, steps, i)) == SizeKids(n, i)
    decreases i
  {
    if i > 0 {
      KidsSubtrees(lower, n, steps, i - 1);
      var ks := Kids(lower, n, steps, i - 1);
      if n.kids[i - 1].Some? {
        var e := Entry(n.kids[i - 1].value, steps + [StepTo(lower, n, i - 1)]);
        assert Kids(lower, n, steps, i) == ks + [e];
        SubtreesSnoc(lower, ks, e);
      } else {
        assert Kids(lower, n, steps, i) == ks;
        assert PreorderKids(lower, n, steps, i) == PreorderKids(lower, n, steps, i - 1);
      }
    }
  }

  /** Replacing the top of the stack by its children emits exactly the top. */
  lemma ExpandTop(lower: string -> string, stack: seq<Entry>)
    requires stack != []
    ensures var top, rest := stack[|stack| - 1], stack[..|stack| - 1];
            var next := rest + Reverse(Kids(lower, top.node, top.steps, |top.node.kids|));
            Pending(lower, stack) == [top] + Pending(lower, next) && Weight(next) < Weight(stack)
  {
    var top, rest := stack[|stack| - 1], stack[..|stack| - 1];
    var i := |top.node.kids|;
    KidsSubtrees(lower, top.node, top.steps, i);
    PendingReverse(lower, rest, Kids(lower, top.node, top.steps, i));
    Regroup([top], PreorderKids(lower, top.node, top.steps, i), Pending(lower, rest));
  }

  /** The stacks and lists of the code hold the elements and the printed paths of these entries. */
  ghost predicate Shows(nodes: seq<Dom>, paths: seq<string>, es: seq<Entry>) {
    |nodes| == |paths| == |es| && forall i | 0 <= i < |es| :: nodes[i] == es[i].node && paths[i] == Render(es[i].steps)
  }

  /** The tags seen so far among the first i children, each once, with how often. */
  ghost predicate Tallied(lower: string -> string, n: Dom, i: nat, seen: seq<string>, counts: seq<nat>)
    requires i <= |n.kids|
  {
    && |seen| == |counts|
    && (forall j, k | 0 <= j < k < |seen| :: seen[j] != seen[k])
    && (forall j | 0 <= j < |seen| :: counts[j] == Count(lower, n, seen[j], i))
    && (forall t | t !in seen :: Count(lower, n, t, i) == 0)
  }

  /** The element children of one element with their paths, counted by tag as they are met. */
  method Children(lower: string -> string, n: Dom, path: string, ghost steps: seq<Step>)
    returns (kids: seq<Dom>, names: seq<string>)
    requires path == Render(steps)
    ensures Shows(kids, names, Kids(lower, n, steps, |n.kids|))
  {
    kids, names := [], [];
    var seen: seq<string>, counts: seq<nat> := [], [];
    for i := 0 to |n.kids|
      invariant Shows(kids, names, Kids(lower, n, steps, i)) && Tallied(lower, n, i, seen, counts)
    {
      kids, names, seen, counts := Child(lower, n, i, path, steps, kids, names, seen, counts);
    }
  }

  /** One turn of that loop. */
  method Child(lower: string -> string, n: Dom, i: nat, path: string, ghost steps: seq<Step>,
               kids: seq<Dom>, names: seq<string>, seen: seq<string>, counts: seq<nat>)
    returns (kids': seq<Dom>, names': seq<string>, seen': seq<string>, counts': seq<nat>)
    requires i < |n.kids| && path == Render(steps)
    requires Shows(kids, names, Kids(lower, n, steps, i)) && Tallied(lower, n, i, seen, counts)
    ensures Shows(kids', names', Kids(lower, n, steps, i + 1)) && Tallied(lower, n, i + 1, seen', counts')
  {
    kids', names', seen', counts' := kids, names, seen, counts;
    if n.kids[i].Some? {
      var f, name := n.kids[i].value, "";
      name, seen', counts' := ChildPath(lower, n, i, path, steps, seen, counts);
      ShowsSnoc(kids, names, Kids(lower, n, steps, i), Entry(f, steps + [StepTo(lower, n, i)]));
      kids', names' := kids + [f], names + [name];
    }
  }

  /** The path of one child: that of its parent, its tag, and how many of that tag are met with it. */
  method ChildPath(lower: string -> string, n: Dom, i: nat, path: string, ghost steps: seq<Step>,
                   seen: seq<string>, counts: seq<nat>)
    returns (name: string, seen': seq<string>, counts': seq<nat>)
    requires i < |n.kids| && n.kids[i].Some? && path == Render(steps) && Tallied(lower, n, i, seen, counts)
    ensures name == Render(steps + [StepTo(lower, n, i)]) && Tallied(lower, n, i + 1, seen', counts')
  {
    var t := lower(n.kids[i].value.tag);
    var count;
    seen', counts', count := Tally(lower, n, i, t, seen, counts);
    RenderStep(steps, StepTo(lower, n, i));
    name := path + "/" + t + "[" + Digits(count) + "]";
  }

  /** Counts one more child of tag t. */
  method Tally(lower: string -> string, ghost n: Dom, ghost i: nat, t: string, seen: seq<string>, counts: seq<nat>)
    returns (seen': seq<string>, counts': seq<nat>, count: nat)
    requires i < |n.kids| && Matches(lower, n, t, i) && Tallied(lower, n, i, seen, counts)
    ensures Tallied(lower, n, i + 1, seen', counts')
    ensures count == Count(lower, n, t, i + 1)
  {
    var idx := Position(seen, t);
    seen', counts' := seen, counts;
    if idx < 0 {
      seen', counts' := seen + [t], counts + [1];
      idx := |seen|;
    } else {
      counts' := counts[idx := counts[idx] + 1];
    }
    count := counts'[idx];
    assert t in seen';
  }

  /** The inner search: the index of a tag among those seen, or -1. */
  method Position(seen: seq<string>, t: string) returns (idx: int)
    requires forall j, k | 0 <= j < k < |seen| :: seen[j] != seen[k]
    ensures if t in seen then 0 <= idx < |seen| && seen[idx] == t else idx == -1
  {
    idx := -1;
    for j := 0 to |seen|
      invariant if t in seen[..j] then 0 <= idx < j && seen[idx] == t else idx == -1
    {
      if seen[j] == t {
        idx := j;
      }
    }
  }

  lemma RenderStep(steps: seq<Step>, s: Step)
    ensures Render(steps + [s]) == Render(steps) + "/" + s.tag + "[" + Digits(s.k) + "]"
  {
    assert (steps + [s])[..|steps|] == steps;
  }

  /** The whole first pass: every element of the page once, in document order, with its printed path. */
  method Collect(lower: string -> string, root: Dom) returns (order: seq<Dom>, paths: seq<string>)
    ensures Shows(order, paths, Preorder(lower, root, []))
  {
    var stackNode, stackPath := [root], [ROOT];
    order, paths := [], [];
    ghost var stack, emitted := [Entry(root, [])], [];
    ghost var all := Preorder(lower, root, []);
    assert stack[..0] == [] && Pending(lower, stack) == all + Pending(lower, []) == all;
    while |stackNode| > 0
      invariant Shows(stackNode, stackPath, stack) && Shows(order, paths, emitted)
      invariant emitted + Pending(lower, stack) == all
      decreases Weight(stack)
    {
      var n, path := stackNode[|stackNode| - 1], stackPath[|stackPath| - 1];
      ghost var top, rest := stack[|stack| - 1], stack[..|stack| - 1];
      stackNode, stackPath := stackNode[..|stackNode| - 1], stackPath[..|stackPath| - 1];
      order, paths := order + [n], paths + [path];
      var kids, names := Children(lower, n, path, top.steps);
      ghost var ks := Kids(lower, n, top.steps, |n.kids|);
      stackNode, stackPath := PushAll(stackNode, stackPath, kids, names, rest, ks);
      ExpandTop(lower, stack);
      Regroup(emitted, [top], Pending(lower, rest + Reverse(ks)));
      emitted, stack := emitted + [top], rest + Reverse(ks);
    }
    assert emitted + [] == emitted;
  }

  /** The loop that pushes the children, last to first. */
  method PushAll(nodes: seq<Dom>, paths: seq<string>, kids: seq<Dom>, names: seq<string>,
                 ghost stack: seq<Entry>, ghost ks: seq<Entry>)
    returns (nodes': seq<Dom>, paths': seq<string>)
    requires Shows(nodes, paths, stack) && Shows(kids, names, ks)
    ensures Shows(nodes', paths', stack + Reverse(ks))
  {
    nodes', paths' := nodes, paths;
    var i := |kids| - 1;
    ghost var pushed := stack;
    assert ks[i + 1..] == [];
    while i >= 0
      invariant -1 <= i < |kids| == |names| == |ks|
      invariant Shows(nodes', paths', pushed) && pushed == stack + Reverse(ks[i + 1..])
    {
      PushOne(stack, ks, i);
      ShowsSnoc(nodes', paths', pushed, ks[i]);
      nodes', paths', pushed := nodes' + [kids[i]], paths' + [names[i]], pushed + [ks[i]];
      i := i - 1;
    }
    assert ks[0..] == ks;
  }

  lemma PushOne(stack: seq<Entry>, ks: seq<Entry>, i: nat)
    requires i < |ks|
    ensures stack + Reverse(ks[i..]) == stack + Reverse(ks[i + 1..]) + [ks[i]]
  {
    assert ks[i..][1..] == ks[i + 1..];
    Regroup(stack, Reverse(ks[i + 1..]), [ks[i]]);
  }

  lemma ShowsSnoc(nodes: seq<Dom>, paths: seq<string>, es: seq<Entry>, e: Entry)
    requires Shows(nodes, paths, es)
    ensures Shows(nodes + [e.node], paths + [Render(e.steps)], es + [e])
  {
  }
}
