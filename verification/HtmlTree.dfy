/** The tree builder: how the tags of a text become the tree of a page, with the tags that HTML lets an author
    leave out. An element is added to the one open at that time; it takes its place there when it is closed. */
module HtmlTree {
  import opened Options
  import opened HtmlTokens
  import opened PathWalk

  const VOID: set<string> := {"area", "base", "br", "col", "embed", "hr", "img", "input", "link", "meta", "source",
                              "track", "wbr"}

  const SECTIONS: set<string> := {"address", "article", "aside", "blockquote", "center", "details", "dialog", "div",
                                  "footer", "header", "hgroup", "main", "nav", "search", "section", "summary"}

  const HEADINGS: set<string> := {"h1", "h2", "h3", "h4", "h5", "h6"}

  const GROUPS: set<string> := {"dir", "dl", "fieldset", "figcaption", "figure", "form", "hr", "li", "dd", "dt",
                                "listing", "plaintext", "xmp", "menu", "ol", "p", "pre", "table", "ul"}

  /** Opening one of these closes an open paragraph. */
  predicate ClosesParagraph(tag: string) {
    tag in SECTIONS || tag in HEADINGS || tag in GROUPS
  }

  const BLOCKS_BUTTON_SCOPE: set<string> := {"applet", "button", "caption", "html", "table", "td", "th", "marquee",
                                             "object", "template"}

  const HEAD: set<string> := {"base", "basefont", "bgsound", "link", "meta", "noscript", "script", "style",
                              "template", "title"}

  /** Opening the one ends the other, when that is open innermost. */
  predicate Ends(tag: string, open: string) {
    if tag == "li" then open == "li"
    else if tag in {"dt", "dd"} then open in {"dt", "dd"}
    else if tag == "option" then open == "option"
    else if tag == "tr" then open in {"td", "th", "tr"}
    else if tag in {"td", "th"} then open in {"td", "th"}
    else false
  }

  /** An open element with the children it has so far. */
  datatype Frame = Frame(tag: string, kids: seq<Option<Dom>>)

  /** The open elements, the document first and the innermost last. */
  type Stack = st: seq<Frame> | st != [] witness [Frame("", [])]

  function Top(st: Stack): Frame {
    st[|st| - 1]
  }

  function Add(st: Stack, d: Dom): (r: Stack)
    ensures |r| == |st|
  {
    st[..|st| - 1] + [Top(st).(kids := Top(st).kids + [Some(d)])]
  }

  function Pop(st: Stack): (r: Stack)
    requires |st| > 1
    ensures |r| == |st| - 1
  {
    Add(st[..|st| - 1], Element(Top(st).tag, Top(st).kids))
  }

  /** All but the first n open elements are closed. */
  function CloseTo(st: Stack, n: nat): (r: Stack)
    requires n > 0
    ensures |r| == if |st| <= n then |st| else n
    decreases |st|
  {
    if |st| <= n then st else CloseTo(Pop(st), n)
  }

  /** The innermost of the first i open elements with this tag. */
  function LastOpen(st: Stack, tag: string, i: nat): (r: Option<nat>)
    requires i <= |st|
    ensures r.Some? ==> r.value < i && st[r.value].tag == tag
  {
    if i == 0 then None else if st[i - 1].tag == tag then Some(i - 1) else LastOpen(st, tag, i - 1)
  }

  predicate IsOpen(st: Stack, tag: string) {
    LastOpen(st, tag, |st|).Some?
  }

  function ParagraphInScope(st: Stack, i: nat): (r: Option<nat>)
    requires i <= |st|
    ensures r.Some? ==> r.value < i && st[r.value].tag == "p"
  {
    if i == 0 then None
    else if st[i - 1].tag == "p" then Some(i - 1)
    else if st[i - 1].tag in BLOCKS_BUTTON_SCOPE then None
    else ParagraphInScope(st, i - 1)
  }

  /** Closed down to and with the element at position i; the document stays open. */
  function CloseAt(st: Stack, i: nat): Stack {
    CloseTo(st, if i == 0 then 1 else i)
  }

  function CloseEnded(st: Stack, tag: string): (r: Stack)
    decreases |st|
  {
    if |st| > 1 && Ends(tag, Top(st).tag) then CloseEnded(Pop(st), tag) else st
  }

  function CloseParagraph(st: Stack, tag: string): Stack {
    var p := ParagraphInScope(st, |st|);
    if ClosesParagraph(tag) && p.Some? then CloseAt(st, p.value) else st
  }

  function WithHtml(st: Stack): Stack {
    if IsOpen(st, "html") then st else st + [Frame("html", [])]
  }

  /** The first tag that cannot stand in the head ends it and opens a body. */
  function WithBody(st: Stack, tag: string): Stack {
    if tag == "body" then WithHtml(st)
    else if tag in {"html", "head"} || tag in HEAD || IsOpen(st, "body") then st
    else
      var head := LastOpen(st, "head", |st|);
      WithHtml(if head.Some? then CloseAt(st, head.value) else st) + [Frame("body", [])]
  }

  function OpenTag(st: Stack, tag: string): Stack {
    var at := WithBody(CloseParagraph(CloseEnded(st, tag), tag), tag);
    if tag in VOID then Add(at, Element(tag, [])) else at + [Frame(tag, [])]
  }

  function CloseTag(st: Stack, tag: string): Stack {
    if tag == "p" then
      match ParagraphInScope(st, |st|)
      case Some(i) => CloseAt(st, i)
      case None => Add(st, Element("p", []))
    else
      match LastOpen(st, tag, |st|)
      case Some(i) => CloseAt(st, i)
      case None => st
  }

  function Take(st: Stack, t: Token): Stack {
    match t
    case Open(tag) => OpenTag(st, tag)
    case Close(tag) => CloseTag(st, tag)
    case RawElement(tag) => Add(st, Element(tag, []))
  }

  function Build(st: Stack, ts: seq<Token>): Stack
    decreases |ts|
  {
    if ts == [] then st else Build(Take(st, ts[0]), ts[1..])
  }

  function Document(ts: seq<Token>): Dom {
    Element("", CloseTo(Build([Frame("", [])], ts), 1)[0].kids)
  }

  /** The first element with this tag in document order. */
  function First(d: Dom, tag: string): Option<Dom>
    decreases d, |d.kids| + 1
  {
    if d.tag == tag then Some(d) else FirstKid(d, tag, 0)
  }

  function FirstKid(d: Dom, tag: string, i: nat): Option<Dom>
    requires i <= |d.kids|
    decreases d, |d.kids| - i
  {
    if i == |d.kids| then None
    else if d.kids[i].Some? && First(d.kids[i].value, tag).Some? then First(d.kids[i].value, tag)
    else FirstKid(d, tag, i + 1)
  }

  /** What the walk starts from: the html element of a text, if it has one. */
  function Page(text: string): Option<Dom> {
    First(Document(Tokens(text)), "html")
  }

  // ---------- pages with tags that have no rules ----------

  /** No rule of the tree builder is about this tag. */
  predicate Plain(tag: string) {
    && tag !in VOID && !ClosesParagraph(tag) && tag !in HEAD && tag !in BLOCKS_BUTTON_SCOPE
    && tag !in {"html", "head", "body", "option", "tr", "td", "th", "style", "script", ""}
  }

  lemma BracketPlain(tag: string)
    requires '[' in tag
    ensures Plain(tag)
  {
    NotVoid(tag);
    NotSection(tag);
    NotGroup(tag);
    NotHead(tag);
    NotBlocking(tag);
    assert forall w | w in HEADINGS :: '[' !in w;
    assert forall w: string | w in {"html", "head", "body", "option", "tr", "td", "th", "style", "script", ""} :: '[' !in w;
  }

  lemma NotVoid(tag: string)
    requires '[' in tag
    ensures tag !in VOID
  {
    assert forall w | w in VOID :: '[' !in w;
  }

  lemma NotSection(tag: string)
    requires '[' in tag
    ensures tag !in SECTIONS
  {
    assert forall w | w in SECTIONS :: '[' !in w;
  }

  lemma NotGroup(tag: string)
    requires '[' in tag
    ensures tag !in GROUPS
  {
    assert forall w | w in GROUPS :: '[' !in w;
  }

  lemma NotHead(tag: string)
    requires '[' in tag
    ensures tag !in HEAD
  {
    assert forall w | w in HEAD :: '[' !in w;
  }

  lemma NotBlocking(tag: string)
    requires '[' in tag
    ensures tag !in BLOCKS_BUTTON_SCOPE
  {
    assert forall w | w in BLOCKS_BUTTON_SCOPE :: '[' !in w;
  }

  /** The body with these children open, and these elements open in it. */
  function Within(kids: seq<Option<Dom>>, open: seq<Frame>): Stack {
    [Frame("", []), Frame("html", []), Frame("body", kids)] + open
  }

  lemma {:induction false} BodyIsOpen(kids: seq<Option<Dom>>, open: seq<Frame>, i: nat)
    requires 3 <= i <= |Within(kids, open)|
    ensures LastOpen(Within(kids, open), "body", i).Some? && LastOpen(Within(kids, open), "html", i).Some?
  {
    if i > 3 {
      BodyIsOpen(kids, open, i - 1);
    }
  }

  lemma {:induction false} NoParagraph(kids: seq<Option<Dom>>, open: seq<Frame>, i: nat)
    requires 3 <= i <= |Within(kids, open)| && forall f | f in open :: Plain(f.tag)
    ensures ParagraphInScope(Within(kids, open), i).None?
  {
    var st := Within(kids, open);
    if i > 3 {
      assert st[i - 1] in open;
      NoParagraph(kids, open, i - 1);
    } else {
      assert st[2].tag == "body" && st[1].tag == "html";
      assert ParagraphInScope(st, 2).None?;
    }
  }

  /** Among such elements any tag is opened without closing anything. */
  lemma OpenedWithin(kids: seq<Option<Dom>>, open: seq<Frame>, tag: string)
    requires forall f | f in open :: Plain(f.tag)
    ensures var st := Within(kids, open);
            OpenTag(st, tag) == if tag in VOID then Add(st, Element(tag, [])) else st + [Frame(tag, [])]
  {
    var st := Within(kids, open);
    BodyIsOpen(kids, open, |st|);
    NoParagraph(kids, open, |st|);
    if open != [] {
      assert Top(st) in open;
    }
    assert !Ends(tag, Top(st).tag);
    assert CloseEnded(st, tag) == st && CloseParagraph(st, tag) == st && WithBody(st, tag) == st;
  }

  /** The first such tag of a text opens the html element and the body. */
  lemma FirstOpened(tag: string)
    requires Plain(tag)
    ensures OpenTag([Frame("", [])], tag) == Within([], [Frame(tag, [])])
  {
    var st: Stack := [Frame("", [])];
    assert LastOpen(st, "body", 1).None? && LastOpen(st, "head", 1).None? && LastOpen(st, "html", 1).None?;
    assert WithBody(st, tag) == [Frame("", []), Frame("html", [])] + [Frame("body", [])];
  }

  lemma AddedWithin(kids: seq<Option<Dom>>, d: Dom)
    ensures Add(Within(kids, []), d) == Within(kids + [Some(d)], [])
  {
    assert Within(kids, [])[..2] == [Frame("", []), Frame("html", [])];
  }

  lemma ClosedWithin(kids: seq<Option<Dom>>, tag: string, own: seq<Option<Dom>>)
    requires Plain(tag)
    ensures CloseTag(Within(kids, [Frame(tag, own)]), tag) == Within(kids + [Some(Element(tag, own))], [])
  {
    var st := Within(kids, [Frame(tag, own)]);
    assert LastOpen(st, tag, 4) == Some(3);
    assert st[..3] == Within(kids, []);
    AddedWithin(kids, Element(tag, own));
    assert CloseTo(st, 3) == CloseTo(Pop(st), 3) == Pop(st) == Within(kids + [Some(Element(tag, own))], []);
    assert tag != "p";
  }

  lemma ClosedAround(kids: seq<Option<Dom>>, tag: string, inner: string)
    requires Plain(tag) && Plain(inner) && inner != tag
    ensures CloseTag(Within(kids, [Frame(tag, []), Frame(inner, [])]), tag)
            == Within(kids + [Some(Element(tag, [Some(Element(inner, []))]))], [])
  {
    var st, d := Within(kids, [Frame(tag, []), Frame(inner, [])]), Element(inner, []);
    var st1 := Within(kids, [Frame(tag, [Some(d)])]);
    assert LastOpen(st, tag, 5) == LastOpen(st, tag, 4) == Some(3);
    assert st[..4] == Within(kids, [Frame(tag, [])]) && st[..4][..3] == Within(kids, []);
    assert [] + [Some(d)] == [Some(d)];
    assert Pop(st) == st1;
    assert st1[..3] == Within(kids, []);
    AddedWithin(kids, Element(tag, [Some(d)]));
    assert Pop(st1) == Within(kids + [Some(Element(tag, [Some(d)]))], []);
    assert CloseTo(st, 3) == CloseTo(st1, 3) == CloseTo(Pop(st1), 3) == Pop(st1);
    assert tag != "p";
  }

  // ---------- the tags that close or are never open ----------

  lemma TopClosed(kids: seq<Option<Dom>>, open: string, own: seq<Option<Dom>>)
    ensures Pop(Within(kids, [Frame(open, own)])) == Within(kids + [Some(Element(open, own))], [])
  {
    assert Within(kids, [Frame(open, own)])[..3] == Within(kids, []);
    AddedWithin(kids, Element(open, own));
  }

  /** In a body with nothing open in it, these are added, and everything else is opened. */
  lemma VoidAdded(kids: seq<Option<Dom>>, tag: string)
    ensures OpenTag(Within(kids, []), tag)
            == if tag in {"area", "base", "br", "col", "embed", "hr", "img", "input", "link", "meta", "source", "track", "wbr"}
               then Within(kids + [Some(Element(tag, []))], []) else Within(kids, [Frame(tag, [])])
  {
    OpenedWithin(kids, [], tag);
    AddedWithin(kids, Element(tag, []));
    assert Within(kids, []) + [Frame(tag, [])] == Within(kids, [Frame(tag, [])]);
  }

  /** An open paragraph is closed by what cannot be in one. */
  lemma ParagraphEnded(kids: seq<Option<Dom>>, own: seq<Option<Dom>>, tag: string)
    requires tag in {"address", "article", "aside", "blockquote", "center", "details", "dialog", "div", "footer",
                     "header", "hgroup", "main", "nav", "search", "section", "summary", "h1", "h2", "h3", "h4", "h5",
                     "h6", "dir", "dl", "fieldset", "figcaption", "figure", "form", "li", "dd", "dt", "listing",
                     "plaintext", "xmp", "menu", "ol", "p", "pre", "table", "ul"}
    ensures OpenTag(Within(kids, [Frame("p", own)]), tag)
            == Within(kids + [Some(Element("p", own))], [Frame(tag, [])])
  {
    assert ClosesParagraph(tag);
    ParagraphCloses(kids, own, tag);
    VoidAdded(kids + [Some(Element("p", own))], tag);
  }

  /** And by nothing else: any other tag is inside it, whether opened or added. */
  lemma ParagraphKept(kids: seq<Option<Dom>>, own: seq<Option<Dom>>, tag: string)
    requires tag !in {"address", "article", "aside", "blockquote", "center", "details", "dialog", "div", "footer",
                      "header", "hgroup", "main", "nav", "search", "section", "summary", "h1", "h2", "h3", "h4", "h5",
                      "h6", "dir", "dl", "fieldset", "figcaption", "figure", "form", "hr", "li", "dd", "dt", "listing",
                      "plaintext", "xmp", "menu", "ol", "p", "pre", "table", "ul"}
    ensures OpenTag(Within(kids, [Frame("p", own)]), tag) in
              {Within(kids, [Frame("p", own), Frame(tag, [])]), Within(kids, [Frame("p", own + [Some(Element(tag, []))])])}
  {
    var st := Within(kids, [Frame("p", own)]);
    assert !ClosesParagraph(tag);
    BodyIsOpen(kids, [Frame("p", own)], 4);
    assert Top(st) == Frame("p", own) && !Ends(tag, "p") && CloseEnded(st, tag) == st && CloseParagraph(st, tag) == st;
    assert WithBody(st, tag) == st;
    assert st + [Frame(tag, [])] == Within(kids, [Frame("p", own), Frame(tag, [])]);
    assert st[..3] == Within(kids, []);
    assert Add(st, Element(tag, [])) == Within(kids, [Frame("p", own + [Some(Element(tag, []))])]);
  }

  lemma ParagraphCloses(kids: seq<Option<Dom>>, own: seq<Option<Dom>>, tag: string)
    requires ClosesParagraph(tag)
    ensures OpenTag(Within(kids, [Frame("p", own)]), tag) == OpenTag(Within(kids + [Some(Element("p", own))], []), tag)
  {
    var st, now := Within(kids, [Frame("p", own)]), Within(kids + [Some(Element("p", own))], []);
    assert Top(st) == Frame("p", own) && !Ends(tag, "p") && CloseEnded(st, tag) == st;
    assert ParagraphInScope(st, 4) == Some(3);
    TopClosed(kids, "p", own);
    assert CloseTo(st, 3) == CloseTo(Pop(st), 3) == now;
    assert CloseParagraph(st, tag) == now;
    assert Top(now).tag == "body" && CloseEnded(now, tag) == now;
    NoParagraph(kids + [Some(Element("p", own))], [], 3);
    assert CloseParagraph(now, tag) == now;
  }

  /** And so is an item by the next one of its kind. */
  lemma ItemEnded(kids: seq<Option<Dom>>, open: string, own: seq<Option<Dom>>, tag: string)
    requires (open, tag) in {("li", "li"), ("dt", "dt"), ("dt", "dd"), ("dd", "dt"), ("dd", "dd"), ("option", "option"),
                             ("tr", "tr"), ("td", "tr"), ("th", "tr"), ("td", "td"), ("td", "th"), ("th", "td"), ("th", "th")}
    ensures OpenTag(Within(kids, [Frame(open, own)]), tag) == Within(kids + [Some(Element(open, own))], [Frame(tag, [])])
  {
    var st, now := Within(kids, [Frame(open, own)]), Within(kids + [Some(Element(open, own))], []);
    assert Ends(tag, open) && Top(st) == Frame(open, own);
    TopClosed(kids, open, own);
    assert Top(now).tag == "body" && CloseEnded(now, tag) == now && CloseEnded(st, tag) == now;
    VoidAdded(kids + [Some(Element(open, own))], tag);
  }

  // ---------- a family of pages and their texts ----------

  /** An element v, k times over. */
  function Copies(v: string, k: nat): seq<Option<Dom>> {
    seq(k, i => Some(Element(v, [])))
  }

  /** n elements v, the last of which holds an element t. */
  function Row(v: string, n: nat, t: string): seq<Option<Dom>>
    requires n > 0
  {
    Copies(v, n - 1) + [Some(Element(v, [Some(Element(t, []))]))]
  }

  /** In the body an a that holds s, and then such a row. */
  function RowPage(s: string, v: string, n: nat, t: string): Dom
    requires n > 0
  {
    Element("html", [Some(Element("body", [Some(Element("a", [Some(Element(s, []))]))] + Row(v, n, t)))])
  }

  function CopiesText(v: string, k: nat, rest: string): string {
    if k == 0 then rest else Write(v, false) + (Write(v, true) + CopiesText(v, k - 1, rest))
  }

  function RowText(s: string, v: string, n: nat, t: string): string
    requires n > 0
  {
    Write("a", false) + (Write(s, false) + (Write("a", true) + CopiesText(v, n - 1, Write(v, false) + Write(t, false))))
  }

  lemma BuildFirst(st: Stack, t: Token, ts: seq<Token>)
    ensures Build(st, [t] + ts) == Build(Take(st, t), ts)
  {
    assert ([t] + ts)[1..] == ts;
  }

  /** Building from st with the text s comes to building from st' with the text r. */
  ghost predicate Comes(st: Stack, s: string, st': Stack, r: string) {
    Build(st, Tokens(s)) == Build(st', Tokens(r))
  }

  lemma Onward(st: Stack, s: string, st': Stack, r: string, st'': Stack, q: string)
    requires Comes(st, s, st', r) && Comes(st', r, st'', q)
    ensures Comes(st, s, st'', q)
  {
  }

  lemma OpenComes(st: Stack, x: string, rest: string, st': Stack)
    requires Name(x) && Plain(x) && st' == OpenTag(st, x)
    ensures Comes(st, Write(x, false) + rest, st', rest)
  {
    TagWritten(x, false, rest);
    BuildFirst(st, Open(x), Tokens(rest));
  }

  lemma CloseComes(st: Stack, x: string, rest: string, st': Stack)
    requires Name(x) && x[0] != '/' && st' == CloseTag(st, x)
    ensures Comes(st, Write(x, true) + rest, st', rest)
  {
    TagWritten(x, true, rest);
    BuildFirst(st, Close(x), Tokens(rest));
  }

  lemma OpenWithinComes(kids: seq<Option<Dom>>, open: seq<Frame>, x: string, rest: string, now: seq<Frame>)
    requires Name(x) && Plain(x) && (forall f | f in open :: Plain(f.tag)) && now == open + [Frame(x, [])]
    ensures Comes(Within(kids, open), Write(x, false) + rest, Within(kids, now), rest)
  {
    OpenedWithin(kids, open, x);
    assert Within(kids, open) + [Frame(x, [])] == Within(kids, now);
    OpenComes(Within(kids, open), x, rest, Within(kids, now));
  }

  /** One element opened and closed. */
  lemma OneComes(kids: seq<Option<Dom>>, v: string, text: string, rest: string, now: seq<Option<Dom>>)
    requires Name(v) && Plain(v) && v[0] != '/' && now == kids + [Some(Element(v, []))]
    requires text == Write(v, false) + (Write(v, true) + rest)
    ensures Comes(Within(kids, []), text, Within(now, []), rest)
  {
    var open, inner := [Frame(v, [])], Write(v, true) + rest;
    OpenWithinComes(kids, [], v, inner, open);
    ClosedWithin(kids, v, []);
    CloseComes(Within(kids, open), v, rest, Within(now, []));
    Onward(Within(kids, []), text, Within(kids, open), inner, Within(now, []), rest);
  }

  lemma CopiesSplit(kids: seq<Option<Dom>>, v: string, k: nat, now: seq<Option<Dom>>, all: seq<Option<Dom>>)
    requires k > 0 && now == kids + [Some(Element(v, []))] && all == kids + Copies(v, k)
    ensures all == now + Copies(v, k - 1)
  {
  }

  lemma {:induction false} CopiesCome(kids: seq<Option<Dom>>, v: string, k: nat, text: string, rest: string,
                                      all: seq<Option<Dom>>)
    requires Name(v) && Plain(v) && v[0] != '/' && all == kids + Copies(v, k) && text == CopiesText(v, k, rest)
    ensures Comes(Within(kids, []), text, Within(all, []), rest)
    decreases k
  {
    if k == 0 {
      assert all == kids;
    } else {
      var now, later := kids + [Some(Element(v, []))], CopiesText(v, k - 1, rest);
      CopiesSplit(kids, v, k, now, all);
      OneComes(kids, v, text, later, now);
      CopiesCome(now, v, k - 1, later, rest, all);
      Onward(Within(kids, []), text, Within(now, []), later, Within(all, []), rest);
    }
  }

  /** An a that holds s, at the beginning of the text. */
  lemma BeginningComes(s: string, rest: string, kids: seq<Option<Dom>>)
    requires Name(s) && Plain(s) && s != "a" && kids == [Some(Element("a", [Some(Element(s, []))]))]
    ensures Comes([Frame("", [])], Write("a", false) + (Write(s, false) + (Write("a", true) + rest)),
                  Within(kids, []), rest)
  {
    assert Name("a") && Plain("a");
    var a, both := [Frame("a", [])], [Frame("a", []), Frame(s, [])];
    var last := Write("a", true) + rest;
    FirstOpened("a");
    OpenComes([Frame("", [])], "a", Write(s, false) + last, Within([], a));
    OpenWithinComes([], a, s, last, both);
    ClosedAround([], "a", s);
    assert [] + kids == kids;
    CloseComes(Within([], both), "a", rest, Within(kids, []));
    Onward(Within([], a), Write(s, false) + last, Within([], both), last, Within(kids, []), rest);
    Onward([Frame("", [])], Write("a", false) + (Write(s, false) + last), Within([], a), Write(s, false) + last,
           Within(kids, []), rest);
  }

  /** The body holds these elements and the text is at its end. */
  function Whole(kids: seq<Option<Dom>>): Dom {
    Element("html", [Some(Element("body", kids))])
  }

  lemma ClosedAll(kids: seq<Option<Dom>>, d: Dom, st: Stack)
    requires st == Within(kids, [Frame(d.tag, d.kids)])
    ensures CloseTo(st, 1) == [Frame("", [Some(Whole(kids + [Some(d)]))])]
  {
    var all := kids + [Some(d)];
    var body, html := Element("body", all), Whole(all);
    var st3: Stack, st2: Stack, st1: Stack
      := Within(all, []), [Frame("", []), Frame("html", [Some(body)])], [Frame("", [Some(html)])];
    assert st[..3] == Within(kids, []);
    AddedWithin(kids, d);
    assert Pop(st) == st3;
    assert st3[..2] == [Frame("", []), Frame("html", [])] && [] + [Some(body)] == [Some(body)];
    assert Pop(st3) == st2;
    assert st2[..1] == [Frame("", [])] && [] + [Some(html)] == [Some(html)];
    assert Pop(st2) == st1;
    assert CloseTo(st, 1) == CloseTo(st3, 1) == CloseTo(st2, 1) == CloseTo(st1, 1);
  }

  /** The last tag of a text, whatever its rules, inside an open element v without rules. */
  lemma LastTaken(kids: seq<Option<Dom>>, v: string, t: string)
    requires Plain(v)
    ensures var now := Take(Within(kids, [Frame(v, [])]), Opening(t));
            now == Within(kids, [Frame(v, [Some(Element(t, []))])]) || now == Within(kids, [Frame(v, []), Frame(t, [])])
  {
    var st := Within(kids, [Frame(v, [])]);
    OpenedWithin(kids, [Frame(v, [])], t);
    assert st[..3] == Within(kids, []) && [] + [Some(Element(t, []))] == [Some(Element(t, []))];
    assert Add(st, Element(t, [])) == Within(kids, [Frame(v, [Some(Element(t, []))])]);
    assert st + [Frame(t, [])] == Within(kids, [Frame(v, []), Frame(t, [])]);
  }

  lemma LastClosed(kids: seq<Option<Dom>>, v: string, t: string, st: Stack)
    requires st in {Within(kids, [Frame(v, [Some(Element(t, []))])]), Within(kids, [Frame(v, []), Frame(t, [])])}
    ensures CloseTo(st, 1) == [Frame("", [Some(Whole(kids + [Some(Element(v, [Some(Element(t, []))]))]))])]
  {
    var inner := Within(kids, [Frame(v, [Some(Element(t, []))])]);
    ClosedAll(kids, Element(v, [Some(Element(t, []))]), inner);
    if st != inner {
      assert st[..4] == Within(kids, [Frame(v, [])]) && st[..4][..3] == Within(kids, []);
      assert [] + [Some(Element(t, []))] == [Some(Element(t, []))];
      assert Pop(st) == inner;
    }
  }

  lemma LastBuilt(kids: seq<Option<Dom>>, v: string, t: string)
    requires Name(t) && Plain(v)
    ensures CloseTo(Build(Within(kids, [Frame(v, [])]), Tokens(Write(t, false))), 1)
            == [Frame("", [Some(Whole(kids + [Some(Element(v, [Some(Element(t, []))]))]))])]
  {
    var st := Within(kids, [Frame(v, [])]);
    assert Write(t, false) + "" == Write(t, false);
    TagWritten(t, false, "");
    BuildFirst(st, Opening(t), []);
    assert Tokens(Write(t, false)) == [Opening(t)] + [];
    LastTaken(kids, v, t);
    LastClosed(kids, v, t, Take(st, Opening(t)));
  }

  lemma FirstIsHtml(page: Dom)
    requires page.tag == "html"
    ensures First(Element("", [Some(page)]), "html") == Some(page)
  {
    var d := Element("", [Some(page)]);
    assert |d.tag| != |page.tag|;
    assert First(page, "html") == Some(page);
    assert FirstKid(d, "html", 0) == Some(page);
  }

  lemma RowComes(v: string, n: nat, t: string, first: seq<Option<Dom>>, text: string, later: string, end: string,
                 kids: seq<Option<Dom>>)
    requires n > 0 && Name(v) && Plain(v) && v[0] != '/' && kids == first + Copies(v, n - 1)
    requires end == Write(v, false) + Write(t, false) && later == CopiesText(v, n - 1, end)
    requires Comes([Frame("", [])], text, Within(first, []), later)
    ensures Comes([Frame("", [])], text, Within(kids, [Frame(v, [])]), Write(t, false))
  {
    var doc: Stack, body, row, last := [Frame("", [])], Within(first, []), Within(kids, []), Write(t, false);
    CopiesCome(first, v, n - 1, later, end, kids);
    Onward(doc, text, body, later, row, end);
    OpenWithinComes(kids, [], v, last, [Frame(v, [])]);
    Onward(doc, text, row, end, Within(kids, [Frame(v, [])]), last);
  }

  /** The text of such a page is parsed to it, for names without rules in front and any name in the last place. */
  lemma RowParsed(s: string, v: string, n: nat, t: string)
    requires Name(s) && Name(v) && Name(t) && Plain(s) && Plain(v) && v[0] != '/' && s != "a" && n > 0
    ensures Page(RowText(s, v, n, t)) == Some(RowPage(s, v, n, t))
  {
    var first := [Some(Element("a", [Some(Element(s, []))]))];
    var end := Write(v, false) + Write(t, false);
    var later, kids := CopiesText(v, n - 1, end), first + Copies(v, n - 1);
    BeginningComes(s, later, first);
    RowComes(v, n, t, first, RowText(s, v, n, t), later, end, kids);
    RowEnds(s, v, n, t, first, kids, RowText(s, v, n, t));
  }

  lemma RowEnds(s: string, v: string, n: nat, t: string, first: seq<Option<Dom>>, kids: seq<Option<Dom>>, text: string)
    requires n > 0 && Name(t) && Plain(v) && first == [Some(Element("a", [Some(Element(s, []))]))]
    requires kids == first + Copies(v, n - 1) && Comes([Frame("", [])], text, Within(kids, [Frame(v, [])]), Write(t, false))
    ensures Page(text) == Some(RowPage(s, v, n, t))
  {
    LastBuilt(kids, v, t);
    assert kids + [Some(Element(v, [Some(Element(t, []))]))] == first + Row(v, n, t);
    DocumentIs(text, RowPage(s, v, n, t));
  }

  lemma DocumentIs(text: string, page: Dom)
    requires CloseTo(Build([Frame("", [])], Tokens(text)), 1) == [Frame("", [Some(page)])] && page.tag == "html"
    ensures Page(text) == Some(page)
  {
    FirstIsHtml(page);
  }

  lemma SimpleComes(st: Stack, x: string, close: bool, rest: string, st': Stack, text: string)
    requires Simple(x) && st' == (if close then CloseTag(st, x) else OpenTag(st, x))
    requires text == "<" + ((if close then "/" else "") + x) + ">" + rest
    ensures Comes(st, text, st', rest)
  {
    SimpleWritten(x, close, (if close then "/" else "") + x, rest);
    BuildFirst(st, if close then Close(x) else Open(x), Tokens(rest));
  }

  /** A small text, read tag by tag: an a with a b in it, and an element ab. */
  lemma SmallParsed(text: string, t1: string, t2: string, t3: string, ab: string)
    requires Simple(ab) && Plain(ab) && t3 == "<" + ("" + ab) + ">" + "" && t2 == "<" + ("/" + "a") + ">" + t3
    requires t1 == "<" + ("" + "b") + ">" + t2 && text == "<" + ("" + "a") + ">" + t1
    ensures Page(text) == Some(Whole([Some(Element("a", [Some(Element("b", []))])), Some(Element(ab, []))]))
  {
    var first, end := [Some(Element("a", [Some(Element("b", []))]))], [Frame(ab, [])];
    SmallComes(text, t1, t2, t3, first);
    OpenedWithin(first, [], ab);
    assert Within(first, []) + end == Within(first, end);
    SimpleComes(Within(first, []), ab, false, "", Within(first, end), t3);
    Onward([Frame("", [])], text, Within(first, []), t3, Within(first, end), "");
    ClosedAll(first, Element(ab, []), Within(first, end));
    assert Tokens("") == [];
    assert first + [Some(Element(ab, []))] == [first[0], Some(Element(ab, []))];
    DocumentIs(text, Whole(first + [Some(Element(ab, []))]));
  }

  lemma SmallComes(text: string, t1: string, t2: string, t3: string, first: seq<Option<Dom>>)
    requires t2 == "<" + ("/" + "a") + ">" + t3 && t1 == "<" + ("" + "b") + ">" + t2 && text == "<" + ("" + "a") + ">" + t1
    requires first == [Some(Element("a", [Some(Element("b", []))]))]
    ensures Comes([Frame("", [])], text, Within(first, []), t3)
  {
    var b := Within([], [Frame("a", []), Frame("b", [])]);
    SmallTags();
    SmallOpens(text, t1, t2, b);
    ClosedAround([], "a", "b");
    assert [] + first == first;
    SimpleComes(b, "a", true, t3, Within(first, []), t2);
    Onward([Frame("", [])], text, b, t2, Within(first, []), t3);
  }

  lemma SmallTags()
    ensures Plain("a") && Plain("b") && Simple("a") && Simple("b")
  {
  }

  lemma SmallOpens(text: string, t1: string, t2: string, b: Stack)
    requires t1 == "<" + ("" + "b") + ">" + t2 && text == "<" + ("" + "a") + ">" + t1
    requires Plain("a") && Plain("b") && Simple("a") && Simple("b") && b == Within([], [Frame("a", []), Frame("b", [])])
    ensures Comes([Frame("", [])], text, b, t2)
  {
    var a := Within([], [Frame("a", [])]);
    FirstOpened("a");
    SimpleComes([Frame("", [])], "a", false, t1, a, text);
    OpenedWithin([], [Frame("a", [])], "b");
    assert a + [Frame("b", [])] == b;
    SimpleComes(a, "b", false, t2, b, t1);
    Onward([Frame("", [])], text, a, t1, b, t2);
  }
}
