/** The scanner that cuts the entries out of a `data: [...]` list by counting braces outside strings and
    comments, against a grammar of such lists: it finds exactly the bodies that the grammar has. */
module Scanner {
  import opened Options
  import opened Sequences

  // ---------- the grammar ----------

  /** One character of a string literal: itself, or any character after a backslash. */
  datatype Part = One(c: char) | Escaped(c: char)

  /** Text with balanced braces: characters, string literals, comments to the end of their line, and braces. */
  datatype Text =
    | Nil
    | Plain(c: char, rest: Text)
    | Quoted(q: char, parts: seq<Part>, rest: Text)
    | Comment(note: string, rest: Text)
    | Braces(inner: Text, rest: Text)

  function ShowParts(parts: seq<Part>): string {
    if parts == [] then ""
    else (match parts[0] case One(c) => [c] case Escaped(c) => ['\\', c]) + ShowParts(parts[1..])
  }

  function Show(t: Text): string {
    match t
    case Nil => ""
    case Plain(c, rest) => [c] + Show(rest)
    case Quoted(q, parts, rest) => [q] + (ShowParts(parts) + ([q] + Show(rest)))
    case Comment(note, rest) => ['/', '/'] + (note + (['\n'] + Show(rest)))
    case Braces(inner, rest) => ['{'] + (Show(inner) + (['}'] + Show(rest)))
  }

  predicate PartOk(p: Part, q: char) {
    p.Escaped? || (p.c != q && p.c != '\\')
  }

  predicate Quote(c: char) {
    c == '"' || c == '\''
  }

  predicate StartsSlash(t: Text) {
    t.Comment? || (t.Plain? && t.c == '/')
  }

  /** Text as it may stand between the entries (top) or inside one: between them no braces and no closing
      bracket; nowhere two plain slashes in a row, which would be a comment. */
  predicate WellFormed(t: Text, top: bool) {
    match t
    case Nil => true
    case Plain(c, rest) =>
      && !Quote(c) && c != '{' && c != '}' && (top ==> c != ']') && (c == '/' ==> !StartsSlash(rest))
      && WellFormed(rest, top)
    case Quoted(q, parts, rest) =>
      Quote(q) && (forall p | p in parts :: PartOk(p, q)) && WellFormed(rest, top)
    case Comment(note, rest) => '\n' !in note && WellFormed(rest, top)
    case Braces(inner, rest) => !top && WellFormed(inner, false) && WellFormed(rest, top)
  }

  /** Entries, each after the text that separates it from the one before. */
  datatype Entries = Done | Entry(gap: Text, body: Text, rest: Entries)

  function ShowEntries(es: Entries): string {
    match es
    case Done => ""
    case Entry(gap, body, rest) => Show(gap) + (['{'] + (Show(body) + (['}'] + ShowEntries(rest))))
  }

  predicate EntriesOk(es: Entries) {
    es.Entry? ==> WellFormed(es.gap, true) && WellFormed(es.body, false) && EntriesOk(es.rest)
  }

  function Bodies(es: Entries): seq<string> {
    if es.Done? then [] else [Show(es.body)] + Bodies(es.rest)
  }

  // ---------- the scan ----------

  datatype Span = Span(from: nat, to: nat)

  /** Python's find: the first position at or after i, or -1. */
  function Find(s: string, c: char, i: nat): (j: int)
    ensures j < 0 ==> forall k | i <= k < |s| :: s[k] != c
    ensures j >= 0 ==> i <= j < |s| && s[j] == c && forall k | i <= k < j :: s[k] != c
    decreases |s| - i
  {
    if i >= |s| then -1 else if s[i] == c then i else Find(s, c, i + 1)
  }

  predicate CommentAt(s: string, i: nat) {
    i + 1 < |s| && s[i] == '/' && s[i + 1] == '/'
  }

  /** Where the scan stands: its position, its depth, the beginning of the entry being read, and the delimiter
      of the string being read. */
  datatype Cursor = Cursor(i: nat, depth: nat, start: nat, quote: Option<char>)

  /** One turn of the loop; None when it ends. */
  function Step(s: string, c: Cursor): (n: Option<Cursor>)
    requires c.i < |s|
    ensures n.Some? ==> c.i < n.value.i
  {
    var ch := s[c.i];
    if c.quote.Some? then
      if ch == '\\' then Some(c.(i := c.i + 2))
      else Some(c.(i := c.i + 1, quote := if ch == c.quote.value then None else c.quote))
    else if Quote(ch) then Some(c.(i := c.i + 1, quote := Some(ch)))
    else if CommentAt(s, c.i) then
      var j := Find(s, '\n', c.i);
      if j < 0 then None else Some(c.(i := j))
    else if ch == '{' then
      Some(Cursor(c.i + 1, c.depth + 1, if c.depth == 0 then c.i + 1 else c.start, None))
    else if ch == '}' then if c.depth == 0 then None else Some(c.(i := c.i + 1, depth := c.depth - 1))
    else if ch == ']' && c.depth == 0 then None
    else Some(c.(i := c.i + 1))
  }

  /** An entry ends here. */
  predicate Closes(s: string, c: Cursor) {
    c.i < |s| && c.quote.None? && s[c.i] == '}' && c.depth == 1
  }

  /** The spans still to be found. */
  function Scan(s: string, c: Cursor): seq<Span>
    decreases |s| - c.i
  {
    if c.i >= |s| then []
    else match Step(s, c)
      case None => []
      case Some(n) => if Closes(s, c) then [Span(c.start, c.i)] + Scan(s, n) else Scan(s, n)
  }

  /** The text of spans; out-of-range bounds are cut back, as slicing does. */
  function Slice(s: string, span: Span): string {
    if span.from <= span.to <= |s| then s[span.from..span.to] else ""
  }

  function Slices(s: string, spans: seq<Span>): seq<string> {
    if spans == [] then [] else [Slice(s, spans[0])] + Slices(s, spans[1..])
  }

  lemma {:induction false} SlicesSnoc(s: string, spans: seq<Span>, x: Span)
    ensures Slices(s, spans + [x]) == Slices(s, spans) + [Slice(s, x)]
  {
    if spans == [] {
      assert spans + [x] == [x];
      assert [x][1..] == [];
    } else {
      assert (spans + [x])[1..] == spans[1..] + [x];
      SlicesSnoc(s, spans[1..], x);
    }
  }

  /** One span moves from those still to be found to those found. */
  lemma MoveFirst(s: string, spans: seq<Span>, x: Span, rest: seq<Span>)
    ensures spans + ([x] + rest) == (spans + [x]) + rest
    ensures Slices(s, spans + [x]) == Slices(s, spans) + [Slice(s, x)]
  {
    Regroup(spans, [x], rest);
    SlicesSnoc(s, spans, x);
  }

  function Objects(s: string): seq<string> {
    Slices(s, Scan(s, Cursor(0, 0, 0, None)))
  }

  method TopLevelObjects(body: string) returns (found: seq<string>)
    ensures found == Objects(body)
  {
    found := [];
    var depth, start, i := 0, 0, 0;
    var inStr: Option<char> := None;
    ghost var spans: seq<Span> := [];
    ghost var all := Scan(body, Cursor(0, 0, 0, None));
    while i < |body|
      invariant 0 <= depth && 0 <= start && 0 <= i
      invariant all == spans + Scan(body, Cursor(i, depth, start, inStr))
      invariant found == Slices(body, spans)
      invariant depth > 0 ==> start <= i
      decreases |body| - i
    {
      var ch := body[i];
      if inStr.Some? {
        if ch == '\\' {
          i := i + 2;
          continue;
        }
        if ch == inStr.value {
          inStr := None;
        }
      } else if Quote(ch) {
        inStr := Some(ch);
      } else if CommentAt(body, i) {
        var j := Find(body, '\n', i);
        if j < 0 { break; }
        i := j;
        continue;
      } else if ch == '{' {
        if depth == 0 {
          start := i + 1;
        }
        depth := depth + 1;
      } else if ch == '}' {
        if depth == 0 { break; }
        depth := depth - 1;
        if depth == 0 {
          MoveFirst(body, spans, Span(start, i), Scan(body, Cursor(i + 1, 0, start, None)));
          found := found + [body[start..i]];
          spans := spans + [Span(start, i)];
        }
      } else if ch == ']' && depth == 0 {
        break;
      }
      i := i + 1;
    }
    assert spans + [] == spans;
  }

  // ---------- any input: the spans are apart and in order ----------

  /** Spans between a pair of braces each, from lo on, one after the other. */
  ghost predicate Apart(s: string, lo: nat, spans: seq<Span>) {
    && (forall k | 0 <= k < |spans| ::
          lo <= spans[k].from <= spans[k].to < |s| && 0 < spans[k].from
          && s[spans[k].from - 1] == '{' && s[spans[k].to] == '}')
    && (forall k, l | 0 <= k < l < |spans| :: spans[k].to < spans[l].from)
  }

  lemma ApartFirst(s: string, lo: nat, x: Span, spans: seq<Span>)
    requires 0 < lo <= x.from <= x.to < |s| && s[x.from - 1] == '{' && s[x.to] == '}' && Apart(s, x.to + 1, spans)
    ensures Apart(s, lo, [x] + spans)
  {
    var all := [x] + spans;
    assert forall k | 0 < k < |all| :: all[k] == spans[k - 1];
  }

  /** What holds of the entry being read, which begins at lo or later. */
  ghost predicate Opened(s: string, c: Cursor, lo: nat) {
    if c.depth == 0 then 0 < lo <= c.i + 1
    else 0 < lo <= c.start <= c.i && c.start <= |s| && s[c.start - 1] == '{'
  }

  lemma StepOpened(s: string, c: Cursor, lo: nat)
    requires c.i < |s| && Step(s, c).Some? && Opened(s, c, lo)
    ensures Opened(s, Step(s, c).value, if Closes(s, c) then c.i + 1 else lo)
  {
  }

  /** On any input the spans found lie between braces, in order and without overlap. */
  lemma {:induction false} ScanApart(s: string, c: Cursor, lo: nat)
    requires Opened(s, c, lo)
    ensures Apart(s, lo, Scan(s, c))
    decreases |s| - c.i
  {
    if c.i < |s| && Step(s, c).Some? {
      var n := Step(s, c).value;
      StepOpened(s, c, lo);
      if Closes(s, c) {
        ScanApart(s, n, c.i + 1);
        ApartFirst(s, lo, Span(c.start, c.i), Scan(s, n));
      } else {
        ScanApart(s, n, lo);
      }
    }
  }

  // ---------- what the grammar says is read ----------

  /** w stands in s from position i on. */
  predicate At(s: string, i: nat, w: string) {
    i + |w| <= |s| && s[i..i + |w|] == w
  }

  lemma AtConcat(s: string, i: nat, v: string, w: string)
    ensures At(s, i, v + w) <==> At(s, i, v) && At(s, i + |v|, w)
  {
    if At(s, i, v + w) {
      assert s[i..i + |v|] == (v + w)[..|v|] == v;
      assert s[i + |v|..i + |v| + |w|] == (v + w)[|v|..] == w;
    }
    if At(s, i, v) && At(s, i + |v|, w) {
      assert s[i..i + |v + w|] == s[i..i + |v|] + s[i + |v|..i + |v| + |w|];
    }
  }

  lemma AtOne(s: string, i: nat, c: char)
    ensures At(s, i, [c]) <==> i < |s| && s[i] == c
  {
    if i < |s| {
      assert s[i..i + 1] == [s[i]];
    }
  }

  lemma AtFirst(s: string, i: nat, c: char, w: string)
    ensures At(s, i, [c] + w) <==> i < |s| && s[i] == c && At(s, i + 1, w)
  {
    AtOne(s, i, c);
    AtConcat(s, i, [c], w);
  }

  /** From i the scan gets to n, at the same depth and outside strings, without finding anything. */
  ghost predicate Skips(s: string, i: nat, n: nat, depth: nat, start: nat) {
    Scan(s, Cursor(i, depth, start, None)) == Scan(s, Cursor(n, depth, start, None))
  }

  lemma SkipsOn(s: string, i: nat, j: nat, n: nat, depth: nat, start: nat)
    requires Skips(s, i, j, depth, start) && Skips(s, j, n, depth, start)
    ensures Skips(s, i, n, depth, start)
  {
  }

  lemma {:induction false} PartsSkipped(s: string, i: nat, parts: seq<Part>, q: char, n: nat, depth: nat, start: nat)
    requires At(s, i, ShowParts(parts)) && (forall p | p in parts :: PartOk(p, q)) && n == i + |ShowParts(parts)|
    ensures Scan(s, Cursor(i, depth, start, Some(q))) == Scan(s, Cursor(n, depth, start, Some(q)))
    decreases |parts|
  {
    if parts != [] {
      var w := ShowParts(parts[1..]);
      assert parts[0] in parts;
      match parts[0]
      case One(c) =>
        assert ShowParts(parts) == [c] + w;
        AtFirst(s, i, c, w);
        PartsSkipped(s, i + 1, parts[1..], q, n, depth, start);
      case Escaped(c) =>
        assert ShowParts(parts) == ['\\'] + ([c] + w);
        AtFirst(s, i, '\\', [c] + w);
        AtFirst(s, i + 1, c, w);
        PartsSkipped(s, i + 2, parts[1..], q, n, depth, start);
    }
  }

  lemma NoteStands(s: string, i: nat, note: string, w: string)
    requires At(s, i, ['/', '/'] + (note + (['\n'] + w))) && '\n' !in note
    ensures At(s, i + 3 + |note|, w)
    ensures CommentAt(s, i) && Find(s, '\n', i) == i + 2 + |note|
  {
    AtConcat(s, i, ['/', '/'], note + (['\n'] + w));
    AtConcat(s, i + 2, note, ['\n'] + w);
    AtFirst(s, i + 2 + |note|, '\n', w);
    assert s[i..i + 2][0] == '/' && s[i..i + 2][1] == '/';
    assert forall k | i + 2 <= k < i + 2 + |note| :: s[k] == note[k - i - 2];
  }

  lemma NoteSkipped(s: string, i: nat, note: string, w: string, n: nat, depth: nat, start: nat)
    requires At(s, i, ['/', '/'] + (note + (['\n'] + w))) && '\n' !in note && n == i + 3 + |note|
    ensures At(s, n, w) && Skips(s, i, n, depth, start)
  {
    NoteStands(s, i, note, w);
    NotePassed(s, i, i + 2 + |note|, depth, start);
  }

  lemma NotePassed(s: string, i: nat, j: nat, depth: nat, start: nat)
    requires CommentAt(s, i) && Find(s, '\n', i) == j
    ensures Skips(s, i, j + 1, depth, start)
  {
    assert !CommentAt(s, j) && !Quote(s[j]);
    assert Step(s, Cursor(j, depth, start, None)) == Some(Cursor(j + 1, depth, start, None));
    assert Step(s, Cursor(i, depth, start, None)) == Some(Cursor(j, depth, start, None));
  }

  lemma QuotedSkipped(s: string, i: nat, q: char, parts: seq<Part>, w: string, n: nat, depth: nat, start: nat)
    requires Quote(q) && forall p | p in parts :: PartOk(p, q)
    requires At(s, i, [q] + (ShowParts(parts) + ([q] + w))) && n == i + 2 + |ShowParts(parts)|
    ensures At(s, n, w) && Skips(s, i, n, depth, start)
  {
    var v := ShowParts(parts);
    AtFirst(s, i, q, v + ([q] + w));
    AtConcat(s, i + 1, v, [q] + w);
    AtFirst(s, n - 1, q, w);
    PartsSkipped(s, i + 1, parts, q, n - 1, depth, start);
    StringOpens(s, i, q, depth, start);
    StringCloses(s, n - 1, q, depth, start);
  }

  lemma StringOpens(s: string, i: nat, q: char, depth: nat, start: nat)
    requires i < |s| && s[i] == q && Quote(q)
    ensures Scan(s, Cursor(i, depth, start, None)) == Scan(s, Cursor(i + 1, depth, start, Some(q)))
  {
  }

  lemma StringCloses(s: string, i: nat, q: char, depth: nat, start: nat)
    requires i < |s| && s[i] == q && Quote(q)
    ensures Scan(s, Cursor(i, depth, start, Some(q))) == Scan(s, Cursor(i + 1, depth, start, None))
  {
    assert Step(s, Cursor(i, depth, start, Some(q))) == Some(Cursor(i + 1, depth, start, None));
  }

  lemma PlainSkipped(s: string, i: nat, c: char, w: string, depth: nat, start: nat)
    requires !Quote(c) && c != '{' && c != '}' && (depth == 0 ==> c != ']') && At(s, i, [c] + w)
    requires c == '/' ==> (if w == "" then i + 1 < |s| && s[i + 1] != '/' else w[0] != '/')
    ensures At(s, i + 1, w) && Skips(s, i, i + 1, depth, start)
  {
    AtFirst(s, i, c, w);
    assert w != "" ==> s[i + 1] == s[i + 1..i + 1 + |w|][0];
  }

  /** A pair of braces inside an entry costs one level down and one up. */
  lemma BracesSkipped(s: string, i: nat, k: nat, depth: nat, start: nat)
    requires depth > 0 && i < k < |s| && s[i] == '{' && s[k] == '}'
    requires Skips(s, i + 1, k, depth + 1, start)
    ensures Skips(s, i, k + 1, depth, start)
  {
  }

  lemma BracesAt(s: string, i: nat, v: string, w: string, k: nat)
    requires At(s, i, ['{'] + (v + (['}'] + w))) && k == i + 1 + |v|
    ensures k < |s| && s[i] == '{' && s[k] == '}' && At(s, i + 1, v) && At(s, k + 1, w)
  {
    AtFirst(s, i, '{', v + (['}'] + w));
    AtConcat(s, i + 1, v, ['}'] + w);
    AtFirst(s, k, '}', w);
  }

  lemma FirstSlash(t: Text)
    requires WellFormed(t, false) || WellFormed(t, true)
    ensures Show(t) != "" ==> (Show(t)[0] == '/' <==> StartsSlash(t))
    ensures Show(t) == "" <==> t.Nil?
  {
  }

  lemma Lengths(t: Text)
    ensures match t
            case Nil => |Show(t)| == 0
            case Plain(c, rest) => |Show(t)| == 1 + |Show(rest)|
            case Quoted(q, parts, rest) => |Show(t)| == 2 + |ShowParts(parts)| + |Show(rest)|
            case Comment(note, rest) => |Show(t)| == 3 + |note| + |Show(rest)|
            case Braces(inner, rest) => |Show(t)| == 2 + |Show(inner)| + |Show(rest)|
  {
  }

  /** Well-formed text, read at a depth where it belongs, is passed over whole. */
  lemma {:induction false} TextSkipped(s: string, i: nat, t: Text, depth: nat, start: nat, n: nat)
    requires WellFormed(t, depth == 0) && At(s, i, Show(t)) && n == i + |Show(t)|
    requires n < |s| && s[n] != '/'
    ensures Skips(s, i, n, depth, start)
    decreases t, 1
  {
    Lengths(t);
    match t
    case Nil =>
    case Plain(c, rest) =>
      FirstSlash(rest);
      PlainSkipped(s, i, c, Show(rest), depth, start);
      RestSkipped(s, i, i + 1, rest, depth, start, n);
    case Quoted(q, parts, rest) =>
      var j := i + 2 + |ShowParts(parts)|;
      QuotedSkipped(s, i, q, parts, Show(rest), j, depth, start);
      RestSkipped(s, i, j, rest, depth, start, n);
    case Comment(note, rest) =>
      var j := i + 3 + |note|;
      NoteSkipped(s, i, note, Show(rest), j, depth, start);
      RestSkipped(s, i, j, rest, depth, start, n);
    case Braces(inner, rest) => NestedSkipped(s, i, inner, rest, depth, start, i + 1 + |Show(inner)|, n);
  }

  lemma {:induction false} RestSkipped(s: string, i: nat, j: nat, rest: Text, depth: nat, start: nat, n: nat)
    requires Skips(s, i, j, depth, start) && WellFormed(rest, depth == 0) && At(s, j, Show(rest))
    requires n == j + |Show(rest)| && n < |s| && s[n] != '/'
    ensures Skips(s, i, n, depth, start)
    decreases rest, 2
  {
    TextSkipped(s, j, rest, depth, start, n);
    SkipsOn(s, i, j, n, depth, start);
  }

  lemma {:induction false} NestedSkipped(s: string, i: nat, inner: Text, rest: Text, depth: nat, start: nat,
                                         k: nat, n: nat)
    requires depth > 0 && WellFormed(inner, false) && WellFormed(rest, false)
    requires At(s, i, ['{'] + (Show(inner) + (['}'] + Show(rest))))
    requires k == i + 1 + |Show(inner)| && n == k + 1 + |Show(rest)| && n < |s| && s[n] != '/'
    ensures Skips(s, i, n, depth, start)
    decreases Braces(inner, rest), 0
  {
    BracesAt(s, i, Show(inner), Show(rest), k);
    TextSkipped(s, i + 1, inner, depth + 1, start, k);
    BracesSkipped(s, i, k, depth, start);
    RestSkipped(s, i, k + 1, rest, depth, start, n);
  }

  /** Between entries the beginning of the last one does not matter. */
  lemma {:induction false} StartFree(s: string, c: Cursor, b: nat)
    requires c.depth == 0
    ensures Scan(s, c) == Scan(s, c.(start := b))
    decreases |s| - c.i
  {
    if c.i < |s| && Step(s, c).Some? {
      var n := Step(s, c).value;
      if n.depth == 0 {
        StartFree(s, n, b);
      }
    }
  }

  /** The texts of the spans found from a position between entries. */
  function From(s: string, i: nat): seq<string> {
    Slices(s, Scan(s, Cursor(i, 0, 0, None)))
  }

  lemma SlicesFirst(s: string, x: Span, spans: seq<Span>)
    ensures Slices(s, [x] + spans) == [Slice(s, x)] + Slices(s, spans)
  {
    assert ([x] + spans)[1..] == spans;
  }

  lemma OpeningBrace(s: string, i: nat, start: nat)
    requires i < |s| && s[i] == '{'
    ensures Scan(s, Cursor(i, 0, start, None)) == Scan(s, Cursor(i + 1, 1, i + 1, None))
  {
  }

  lemma ClosingBrace(s: string, i: nat, start: nat)
    requires i < |s| && s[i] == '}'
    ensures Scan(s, Cursor(i, 1, start, None)) == [Span(start, i)] + Scan(s, Cursor(i + 1, 0, start, None))
  {
  }

  /** From i the scan finds these texts, and then whatever is found from n. */
  ghost predicate Finds(s: string, i: nat, found: seq<string>, n: nat) {
    From(s, i) == found + From(s, n)
  }

  lemma FindsOn(s: string, i: nat, a: seq<string>, j: nat, b: seq<string>, n: nat)
    requires Finds(s, i, a, j) && Finds(s, j, b, n)
    ensures Finds(s, i, a + b, n)
  {
    Regroup(a, b, From(s, n));
  }

  /** One entry: its body is found, then whatever follows its closing brace. */
  lemma EntryFound(s: string, i: nat, b: string, k: nat)
    requires k == i + 1 + |b| && k < |s| && s[i] == '{' && s[k] == '}' && At(s, i + 1, b)
    requires Skips(s, i + 1, k, 1, i + 1)
    ensures Finds(s, i, [b], k + 1)
  {
    var spans := Scan(s, Cursor(k + 1, 0, i + 1, None));
    OpeningBrace(s, i, 0);
    ClosingBrace(s, k, i + 1);
    SlicesFirst(s, Span(i + 1, k), spans);
    StartFree(s, Cursor(k + 1, 0, i + 1, None), 0);
  }

  lemma GapFound(s: string, i: nat, gap: Text, j: nat)
    requires WellFormed(gap, true) && At(s, i, Show(gap)) && j == i + |Show(gap)| && j < |s| && s[j] != '/'
    ensures From(s, i) == From(s, j)
  {
    TextSkipped(s, i, gap, 0, 0, j);
  }

  lemma BodyFound(s: string, j: nat, body: Text, k: nat)
    requires WellFormed(body, false) && At(s, j + 1, Show(body))
    requires k == j + 1 + |Show(body)| && k < |s| && s[j] == '{' && s[k] == '}'
    ensures Finds(s, j, [Show(body)], k + 1)
  {
    TextSkipped(s, j + 1, body, 1, j + 1, k);
    EntryFound(s, j, Show(body), k);
  }

  lemma EntryAt(s: string, i: nat, g: string, b: string, w: string, j: nat, k: nat)
    requires At(s, i, g + (['{'] + (b + (['}'] + w)))) && j == i + |g| && k == j + 1 + |b|
    ensures At(s, i, g) && k < |s| && s[j] == '{' && At(s, j + 1, b) && s[k] == '}' && At(s, k + 1, w)
  {
    AtConcat(s, i, g, ['{'] + (b + (['}'] + w)));
    BracesAt(s, j, b, w, k);
  }

  lemma EntryFirst(s: string, i: nat, gap: Text, body: Text, j: nat, k: nat, found: seq<string>, n: nat)
    requires WellFormed(gap, true) && At(s, i, Show(gap)) && j == i + |Show(gap)| && j < |s| && s[j] == '{'
    requires WellFormed(body, false) && At(s, j + 1, Show(body)) && k == j + 1 + |Show(body)| && k < |s| && s[k] == '}'
    requires Finds(s, k + 1, found, n)
    ensures Finds(s, i, [Show(body)] + found, n)
  {
    GapFound(s, i, gap, j);
    BodyFound(s, j, body, k);
    FindsOn(s, j, [Show(body)], k + 1, found, n);
  }

  /** Wherever entries of the grammar stand, the scan finds their bodies first and goes on after them. */
  lemma {:induction false} EntriesFound(s: string, i: nat, es: Entries, n: nat)
    requires EntriesOk(es) && At(s, i, ShowEntries(es)) && n == i + |ShowEntries(es)|
    ensures Finds(s, i, Bodies(es), n)
    decreases es
  {
    match es
    case Done =>
    case Entry(gap, body, rest) =>
      var j := i + |Show(gap)|;
      var k := j + 1 + |Show(body)|;
      EntryAt(s, i, Show(gap), Show(body), ShowEntries(rest), j, k);
      EntriesFound(s, k + 1, rest, n);
      EntryFirst(s, i, gap, body, j, k, Bodies(rest), n);
  }

  lemma ClosedList(s: string, i: nat, gap: Text, after: string)
    requires WellFormed(gap, true) && At(s, i, Show(gap) + ([']'] + after))
    ensures From(s, i) == []
  {
    AtConcat(s, i, Show(gap), [']'] + after);
    AtFirst(s, i + |Show(gap)|, ']', after);
    TextSkipped(s, i, gap, 0, 0, i + |Show(gap)|);
  }

  /** A closed list gives exactly its bodies, whatever follows the bracket. */
  lemma ScannerRecovers(es: Entries, gap: Text, after: string)
    requires EntriesOk(es) && WellFormed(gap, true)
    ensures Objects(ShowEntries(es) + (Show(gap) + ([']'] + after))) == Bodies(es)
  {
    var tail := Show(gap) + ([']'] + after);
    var s := ShowEntries(es) + tail;
    assert s[0..|s|] == s;
    ListFound(s, es, gap, after);
  }

  lemma ListFound(s: string, es: Entries, gap: Text, after: string)
    requires EntriesOk(es) && WellFormed(gap, true) && At(s, 0, ShowEntries(es) + (Show(gap) + ([']'] + after)))
    ensures Objects(s) == Bodies(es)
  {
    AtConcat(s, 0, ShowEntries(es), Show(gap) + ([']'] + after));
    EntriesFound(s, 0, es, |ShowEntries(es)|);
    ClosedList(s, |ShowEntries(es)|, gap, after);
  }

  // ---------- any input: what is found is in the grammar ----------

  /** From inside a string: either it is closed, or nothing more is found. */
  lemma {:induction false} StringEnds(s: string, i: nat, q: char, depth: nat, start: nat)
      returns (closed: bool, parts: seq<Part>)
    requires Quote(q)
    ensures closed ==> At(s, i, ShowParts(parts) + [q]) && forall p | p in parts :: PartOk(p, q)
    ensures !closed ==> Scan(s, Cursor(i, depth, start, Some(q))) == []
    decreases |s| - i
  {
    closed, parts := false, [];
    if i < |s| {
      if s[i] == q {
        closed := true;
        AtOne(s, i, q);
        assert ShowParts([]) + [q] == [q];
      } else {
        var n := if s[i] == '\\' then i + 2 else i + 1;
        var ends, more := StringEnds(s, n, q, depth, start);
        if ends && n <= |s| {
          var p := if s[i] == '\\' then Escaped(s[i + 1]) else One(s[i]);
          closed, parts := true, [p] + more;
          PartFirst(s, i, p, more, q);
        }
      }
    }
  }

  lemma PartFirst(s: string, i: nat, p: Part, more: seq<Part>, q: char)
    requires i < |s| && (p.Escaped? ==> i + 1 < |s|)
    requires if p.One? then s[i] == p.c else s[i] == '\\' && s[i + 1] == p.c
    requires At(s, if p.One? then i + 1 else i + 2, ShowParts(more) + [q])
    ensures At(s, i, ShowParts([p] + more) + [q])
  {
    var w := ShowParts(more) + [q];
    assert ([p] + more)[1..] == more;
    if p.One? {
      AtFirst(s, i, p.c, w);
      assert ShowParts([p] + more) + [q] == [p.c] + w;
    } else {
      AtFirst(s, i + 1, p.c, w);
      AtFirst(s, i, '\\', [p.c] + w);
      assert ShowParts([p] + more) + [q] == ['\\'] + ([p.c] + w);
    }
  }

  lemma QuotedAt(s: string, i: nat, q: char, parts: seq<Part>, w: string, n: nat)
    requires i < |s| && s[i] == q && At(s, i + 1, ShowParts(parts) + [q]) && n == i + 2 + |ShowParts(parts)|
    requires At(s, n, w)
    ensures At(s, i, [q] + (ShowParts(parts) + ([q] + w)))
  {
    var v := ShowParts(parts);
    AtConcat(s, i + 1, v, [q]);
    AtOne(s, n - 1, q);
    AtFirst(s, n - 1, q, w);
    AtConcat(s, i + 1, v, [q] + w);
    AtFirst(s, i, q, v + ([q] + w));
  }

  lemma NoteAt(s: string, i: nat, j: nat, w: string) returns (note: string)
    requires CommentAt(s, i) && Find(s, '\n', i) == j && At(s, j + 1, w)
    ensures '\n' !in note && j == i + 2 + |note| && At(s, i, ['/', '/'] + (note + (['\n'] + w)))
  {
    note := s[i + 2..j];
    AtFirst(s, j, '\n', w);
    AtConcat(s, i + 2, note, ['\n'] + w);
    assert s[i..i + 2] == ['/', '/'];
    AtConcat(s, i, ['/', '/'], note + (['\n'] + w));
  }

  lemma AtNothing(s: string, i: nat)
    requires i <= |s|
    ensures At(s, i, "")
  {
  }

  /** A character that stands for itself can precede any text that follows it. */
  lemma PlainFits(s: string, i: nat, t: Text, top: bool)
    requires i < |s| && !Quote(s[i]) && s[i] != '{' && s[i] != '}' && !CommentAt(s, i) && (top ==> s[i] != ']')
    requires WellFormed(t, top) && At(s, i + 1, Show(t))
    ensures WellFormed(Plain(s[i], t), top) && At(s, i, [s[i]] + Show(t))
  {
    FirstSlash(t);
    AtFirst(s, i, s[i], Show(t));
    if t != Nil {
      assert s[i + 1] == s[i + 1..i + 1 + |Show(t)|][0];
    }
  }

  /** How reading on from position i of an entry ends: its text t is closed by a brace, or nothing is found. */
  ghost predicate Ends(s: string, i: nat, depth: nat, start: nat, closed: bool, t: Text) {
    if closed then WellFormed(t, false) && At(s, i, Show(t) + ['}']) else Scan(s, Cursor(i, depth, start, None)) == []
  }

  function Tail(closed: bool, t: Text): string {
    if closed then Show(t) + ['}'] else ""
  }

  lemma QuotedEnds(s: string, i: nat, parts: seq<Part>, n: nat, depth: nat, start: nat, closed: bool, rest: Text)
    requires i < |s| && Quote(s[i]) && At(s, i + 1, ShowParts(parts) + [s[i]]) && n == i + 2 + |ShowParts(parts)|
    requires forall p | p in parts :: PartOk(p, s[i])
    requires Ends(s, n, depth, start, closed, rest)
    ensures Ends(s, i, depth, start, closed, Quoted(s[i], parts, rest))
  {
    var w := Tail(closed, rest);
    QuotedAt(s, i, s[i], parts, w, n);
    QuotedSkipped(s, i, s[i], parts, w, n, depth, start);
    Ending([s[i]], ShowParts(parts), [s[i]], Show(rest));
  }

  lemma CommentEnds(s: string, i: nat, j: nat, depth: nat, start: nat, closed: bool, rest: Text) returns (note: string)
    requires CommentAt(s, i) && Find(s, '\n', i) == j && Ends(s, j + 1, depth, start, closed, rest)
    ensures Ends(s, i, depth, start, closed, Comment(note, rest))
  {
    var w := Tail(closed, rest);
    note := NoteAt(s, i, j, w);
    NoteSkipped(s, i, note, w, j + 1, depth, start);
    Ending(['/', '/'], note, ['\n'], Show(rest));
  }

  lemma EntryStands(s: string, i: nat, b: string, k: nat, w: string)
    requires i < |s| && s[i] == '{' && k == i + 1 + |b| && At(s, i + 1, b + ['}']) && (w == "" || At(s, k + 1, w))
    ensures At(s, i, ['{'] + (b + (['}'] + w))) && At(s, i + 1, b) && k < |s| && s[k] == '}'
  {
    AtConcat(s, i + 1, b, ['}']);
    AtOne(s, k, '}');
    AtFirst(s, k, '}', w);
    AtConcat(s, i + 1, b, ['}'] + w);
    AtFirst(s, i, '{', b + (['}'] + w));
  }

  lemma BracesEnd(s: string, i: nat, inner: Text, k: nat, depth: nat, start: nat, closed: bool, rest: Text)
    requires depth > 0 && i < |s| && s[i] == '{' && k == i + 1 + |Show(inner)|
    requires WellFormed(inner, false) && At(s, i + 1, Show(inner) + ['}'])
    requires Ends(s, k + 1, depth, start, closed, rest)
    ensures Ends(s, i, depth, start, closed, Braces(inner, rest))
  {
    var v, w := Show(inner), Tail(closed, rest);
    EntryStands(s, i, v, k, w);
    TextSkipped(s, i + 1, inner, depth + 1, start, k);
    BracesSkipped(s, i, k, depth, start);
    Ending(['{'], v, ['}'], Show(rest));
  }

  lemma PlainEnds(s: string, i: nat, depth: nat, start: nat, closed: bool, rest: Text)
    requires depth > 0 && i < |s| && !Quote(s[i]) && s[i] != '{' && s[i] != '}' && !CommentAt(s, i)
    requires Ends(s, i + 1, depth, start, closed, rest)
    ensures Ends(s, i, depth, start, closed, Plain(s[i], rest))
  {
    if closed {
      AtConcat(s, i + 1, Show(rest), ['}']);
      PlainFits(s, i, rest, false);
      AtConcat(s, i, [s[i]] + Show(rest), ['}']);
    }
  }

  /** From inside an entry: either its braces are balanced up to a closing one, or nothing more is found. */
  lemma {:induction false} EntryEnds(s: string, i: nat, depth: nat, start: nat) returns (closed: bool, t: Text)
    requires depth > 0
    ensures Ends(s, i, depth, start, closed, t)
    decreases |s| - i
  {
    closed, t := false, Nil;
    var rest := Nil;
    if i >= |s| {
    } else if Quote(s[i]) {
      var ends, parts := StringEnds(s, i + 1, s[i], depth, start);
      if ends {
        var n := i + 2 + |ShowParts(parts)|;
        closed, rest := EntryEnds(s, n, depth, start);
        QuotedEnds(s, i, parts, n, depth, start, closed, rest);
        t := Quoted(s[i], parts, rest);
      }
    } else if CommentAt(s, i) {
      var j := Find(s, '\n', i);
      if j >= 0 {
        closed, rest := EntryEnds(s, j + 1, depth, start);
        var note := CommentEnds(s, i, j, depth, start, closed, rest);
        t := Comment(note, rest);
      }
    } else if s[i] == '{' {
      var ends, inner := EntryEnds(s, i + 1, depth + 1, start);
      if ends {
        var k := i + 1 + |Show(inner)|;
        closed, rest := EntryEnds(s, k + 1, depth, start);
        BracesEnd(s, i, inner, k, depth, start, closed, rest);
        t := Braces(inner, rest);
      }
    } else if s[i] == '}' {
      closed := true;
      AtOne(s, i, '}');
      assert Show(Nil) + ['}'] == ['}'];
    } else {
      closed, rest := EntryEnds(s, i + 1, depth, start);
      PlainEnds(s, i, depth, start, closed, rest);
      t := Plain(s[i], rest);
    }
  }

  lemma Ending(a: string, b: string, c: string, d: string)
    ensures a + (b + (c + d)) + ['}'] == a + (b + (c + (d + ['}'])))
  {
  }

  /** The entries of the grammar at position i, bodies found. */
  ghost predicate Read(s: string, i: nat, es: Entries) {
    EntriesOk(es) && (es.Entry? ==> At(s, i, ShowEntries(es))) && From(s, i) == Bodies(es)
  }

  lemma QuotedBefore(s: string, i: nat, parts: seq<Part>, n: nat, es: Entries) returns (r: Entries)
    requires i < |s| && Quote(s[i]) && At(s, i + 1, ShowParts(parts) + [s[i]]) && n == i + 2 + |ShowParts(parts)|
    requires forall p | p in parts :: PartOk(p, s[i])
    requires Read(s, n, es)
    ensures Read(s, i, r)
  {
    var v := ShowParts(parts);
    var w := if es.Entry? then ShowEntries(es) else "";
    r := if es.Entry? then es.(gap := Quoted(s[i], parts, es.gap)) else es;
    AtConcat(s, i + 1, v, [s[i]]);
    QuotedAt(s, i, s[i], parts, w, n);
    QuotedSkipped(s, i, s[i], parts, w, n, 0, 0);
    if es.Entry? {
      Before([s[i]], v, [s[i]], Show(es.gap), ['{'] + (Show(es.body) + (['}'] + ShowEntries(es.rest))));
    }
  }

  lemma Before(a: string, b: string, c: string, d: string, e: string)
    ensures a + (b + (c + d)) + e == a + (b + (c + (d + e)))
  {
  }

  lemma CommentBefore(s: string, i: nat, j: nat, es: Entries) returns (r: Entries)
    requires CommentAt(s, i) && Find(s, '\n', i) == j && Read(s, j + 1, es)
    ensures Read(s, i, r)
  {
    var w := if es.Entry? then ShowEntries(es) else "";
    var note := NoteAt(s, i, j, w);
    NoteSkipped(s, i, note, w, j + 1, 0, 0);
    r := if es.Entry? then es.(gap := Comment(note, es.gap)) else es;
    if es.Entry? {
      Before(['/', '/'], note, ['\n'], Show(es.gap), ['{'] + (Show(es.body) + (['}'] + ShowEntries(es.rest))));
    }
  }

  lemma PlainBefore(s: string, i: nat, es: Entries) returns (r: Entries)
    requires i < |s| && !Quote(s[i]) && s[i] != '{' && s[i] != '}' && s[i] != ']' && !CommentAt(s, i)
    requires Read(s, i + 1, es)
    ensures Read(s, i, r)
  {
    r := es;
    if es.Entry? {
      var w := ['{'] + (Show(es.body) + (['}'] + ShowEntries(es.rest)));
      AtConcat(s, i + 1, Show(es.gap), w);
      PlainFits(s, i, es.gap, true);
      AtConcat(s, i, [s[i]] + Show(es.gap), w);
      r := es.(gap := Plain(s[i], es.gap));
    }
  }

  lemma NoGap(t: Text, es: Entries)
    ensures ShowEntries(Entry(Nil, t, es)) == ['{'] + (Show(t) + (['}'] + ShowEntries(es)))
    ensures Bodies(Entry(Nil, t, es)) == [Show(t)] + Bodies(es)
  {
    assert "" + (['{'] + (Show(t) + (['}'] + ShowEntries(es)))) == ['{'] + (Show(t) + (['}'] + ShowEntries(es)));
  }

  lemma EntryBefore(s: string, i: nat, t: Text, k: nat, es: Entries)
    requires i < |s| && s[i] == '{' && k == i + 1 + |Show(t)|
    requires WellFormed(t, false) && At(s, i + 1, Show(t) + ['}']) && Read(s, k + 1, es)
    ensures Read(s, i, Entry(Nil, t, es))
  {
    EntryStands(s, i, Show(t), k, ShowEntries(es));
    NoGap(t, es);
    BodyFound(s, i, t, k);
  }

  /** Nothing else is found: on any input, what the scan finds from a position between entries are the bodies
      of entries of the grammar that stand there, one after the other. */
  lemma {:induction false} ScannerSound(s: string, i: nat) returns (es: Entries)
    ensures Read(s, i, es)
    decreases |s| - i
  {
    es := Done;
    if i >= |s| {
    } else if Quote(s[i]) {
      var ends, parts := StringEnds(s, i + 1, s[i], 0, 0);
      if ends {
        var n := i + 2 + |ShowParts(parts)|;
        es := ScannerSound(s, n);
        es := QuotedBefore(s, i, parts, n, es);
      }
    } else if CommentAt(s, i) {
      var j := Find(s, '\n', i);
      if j >= 0 {
        es := ScannerSound(s, j + 1);
        es := CommentBefore(s, i, j, es);
      }
    } else if s[i] == '{' {
      var ends, t := EntryEnds(s, i + 1, 1, i + 1);
      if ends {
        var k := i + 1 + |Show(t)|;
        es := ScannerSound(s, k + 1);
        EntryBefore(s, i, t, k, es);
        es := Entry(Nil, t, es);
      }
    } else if s[i] != '}' && s[i] != ']' {
      es := ScannerSound(s, i + 1);
      es := PlainBefore(s, i, es);
    }
  }

  /** The scanner finds exactly the bodies of the longest list of entries at the start of its input: those of
      some list that stands there, and first those of every list that stands there. */
  lemma ScannerExact(s: string) returns (es: Entries)
    ensures EntriesOk(es) && At(s, 0, ShowEntries(es)) && Objects(s) == Bodies(es)
    ensures forall fs | EntriesOk(fs) && At(s, 0, ShowEntries(fs)) :: Bodies(fs) <= Objects(s)
    ensures Apart(s, 1, Scan(s, Cursor(0, 0, 0, None)))
  {
    es := ScannerSound(s, 0);
    assert Objects(s) == From(s, 0);
    AtNothing(s, 0);
    ScanApart(s, Cursor(0, 0, 0, None), 1);
    forall fs | EntriesOk(fs) && At(s, 0, ShowEntries(fs))
      ensures Bodies(fs) <= Objects(s)
    {
      EntriesFound(s, 0, fs, |ShowEntries(fs)|);
    }
  }

  // ---------- single entries, character by character ----------

  function Ones(w: string): seq<Part> {
    if w == "" then [] else [One(w[0])] + Ones(w[1..])
  }

  function Plainly(w: string): Text {
    if w == "" then Nil else Plain(w[0], Plainly(w[1..]))
  }

  lemma {:induction false} OnesShown(w: string, q: char)
    requires q !in w && '\\' !in w
    ensures ShowParts(Ones(w)) == w && forall p | p in Ones(w) :: PartOk(p, q)
  {
    if w != "" {
      OnesShown(w[1..], q);
      assert Ones(w)[1..] == Ones(w[1..]);
      assert w == [w[0]] + w[1..];
    }
  }

  /** A list of one entry. */
  lemma OneEntry(body: Text, w: string, after: string)
    requires WellFormed(body, false) && Show(body) == w
    ensures Objects(['{'] + w + ['}', ']'] + after) == [w]
  {
    var es := Entry(Nil, body, Done);
    assert Bodies(Done) == [] && Bodies(es) == [w] + Bodies(Done);
    assert ShowEntries(Done) == "" && ShowEntries(es) == "" + (['{'] + (w + (['}'] + "")));
    ScannerRecovers(es, Nil, after);
    assert ShowEntries(es) + (Show(Nil) + ([']'] + after)) == ['{'] + w + ['}', ']'] + after;
  }

  lemma OneQuoted(q: char, parts: seq<Part>, w: string, after: string)
    requires q in {'"', '\''} && ShowParts(parts) == w && forall p | p in parts :: PartOk(p, q)
    ensures Objects(['{', q] + w + [q, '}', ']'] + after) == [[q] + w + [q]]
  {
    var body := Quoted(q, parts, Nil);
    assert Show(Nil) == "" && Show(body) == [q] + (w + ([q] + ""));
    assert [q] + (w + ([q] + "")) == [q] + w + [q];
    OneEntry(body, [q] + w + [q], after);
    assert ['{'] + ([q] + w + [q]) + ['}', ']'] + after == ['{', q] + w + [q, '}', ']'] + after;
  }

  /** Between quotes of either kind nothing counts until the same quote comes again. */
  lemma QuotesHide(q: char, w: string, after: string)
    requires q in {'"', '\''} && q !in w && '\\' !in w
    ensures Objects(['{', q] + w + [q, '}', ']'] + after) == [[q] + w + [q]]
  {
    OnesShown(w, q);
    OneQuoted(q, Ones(w), w, after);
  }

  /** A backslash takes the character after it out of account, the quote included. */
  lemma BackslashHides(q: char, c: char, w: string, after: string, shown: string)
    requires q in {'"', '\''} && q !in w && '\\' !in w && shown == ['\\', c] + w
    ensures Objects(['{', q] + shown + [q, '}', ']'] + after) == [[q] + shown + [q]]
  {
    OnesShown(w, q);
    var parts := [Escaped(c)] + Ones(w);
    assert parts[1..] == Ones(w);
    OneQuoted(q, parts, shown, after);
  }

  /** After two slashes nothing counts to the end of the line. */
  lemma SlashesHide(w: string, after: string)
    requires '\n' !in w
    ensures Objects("{//" + w + "\n}]" + after) == ["//" + w + "\n"]
  {
    var body := Comment(w, Nil);
    assert Show(Nil) == "" && Show(body) == ['/', '/'] + (w + (['\n'] + ""));
    assert ['/', '/'] + (w + (['\n'] + "")) == "//" + w + "\n";
    OneEntry(body, "//" + w + "\n", after);
    assert ['{'] + ("//" + w + "\n") + ['}', ']'] + after == "{//" + w + "\n}]" + after;
  }

  lemma {:induction false} PlainlyShown(w: string)
    requires forall c | c in w :: c !in {'"', '\'', '{', '}', '/'}
    ensures Show(Plainly(w)) == w && WellFormed(Plainly(w), false)
  {
    if w != "" {
      assert forall c | c in w[1..] :: c in w;
      PlainlyShown(w[1..]);
      assert w[0] in w && w == [w[0]] + w[1..];
    }
  }

  /** Everything else is passed over, brackets inside an entry too; and braces inside one nest. */
  lemma OthersPass(v: string, w: string, after: string)
    requires forall c | c in v + w :: c !in {'"', '\'', '{', '}', '/'}
    ensures Objects(['{'] + v + ['}', ']'] + after) == [v]
    ensures Objects(['{', '{'] + v + ['}'] + w + ['}', ']'] + after) == [['{'] + v + ['}'] + w]
  {
    assert forall c | c in v :: c in v + w;
    assert forall c | c in w :: c in v + w;
    PlainlyShown(v);
    PlainlyShown(w);
    OneEntry(Plainly(v), v, after);
    var body := Braces(Plainly(v), Plainly(w));
    assert Show(body) == ['{'] + (v + (['}'] + w));
    assert ['{'] + (v + (['}'] + w)) == ['{'] + v + ['}'] + w;
    assert WellFormed(body, false);
    OneEntry(body, ['{'] + v + ['}'] + w, after);
    assert ['{'] + (['{'] + v + ['}'] + w) + ['}', ']'] + after == ['{', '{'] + v + ['}'] + w + ['}', ']'] + after;
  }
}
