/** The text of the chat's log: its lines, and the page's reading of them, which undo each other. */
module ChatLog {
  import opened Decimal
  import opened Options
  import opened Sequences

  // ---------- strings ----------

  /** Bytes of a character of the basic multilingual plane in UTF-8. */
  function Width(c: char): nat {
    if c < 128 as char then 1 else if c < 2048 as char then 2 else 3
  }

  function Utf8Len(s: string): (n: nat)
    ensures n >= |s|
  {
    if s == "" then 0 else Utf8Len(s[..|s| - 1]) + Width(s[|s| - 1])
  }

  /** Byte length and length agree exactly on ASCII text. */
  lemma {:induction false} Utf8LenAscii(s: string)
    ensures Utf8Len(s) == |s| <==> Ascii(s)
  {
    if s != "" {
      var init := s[..|s| - 1];
      Utf8LenAscii(init);
      assert Ascii(s) <==> Ascii(init) && s[|s| - 1] < 128 as char;
    }
  }

  function ReplaceAll(s: string, a: char, b: char): (r: string)
    ensures |r| == |s| && forall i | 0 <= i < |s| :: r[i] == if s[i] == a then b else s[i]
  {
    seq(|s|, i requires 0 <= i < |s| => if s[i] == a then b else s[i])
  }

  /** First position of c, or -1. */
  function IndexOf(s: string, c: char): (i: int)
    ensures -1 <= i < |s|
    ensures i >= 0 ==> s[i] == c
    ensures forall k | 0 <= k < |s| && (k < i || i < 0) :: s[k] != c
  {
    if s == "" then -1
    else if s[0] == c then 0
    else
      var i := IndexOf(s[1..], c);
      assert forall k | 0 < k < |s| :: s[k] == s[1..][k - 1];
      if i < 0 then -1 else i + 1
  }

  /** The pieces between separators; always at least one. */
  function Split(s: string, c: char): (parts: seq<string>)
    ensures |parts| > 0
    decreases |s|
  {
    var i := IndexOf(s, c);
    if i < 0 then [s] else [s[..i]] + Split(s[i + 1..], c)
  }

  function Join(parts: seq<string>, c: char): string {
    if parts == [] then "" else if |parts| == 1 then parts[0] else parts[0] + [c] + Join(parts[1..], c)
  }

  /** Splitting at the first separator. */
  lemma SplitFirst(a: string, c: char, b: string)
    requires c !in a
    ensures Split(a + [c] + b, c) == [a] + Split(b, c)
  {
    var s := a + [c] + b;
    assert s[|a|] == c;
    assert forall k | 0 <= k < |a| :: s[k] == a[k];
    assert IndexOf(s, c) == |a|;
    assert s[..|a|] == a && s[|a| + 1..] == b;
  }

  lemma {:induction false} SplitConcat(a: string, c: char, b: string)
    ensures Split(a + [c] + b, c) == Split(a, c) + Split(b, c)
    decreases |a|
  {
    var i := IndexOf(a, c);
    if i < 0 {
      SplitFirst(a, c, b);
    } else {
      var x, y := a[..i], a[i + 1..];
      assert a == x + [c] + y;
      Regroup(x + [c], y, [c] + b);
      Regroup(x + [c] + y, [c], b);
      Regroup(y, [c], b);
      SplitFirst(x, c, y + [c] + b);
      SplitFirst(x, c, y);
      SplitConcat(y, c, b);
      Regroup([x], Split(y, c), Split(b, c));
    }
  }

  lemma SplitNone(s: string, c: char)
    requires c !in s
    ensures Split(s, c) == [s]
  {
  }

  // ---------- messages ----------

  datatype Msg = Msg(id: nat, user: string, text: string)

  /** Tabs and line ends are the delimiters of the log; both become spaces. */
  function Sanitize(s: string): (r: string)
    ensures '\t' !in r && '\n' !in r && |r| == |s|
    ensures forall i | 0 <= i < |s| :: r[i] == if s[i] == '\t' || s[i] == '\n' then ' ' else s[i]
  {
    ReplaceAll(ReplaceAll(s, '\t', ' '), '\n', ' ')
  }

  /** The message that a posted body makes as number id. */
  function MessageOf(id: nat, body: string): Msg {
    var sep := IndexOf(body, '|');
    if sep > 0 then Msg(id, Sanitize(body[..sep]), Sanitize(body[sep + 1..])) else Msg(id, Sanitize("anon"), Sanitize(body))
  }

  /** The same text, but for the tabs and line ends, which have become blanks. */
  predicate Blanked(was: string, now: string) {
    |now| == |was| && forall i | 0 <= i < |was| :: now[i] == if was[i] == '\t' || was[i] == '\n' then ' ' else was[i]
  }

  /** The message has this number, user and text. */
  predicate Says(m: Msg, id: nat, user: string, text: string) {
    m.id == id && Blanked(user, m.user) && Blanked(text, m.text)
  }

  lemma FirstAt(s: string, c: char, i: nat)
    requires i < |s| && s[i] == c && c !in s[..i]
    ensures IndexOf(s, c) == i
  {
    assert forall k | 0 <= k < i :: s[k] == s[..i][k];
  }

  /** What stands before the first bar is the user, and what stands after it the text. */
  lemma PostedByUser(id: nat, user: string, text: string)
    requires user != "" && '|' !in user
    ensures Says(MessageOf(id, user + "|" + text), id, user, text)
  {
    var body := user + "|" + text;
    assert body[..|user|] == user && body[|user| + 1..] == text;
    FirstAt(body, '|', |user|);
  }

  /** A body with no bar, or with nothing before it, is all text. */
  lemma PostedByNobody(id: nat, body: string)
    requires '|' !in body || body[0] == '|'
    ensures Says(MessageOf(id, body), id, "anon", body)
  {
    assert Sanitize("anon") == "anon";
    if '|' in body {
      FirstAt(body, '|', 0);
    }
  }

  function Fields(m: Msg): string {
    Digits(m.id) + ['\t'] + (m.user + ['\t'] + m.text)
  }

  /** One line of the log. */
  function Line(m: Msg): string {
    Fields(m) + ['\n']
  }

  function Lines(ms: seq<Msg>): string {
    if ms == [] then "" else Lines(ms[..|ms| - 1]) + Line(ms[|ms| - 1])
  }

  lemma LinesSnoc(ms: seq<Msg>, m: Msg)
    ensures Lines(ms + [m]) == Lines(ms) + Line(m)
  {
    assert (ms + [m])[..|ms|] == ms;
  }

  lemma {:induction false} LinesConcat(a: seq<Msg>, b: seq<Msg>)
    ensures Lines(a + b) == Lines(a) + Lines(b)
  {
    if b == [] {
      assert a + b == a;
    } else {
      var init, m := b[..|b| - 1], b[|b| - 1];
      assert b == init + [m];
      LinesConcat(a, init);
      LinesSnoc(a + init, m);
      LinesSnoc(init, m);
      Regroup(a, init, [m]);
      Regroup(Lines(a), Lines(init), Line(m));
    }
  }

  // ---------- the page's reading of the log ----------

  /** One line of the log: dropped with fewer than three fields; a text may hold further tabs. The unary
      plus of the page reads a digit string as its number; other ids are not produced by the server. */
  function ParseLine(line: string): Option<Msg> {
    var parts := Split(line, '\t');
    if |parts| < 3 then None
    else Some(Msg(if AllDigits(parts[0]) then Value(parts[0]) else 0, parts[1], Join(parts[2..], '\t')))
  }

  function ParseAll(lines: seq<string>): seq<Msg> {
    if lines == [] then []
    else
      var rest := ParseAll(lines[1..]);
      if lines[0] == "" then rest
      else match ParseLine(lines[0]) case None => rest case Some(m) => [m] + rest
  }

  /** Joining undoes splitting. */
  lemma {:induction false} JoinSplit(s: string, c: char)
    ensures Join(Split(s, c), c) == s
    decreases |s|
  {
    var i := IndexOf(s, c);
    if i >= 0 {
      var rest := Split(s[i + 1..], c);
      JoinSplit(s[i + 1..], c);
      assert ([s[..i]] + rest)[1..] == rest;
      assert s == s[..i] + [c] + s[i + 1..];
    }
  }

  /** A line is dropped with fewer than two tabs. */
  lemma FewFields(a: string, b: string)
    requires '\t' !in a && '\t' !in b
    ensures ParseLine(a) == None && ParseLine(a + ['\t'] + b) == None
  {
    SplitNone(a, '\t');
    SplitNone(b, '\t');
    SplitFirst(a, '\t', b);
  }

  /** With more, what stands before the first is the number, what stands between the first two the user, and all the
      rest the text. */
  lemma LineFields(a: string, b: string, c: string, line: string)
    requires '\t' !in a && '\t' !in b && AllDigits(a) && line == a + ['\t'] + (b + ['\t'] + c)
    ensures ParseLine(line) == Some(Msg(Value(a), b, c))
  {
    SplitFirst(a, '\t', b + ['\t'] + c);
    SplitFirst(b, '\t', c);
    JoinSplit(c, '\t');
    FieldsAre(line, a, b, Split(c, '\t'));
  }

  lemma FieldsAre(line: string, a: string, b: string, rest: seq<string>)
    requires rest != [] && AllDigits(a) && Split(line, '\t') == [a] + ([b] + rest)
    ensures ParseLine(line) == Some(Msg(Value(a), b, Join(rest, '\t')))
  {
    var parts := Split(line, '\t');
    assert parts[0] == a && parts[1] == b && parts[2..] == rest;
  }

  function ParseLines(text: string): seq<Msg> {
    ParseAll(Split(text, '\n'))
  }

  lemma {:induction false} ParseAllConcat(a: seq<string>, b: seq<string>)
    ensures ParseAll(a + b) == ParseAll(a) + ParseAll(b)
  {
    if a == [] {
      assert a + b == b;
    } else {
      assert (a + b)[1..] == a[1..] + b;
      ParseAllConcat(a[1..], b);
    }
  }

  lemma ParseJoin(x: string, b: string)
    ensures ParseLines(x + ['\n'] + b) == ParseLines(x) + ParseLines(b)
  {
    SplitConcat(x, '\n', b);
    ParseAllConcat(Split(x, '\n'), Split(b, '\n'));
  }

  lemma ParseNothing()
    ensures ParseLines("") == []
  {
    SplitNone("", '\n');
    assert [""][1..] == [];
  }

  /** Reading two stretches of the log that meet at a line end is reading them one after the other. */
  lemma ParseConcat(a: string, b: string)
    requires a == "" || a[|a| - 1] == '\n'
    ensures ParseLines(a + b) == ParseLines(a) + ParseLines(b)
  {
    ParseNothing();
    if a == "" {
      assert a + b == b;
    } else {
      var x := a[..|a| - 1];
      assert a == x + ['\n'] && a == x + ['\n'] + "";
      ParseJoin(x, b);
      ParseJoin(x, "");
      assert ParseLines(x) + [] == ParseLines(x);
    }
  }

  /** A message whose fields hold no delimiter. */
  predicate Tidy(m: Msg) {
    '\t' !in m.user && '\n' !in m.user && '\t' !in m.text && '\n' !in m.text
  }

  lemma DigitsPlain(n: nat)
    ensures '\t' !in Digits(n) && '\n' !in Digits(n)
  {
    assert forall c | c in Digits(n) :: IsDigit(c);
  }

  lemma FieldsReadBack(m: Msg)
    requires Tidy(m)
    ensures ParseLine(Fields(m)) == Some(m) && '\n' !in Fields(m)
  {
    var d := Digits(m.id);
    DigitsPlain(m.id);
    ValueDigits(m.id);
    SplitFirst(d, '\t', m.user + ['\t'] + m.text);
    SplitFirst(m.user, '\t', m.text);
    SplitNone(m.text, '\t');
    assert [d] + ([m.user] + [m.text]) == [d, m.user, m.text];
    assert [d, m.user, m.text][2..] == [m.text];
  }

  /** A line of the log reads back as the message it was written for. */
  lemma LineReadsBack(m: Msg)
    requires Tidy(m)
    ensures ParseLines(Line(m)) == [m]
  {
    var f := Fields(m);
    FieldsReadBack(m);
    ParseNothing();
    assert Line(m) == f + ['\n'] + "";
    ParseJoin(f, "");
    SplitNone(f, '\n');
    assert [f][1..] == [];
    assert ParseLines(f) == [m] + [];
  }

  lemma {:induction false} LinesReadBack(ms: seq<Msg>)
    requires forall m | m in ms :: Tidy(m)
    ensures ParseLines(Lines(ms)) == ms
    ensures ms != [] ==> Lines(ms) != "" && Lines(ms)[|Lines(ms)| - 1] == '\n'
  {
    if ms == [] {
      SplitNone("", '\n');
    } else {
      var init, m := ms[..|ms| - 1], ms[|ms| - 1];
      LinesReadBack(init);
      ParseConcat(Lines(init), Line(m));
      LineReadsBack(m);
      assert ms == init + [m];
    }
  }
}
