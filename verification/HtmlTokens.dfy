/** The tokenizer in front of the page: which tags a text holds, and which names such tags can have. Text,
    comments and attributes are read over, since only elements matter here. */
module HtmlTokens {
  import opened Options

  datatype Token = Open(name: string) | Close(name: string) | RawElement(name: string)

  // ---------- characters ----------

  predicate AsciiSpace(c: char) {
    c in {' ', '\t', '\n', '\r', 12 as char}
  }

  /** White space as trimming and splitting see it. */
  predicate Space(c: char) {
    var n := c as int;
    9 <= n <= 13 || n in {32, 0x85, 0xA0, 0x1680, 0x2028, 0x2029, 0x202F, 0x205F, 0x3000} || 0x2000 <= n <= 0x200A
  }

  function Lower(c: char): char {
    if 'A' <= c <= 'Z' then (c as int + 32) as char else c
  }

  function LowerAll(s: string): (r: string)
    ensures |r| == |s| && forall i | 0 <= i < |s| :: r[i] == Lower(s[i])
  {
    seq(|s|, i requires 0 <= i < |s| => Lower(s[i]))
  }

  predicate StartsWith(s: string, w: string) {
    |w| <= |s| && s[..|w|] == w
  }

  /** Where w first stands in s, if it does. */
  function Find(s: string, w: string): (i: Option<nat>)
    ensures i.Some? ==> i.value + |w| <= |s|
  {
    if StartsWith(s, w) then Some(0)
    else if s == "" then None
    else match Find(s[1..], w) case None => None case Some(i) => Some(i + 1)
  }

  function TrimStart(s: string, p: char -> bool): string {
    if s != "" && p(s[0]) then TrimStart(s[1..], p) else s
  }

  function TrimEnd(s: string, p: char -> bool): string {
    if s != "" && p(s[|s| - 1]) then TrimEnd(s[..|s| - 1], p) else s
  }

  function FirstWord(s: string): string {
    if s == "" || Space(s[0]) then "" else [s[0]] + FirstWord(s[1..])
  }

  function Slash(): char -> bool {
    (c: char) => c == '/'
  }

  function Blank(): char -> bool {
    (c: char) => Space(c)
  }

  // ---------- the end of a tag ----------

  /** Inside a tag: the quote that is open, if any, and whether an equals sign came last. */
  datatype Scan = Scan(quote: Option<char>, afterEq: bool)

  const START := Scan(None, false)

  function Next(st: Scan, c: char): Scan {
    if st.quote.Some? then if c == st.quote.value then Scan(None, st.afterEq) else st
    else if c == '=' then Scan(None, true)
    else if c == '"' || c == '\'' then if st.afterEq then Scan(Some(c), false) else st
    else if AsciiSpace(c) then st
    else Scan(None, false)
  }

  /** The place of the bracket that closes the tag, or the end of the text: a bracket between quotes does not. */
  function TagEnd(s: string, st: Scan): (j: nat)
    ensures j <= |s|
  {
    if s == "" || (st.quote.None? && s[0] == '>') then 0 else 1 + TagEnd(s[1..], Next(st, s[0]))
  }

  function After(s: string, st: Scan): Scan {
    if s == "" then st else After(s[1..], Next(st, s[0]))
  }

  // ---------- the tokens ----------

  /** The inside of a tag without slashes and blanks around it. */
  function Inner(raw: string): string {
    TrimEnd(TrimStart(TrimEnd(TrimStart(raw, Slash()), Slash()), Blank()), Blank())
  }

  function NameOf(raw: string): string {
    LowerAll(FirstWord(Inner(raw)))
  }

  predicate Raw(raw: string) {
    NameOf(raw) in {"style", "script"} && !(Inner(raw) != "" && Inner(raw)[|Inner(raw)| - 1] == '/')
  }

  function Drop(s: string, n: nat): string {
    if n <= |s| then s[n..] else ""
  }

  /** What is left after the comment at the beginning of s. */
  function AfterComment(s: string): (r: string)
    requires StartsWith(s, "<!--")
    ensures |r| < |s|
  {
    match Find(s[4..], "-->") case None => "" case Some(i) => s[i + 7..]
  }

  /** What is left after the raw text of an element and the tag that closes it. */
  function AfterRaw(s: string, name: string): (r: string)
    ensures |r| <= |s|
  {
    var close := "</" + name + ">";
    match Find(LowerAll(s), close) case None => "" case Some(i) => s[i + |close|..]
  }

  /** What one tag gives: nothing for declarations and tags without a name. */
  function TokenOf(raw: string): Option<Token> {
    if StartsWith(raw, "!") || NameOf(raw) == "" then None
    else if StartsWith(raw, "/") then Some(Close(NameOf(raw)))
    else if Raw(raw) then Some(RawElement(NameOf(raw)))
    else Some(Open(NameOf(raw)))
  }

  function Tokens(s: string): seq<Token>
    decreases |s|, 0
  {
    if s == "" then []
    else if s[0] != '<' then Tokens(s[1..])
    else if StartsWith(s, "<!--") then Tokens(AfterComment(s))
    else
      var j := TagEnd(s[1..], START);
      From(TokenOf(s[1..j + 1]), Drop(s, j + 2))
  }

  /** A token, if there is one, and those of the text after it. */
  function From(t: Option<Token>, rest: string): seq<Token>
    decreases |rest|, 1
  {
    match t
    case None => Tokens(rest)
    case Some(t) => [t] + Tokens(if t.RawElement? then AfterRaw(rest, t.name) else rest)
  }

  // ---------- the names of tags ----------

  /** What the tokenizer can make a name of: no white space, no capitals, and no bracket that would close the tag. */
  predicate Name(x: string) {
    x != "" && (forall c | c in x :: !Space(c) && Lower(c) == c) && TagEnd(x, START) == |x|
  }

  lemma {:induction false} ScanConcat(a: string, b: string, st: Scan)
    requires TagEnd(a, st) == |a|
    ensures TagEnd(a + b, st) == |a| + TagEnd(b, After(a, st))
    ensures After(a + b, st) == After(b, After(a, st))
  {
    if a == "" {
      assert a + b == b;
    } else {
      assert (a + b)[1..] == a[1..] + b;
      ScanConcat(a[1..], b, Next(st, a[0]));
    }
  }

  lemma {:induction false} TagEndPrefix(a: string, b: string, st: Scan)
    requires TagEnd(a + b, st) >= |a|
    ensures TagEnd(a, st) == |a|
  {
    if a != "" {
      assert (a + b)[1..] == a[1..] + b;
      TagEndPrefix(a[1..], b, Next(st, a[0]));
    }
  }

  /** The text of a tag with this name: a blank before and after it, and a quote if the name leaves one open. */
  function Ending(x: string): string {
    var st := After(x, START);
    if st.quote.Some? then [st.quote.value] else ""
  }

  function RawOf(x: string, close: bool): string {
    (if close then "/" else " ") + x + " " + Ending(x)
  }

  function Write(x: string, close: bool): string {
    "<" + RawOf(x, close) + ">"
  }

  predicate Quoting(st: Scan) {
    st.quote.Some? ==> st.quote.value in {'"', '\''}
  }

  lemma {:induction false} QuotingKept(x: string, st: Scan)
    requires Quoting(st)
    ensures Quoting(After(x, st))
  {
    if x != "" {
      QuotingKept(x[1..], Next(st, x[0]));
    }
  }

  lemma RawEnds(x: string, close: bool, rest: string)
    requires Name(x)
    ensures TagEnd(RawOf(x, close) + ">" + rest, START) == |RawOf(x, close)|
  {
    var first := if close then "/" else " ";
    var st := After(x, START);
    var tail := " " + Ending(x) + ">" + rest;
    QuotingKept(x, START);
    assert RawOf(x, close) + ">" + rest == first + (x + tail);
    assert TagEnd(first, START) == 1 && After(first, START) == START by {
      assert first[1..] == "";
      assert Next(START, first[0]) == START;
    }
    ScanConcat(first, x + tail, START);
    ScanConcat(x, tail, START);
    assert tail[1..] == Ending(x) + ">" + rest;
    var st' := Next(st, ' ');
    assert TagEnd(tail, st) == 1 + TagEnd(tail[1..], st');
    if st.quote.Some? {
      assert st' == st && tail[1..][0] == st.quote.value && tail[1..][1..] == ">" + rest;
    } else {
      assert tail[1..][0] == '>' && st'.quote.None?;
    }
  }

  lemma {:induction false} FirstWordAll(x: string, tail: string)
    requires forall c | c in x :: !Space(c)
    requires tail == "" || Space(tail[0])
    ensures FirstWord(x + tail) == x
  {
    if x == "" {
      assert x + tail == tail;
    } else {
      assert (x + tail)[1..] == x[1..] + tail;
      assert x[0] in x;
      FirstWordAll(x[1..], tail);
    }
  }

  /** The slashes around the inside of a tag are those in front of a closing tag. */
  lemma SlashesGone(x: string, close: bool, y: string)
    requires Name(x) && (close ==> x[0] != '/') && y == x + " " + Ending(x)
    ensures TrimEnd(TrimStart(RawOf(x, close), Slash()), Slash()) == if close then y else " " + y
  {
    var raw := RawOf(x, close);
    QuotingKept(x, START);
    assert raw[1..] == y && raw[|raw| - 1] == y[|y| - 1];
    assert raw == (if close then "/" else " ") + y;
    assert TrimStart(raw, Slash()) == if close then y else raw;
    assert y[|y| - 1] == if Ending(x) == "" then ' ' else Ending(x)[0];
  }

  lemma BlanksGone(x: string, y: string)
    requires Name(x) && y == x + " " + Ending(x)
    ensures TrimStart(y, Blank()) == TrimStart(" " + y, Blank()) == y
    ensures TrimEnd(y, Blank()) == if Ending(x) == "" then x else y
  {
    QuotingKept(x, START);
    assert x[0] in x && x[|x| - 1] in x && (" " + y)[1..] == y;
    assert TrimStart(y, Blank()) == y;
    if Ending(x) == "" {
      assert y == x + " " && y[..|y| - 1] == x;
      assert TrimEnd(x, Blank()) == x;
    }
  }

  lemma InnerOf(x: string, close: bool)
    requires Name(x) && (close ==> x[0] != '/')
    ensures Inner(RawOf(x, close)) == if Ending(x) == "" then x else x + " " + Ending(x)
  {
    SlashesGone(x, close, x + " " + Ending(x));
    BlanksGone(x, x + " " + Ending(x));
  }

  lemma NameOfWritten(x: string, close: bool)
    requires Name(x) && (close ==> x[0] != '/')
    ensures NameOf(RawOf(x, close)) == x
  {
    InnerOf(x, close);
    if Ending(x) == "" {
      assert x + "" == x;
      FirstWordAll(x, "");
    } else {
      assert x + " " + Ending(x) == x + (" " + Ending(x));
      FirstWordAll(x, " " + Ending(x));
    }
    assert forall i | 0 <= i < |x| :: x[i] in x;
    assert LowerAll(x) == x;
  }

  function Opening(x: string): Token {
    if x in {"style", "script"} then RawElement(x) else Open(x)
  }

  /** What is written is read: the tag by its name. */
  lemma TokenWritten(x: string, close: bool)
    requires Name(x) && (close ==> x[0] != '/')
    ensures TokenOf(RawOf(x, close)) == Some(if close then Close(x) else Opening(x))
  {
    var raw := RawOf(x, close);
    NameOfWritten(x, close);
    assert raw[0] == if close then '/' else ' ';
    if x in {"style", "script"} {
      RawWritten(x, close);
    }
    TokenByName(raw, x, close);
  }

  /** What a tag gives, by its first character and its name. */
  lemma TokenByName(raw: string, x: string, close: bool)
    requires x != "" && NameOf(raw) == x && raw != "" && raw[0] != '!' && (raw[0] == '/') == close
    requires x in {"style", "script"} ==> Inner(raw) == x && x[|x| - 1] != '/'
    ensures TokenOf(raw) == Some(if close then Close(x) else Opening(x))
  {
    assert StartsWith(raw, "/") == close && !StartsWith(raw, "!");
    assert Raw(raw) <==> x in {"style", "script"};
  }

  lemma RawWritten(x: string, close: bool)
    requires Name(x) && x in {"style", "script"}
    ensures Inner(RawOf(x, close)) == x && x[|x| - 1] != '/'
  {
    InnerOf(x, close);
    LettersKeep(x);
  }

  lemma SecondCharacter(s: string, w: string)
    requires StartsWith(s, w) && |w| > 1
    ensures s[1] == w[1]
  {
    assert s[..|w|][1] == w[1];
  }

  lemma TagSplit(raw: string, rest: string)
    requires raw != "" && raw[0] != '!' && TagEnd(raw + ">" + rest, START) == |raw|
    ensures Tokens("<" + raw + ">" + rest) == From(TokenOf(raw), rest)
  {
    var s := "<" + raw + ">" + rest;
    assert s[1..] == raw + ">" + rest;
    assert s[1..|raw| + 1] == raw && Drop(s, |raw| + 2) == rest;
    assert s[1] == raw[0];
    if StartsWith(s, "<!--") {
      SecondCharacter(s, "<!--");
      assert false;
    }
  }

  /** And then whatever follows it. */
  lemma TagWritten(x: string, close: bool, rest: string)
    requires Name(x) && (close ==> x[0] != '/')
    ensures Tokens(Write(x, close) + rest) == From(Some(if close then Close(x) else Opening(x)), rest)
  {
    RawEnds(x, close, rest);
    TokenWritten(x, close);
    TagSplit(RawOf(x, close), rest);
  }

  lemma {:induction false} LettersKeep(x: string)
    requires forall i | 0 <= i < |x| :: 'a' <= x[i] <= 'z'
    ensures After(x, START) == START
  {
    if x != "" {
      LettersKeep(x[1..]);
    }
  }

  /** A name that needs no blanks around it. */
  predicate Simple(x: string) {
    && x != "" && x[0] !in {'/', '!'} && x[|x| - 1] != '/' && x !in {"style", "script"}
    && forall i | 0 <= i < |x| :: !Space(x[i]) && Lower(x[i]) == x[i] && x[i] !in {'=', '"', '\'', '>'}
  }

  lemma {:induction false} SimpleScan(x: string, rest: string)
    requires forall i | 0 <= i < |x| :: x[i] !in {'=', '"', '\'', '>'}
    ensures TagEnd(x + ">" + rest, START) == |x|
  {
    var s := x + ">" + rest;
    if x != "" {
      assert s[1..] == x[1..] + ">" + rest;
      assert Next(START, s[0]) == START;
      SimpleScan(x[1..], rest);
    }
  }

  lemma NothingTrimmed(x: string, p: char -> bool)
    requires x != "" && !p(x[0]) && !p(x[|x| - 1])
    ensures TrimStart(x, p) == x && TrimEnd(x, p) == x
  {
  }

  lemma SimpleInner(x: string, close: bool, raw: string)
    requires Simple(x) && raw == (if close then "/" else "") + x
    ensures Inner(raw) == x
  {
    NothingTrimmed(x, Slash());
    NothingTrimmed(x, Blank());
    if close {
      assert raw[0] == '/' && raw[1..] == x;
      assert TrimStart(raw, Slash()) == TrimStart(x, Slash());
    } else {
      assert raw == x;
    }
  }

  lemma SimpleName(x: string, close: bool, raw: string)
    requires Simple(x) && raw == (if close then "/" else "") + x
    ensures NameOf(raw) == x
  {
    SimpleInner(x, close, raw);
    assert x + "" == x;
    FirstWordAll(x, "");
    assert LowerAll(x) == x;
  }

  lemma SimpleWritten(x: string, close: bool, raw: string, rest: string)
    requires Simple(x) && raw == (if close then "/" else "") + x
    ensures Tokens("<" + raw + ">" + rest) == [if close then Close(x) else Open(x)] + Tokens(rest)
  {
    SimpleName(x, close, raw);
    assert raw[0] == if close then '/' else x[0];
    TokenByName(raw, x, close);
    SimpleScan(raw, rest);
    TagSplit(raw, rest);
  }

  lemma {:induction false} TrimStartScans(s: string, p: char -> bool)
    requires TagEnd(s, START) == |s| && forall c :: p(c) ==> Next(START, c) == START
    ensures TagEnd(TrimStart(s, p), START) == |TrimStart(s, p)|
  {
    if s != "" && p(s[0]) {
      TrimStartScans(s[1..], p);
    }
  }

  lemma {:induction false} TrimEndScans(s: string, p: char -> bool)
    requires TagEnd(s, START) == |s|
    ensures TagEnd(TrimEnd(s, p), START) == |TrimEnd(s, p)|
  {
    if s != "" && p(s[|s| - 1]) {
      assert s == s[..|s| - 1] + [s[|s| - 1]];
      TagEndPrefix(s[..|s| - 1], [s[|s| - 1]], START);
      TrimEndScans(s[..|s| - 1], p);
    }
  }

  lemma {:induction false} FirstWordScans(s: string, st: Scan)
    requires TagEnd(s, st) == |s|
    ensures TagEnd(FirstWord(s), st) == |FirstWord(s)| && forall c | c in FirstWord(s) :: !Space(c)
  {
    if s != "" && !Space(s[0]) {
      FirstWordScans(s[1..], Next(st, s[0]));
      assert FirstWord(s)[1..] == FirstWord(s[1..]);
    }
  }

  lemma {:induction false} LowerScans(s: string, st: Scan)
    requires TagEnd(s, st) == |s| && Quoting(st)
    ensures TagEnd(LowerAll(s), st) == |s|
  {
    if s != "" {
      assert LowerAll(s)[1..] == LowerAll(s[1..]);
      assert Next(st, Lower(s[0])) == Next(st, s[0]);
      LowerScans(s[1..], Next(st, s[0]));
    }
  }

  lemma InnerScans(raw: string)
    requires TagEnd(raw, START) == |raw|
    ensures TagEnd(Inner(raw), START) == |Inner(raw)|
  {
    var a := TrimStart(raw, Slash());
    TrimStartScans(raw, Slash());
    var b := TrimEnd(a, Slash());
    TrimEndScans(a, Slash());
    TrimStartScans(b, Blank());
    TrimEndScans(TrimStart(b, Blank()), Blank());
  }

  lemma WordIsName(word: string)
    requires word != "" && TagEnd(word, START) == |word| && forall c | c in word :: !Space(c)
    ensures Name(LowerAll(word))
  {
    LowerScans(word, START);
    forall c | c in LowerAll(word)
      ensures !Space(c) && Lower(c) == c
    {
      var i :| 0 <= i < |word| && c == LowerAll(word)[i];
      assert word[i] in word;
    }
  }

  lemma NameOfIsName(raw: string)
    requires TagEnd(raw, START) == |raw| && NameOf(raw) != ""
    ensures Name(NameOf(raw))
  {
    InnerScans(raw);
    FirstWordScans(Inner(raw), START);
    WordIsName(FirstWord(Inner(raw)));
  }

  lemma {:induction false} TagEndScans(s: string, st: Scan)
    ensures TagEnd(s[..TagEnd(s, st)], st) == TagEnd(s, st)
  {
    if s != "" && !(st.quote.None? && s[0] == '>') {
      var j := TagEnd(s[1..], Next(st, s[0]));
      assert s[..j + 1][1..] == s[1..][..j];
      TagEndScans(s[1..], Next(st, s[0]));
    }
  }

  lemma TokenIsNamed(s: string, raw: string)
    requires raw == s[..TagEnd(s, START)]
    ensures TokenOf(raw).Some? ==> Name(TokenOf(raw).value.name)
  {
    TagEndScans(s, START);
    if NameOf(raw) != "" {
      NameOfIsName(raw);
    }
  }

  /** Whatever the text, every tag has a name of this kind. */
  lemma {:induction false} TokensAreNamed(s: string)
    ensures forall t | t in Tokens(s) :: Name(t.name)
    decreases |s|
  {
    if s == "" {
    } else if s[0] != '<' {
      TokensAreNamed(s[1..]);
    } else if StartsWith(s, "<!--") {
      TokensAreNamed(AfterComment(s));
    } else {
      var j := TagEnd(s[1..], START);
      var raw, rest := s[1..j + 1], Drop(s, j + 2);
      TokenIsNamed(s[1..], raw);
      var t := TokenOf(raw);
      if t.Some? && t.value.RawElement? {
        TokensAreNamed(AfterRaw(rest, t.value.name));
      } else {
        TokensAreNamed(rest);
      }
    }
  }

  /** And exactly these are names: of each there is an opening tag in some text. */
  lemma NameExact(x: string)
    ensures Name(x) <==> exists s :: Opening(x) in Tokens(s)
  {
    if Name(x) {
      TagWritten(x, false, "");
      assert Write(x, false) + "" == Write(x, false);
      assert Opening(x) in Tokens(Write(x, false));
    }
    forall s | Opening(x) in Tokens(s)
      ensures Name(x)
    {
      TokensAreNamed(s);
    }
  }

  // ---------- what is read over ----------

  lemma {:induction false} TextSkipped(w: string, rest: string)
    requires '<' !in w
    ensures Tokens(w + rest) == Tokens(rest)
  {
    if w == "" {
      assert w + rest == rest;
    } else {
      assert (w + rest)[1..] == w[1..] + rest;
      assert w[0] in w && forall c | c in w[1..] :: c in w;
      TextSkipped(w[1..], rest);
    }
  }

  lemma {:induction false} FoundAt(s: string, w: string, i: nat)
    requires i <= |s| && StartsWith(s[i..], w) && forall k: nat | k < i :: !StartsWith(s[k..], w)
    ensures Find(s, w) == Some(i)
  {
    assert s[0..] == s;
    if i > 0 {
      assert s[1..][i - 1..] == s[i..];
      forall k: nat | k < i - 1
        ensures !StartsWith(s[1..][k..], w)
      {
        assert s[1..][k..] == s[k + 1..];
      }
      FoundAt(s[1..], w, i - 1);
    }
  }

  ghost predicate Holds(s: string, w: string) {
    exists k: nat :: k <= |s| && StartsWith(s[k..], w)
  }

  /** A word that does not end as it begins is first found where it is written first. */
  lemma FoundFirst(before: string, w: string, rest: string)
    requires w != "" && !Holds(before, w) && forall j: nat | 0 < j < |w| :: !StartsWith(w, w[j..])
    ensures Find(before + w + rest, w) == Some(|before|)
  {
    var s := before + w + rest;
    assert s[|before|..][..|w|] == w;
    forall k: nat | k < |before|
      ensures !StartsWith(s[k..], w)
    {
      Overlap(before, w, rest, k, |before| - k);
    }
    FoundAt(s, w, |before|);
  }

  /** A word that begins inside an earlier text ends there, or begins as it ends. */
  lemma Overlap(before: string, w: string, rest: string, k: nat, j: nat)
    requires k < |before| && j == |before| - k
    ensures StartsWith((before + w + rest)[k..], w) ==>
              if j < |w| then StartsWith(w, w[j..]) else StartsWith(before[k..], w)
  {
    var t := (before + w + rest)[k..];
    assert t == before[k..] + (w + rest);
    if j < |w| {
      assert t[..|w|][j..] == w[..|w| - j];
    } else {
      assert t[..|w|] == before[k..][..|w|];
    }
  }

  /** A comment is read over, whatever tags it holds. */
  lemma CommentSkipped(w: string, rest: string, end: string)
    requires end == "-->" && !Holds(w, end)
    ensures Tokens("<!--" + w + end + rest) == Tokens(rest)
  {
    var s := "<!--" + w + end + rest;
    assert s[..4] == "<!--" && s[4..] == w + end + rest;
    assert end[0] == end[1] == '-' && end[2] == '>' && end[1..] == "->" && end[2..] == ">";
    FoundFirst(w, end, rest);
    assert s[|w| + 7..] == rest;
  }

  lemma ThirdSame(s: string, w: string)
    requires |w| > 2
    ensures StartsWith(s, w) ==> |s| > 2 && s[2] == w[2]
  {
    assert StartsWith(s, w) ==> s[..|w|][2] == w[2];
  }

  /** And so is a declaration. */
  lemma DeclarationSkipped(w: string, rest: string)
    requires w != "" && w[0] != '-' && forall i | 0 <= i < |w| :: w[i] !in {'=', '"', '\'', '>'}
    ensures Tokens("<!" + w + ">" + rest) == Tokens(rest)
  {
    var raw := "!" + w;
    var s := "<!" + w + ">" + rest;
    SimpleScan(raw, rest);
    assert s == "<" + raw + ">" + rest && s[1..] == raw + ">" + rest;
    ThirdSame(s, "<!--");
    assert s[2] == w[0];
    assert s[1..|raw| + 1] == raw && Drop(s, |raw| + 2) == rest;
    assert raw[..1] == "!";
  }

  /** What is between the tags of a script or a style sheet is read over, and makes one element; the closing tag may be
      in capitals. */
  lemma RawRead(x: string, w: string, end: string, rest: string, close: string)
    requires x in {"style", "script"} && close == "</" + x + ">" && LowerAll(end) == close && !Holds(LowerAll(w), close)
    ensures Tokens("<" + x + ">" + (w + end + rest)) == [RawElement(x)] + Tokens(rest)
  {
    var later := w + end + rest;
    RawNamed(x);
    SimpleScan(x, later);
    TagSplit(x, later);
    CloseFound(x, w, end, rest, close);
    assert later[|w| + |close|..] == rest;
  }

  lemma RawLetters(x: string)
    requires x in {"style", "script"}
    ensures x != "" && forall i | 0 <= i < |x| :: 'a' <= x[i] <= 'z'
  {
  }

  lemma LettersInner(x: string)
    requires x != "" && forall i | 0 <= i < |x| :: 'a' <= x[i] <= 'z'
    ensures Inner(x) == x && NameOf(x) == x
  {
    NothingTrimmed(x, Slash());
    NothingTrimmed(x, Blank());
    assert x + "" == x;
    FirstWordAll(x, "");
    assert LowerAll(x) == x;
  }

  lemma RawNamed(x: string)
    requires x in {"style", "script"}
    ensures TokenOf(x) == Some(RawElement(x)) && x[0] != '!' && forall i | 0 <= i < |x| :: x[i] !in {'=', '"', '\'', '>'}
  {
    RawLetters(x);
    LettersInner(x);
    TokenByName(x, x, false);
  }

  lemma FirstSame(s: string, w: string)
    ensures StartsWith(s, w) && w != "" ==> s != "" && s[0] == w[0]
  {
  }

  lemma CloseFound(x: string, w: string, end: string, rest: string, close: string)
    requires x in {"style", "script"} && close == "</" + x + ">" && LowerAll(end) == close && !Holds(LowerAll(w), close)
    ensures Find(LowerAll(w + end + rest), close) == Some(|w|)
  {
    assert LowerAll(w + end + rest) == LowerAll(w) + close + LowerAll(rest);
    RawLetters(x);
    forall j: nat | 0 < j < |close|
      ensures !StartsWith(close, close[j..])
    {
      FirstSame(close, close[j..]);
      assert close[j] != '<' && close[0] == '<';
    }
    FoundFirst(LowerAll(w), close, LowerAll(rest));
  }

  lemma {:induction false} QuotedScan(q: char, w: string, s: string)
    requires q !in w && q in {'"', '\''}
    ensures TagEnd(w + [q] + s, Scan(Some(q), false)) == |w| + 1 + TagEnd(s, START)
  {
    var t := w + [q] + s;
    if w == "" {
      assert t[0] == q && t[1..] == s;
    } else {
      assert t[1..] == w[1..] + [q] + s;
      assert w[0] in w && forall c | c in w[1..] :: c in w;
      QuotedScan(q, w[1..], s);
    }
  }

  /** A bracket in a quoted value does not end the tag: the value is read over. */
  lemma ValueSkipped(q: char, w: string, rest: string)
    requires q in {'"', '\''} && q !in w
    ensures TagEnd(['='] + [q] + (w + [q] + (">" + rest)), START) == |w| + 3
  {
    var tail := w + [q] + (">" + rest);
    var s := ['='] + [q] + tail;
    assert s[1..] == [q] + tail && s[1..][1..] == tail;
    assert Next(START, '=') == Scan(None, true) && Next(Scan(None, true), q) == Scan(Some(q), false);
    QuotedScan(q, w, ">" + rest);
    assert TagEnd(">" + rest, START) == 0;
  }
}
