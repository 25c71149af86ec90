/** The chat's log and its polling protocol. The server appends lines to one buffer; a page remembers how
    many bytes it has had and asks for the rest. Over any interleaving of senders and pages, with answers
    lost or delayed, every page shows exactly the first messages of the log, each once and in order. */
module Chat {
  import opened Decimal
  import opened Sequences
  import opened ChatLog

  // ---------- the server ----------

  datatype Response = Response(status: nat, body: string)

  /** The digits at the start of a string. */
  function DigitPrefix(s: string): (d: string)
    ensures AllDigits(d)
    ensures d <= s && (|d| < |s| ==> !IsDigit(s[|d|]))
  {
    if s != "" && IsDigit(s[0]) then [s[0]] + DigitPrefix(s[1..]) else ""
  }

  /** JavaScript's slice from a position that may lie beyond the end. */
  function SliceFrom(s: string, k: nat): string {
    if k <= |s| then s[k..] else ""
  }

  const POLL := "/api/poll/"

  /** The answer to a poll, given the path asked for. */
  function PollAnswer(buffer: string, path: string): Response {
    var since := if Utf8Len(path) > 10 then Value(DigitPrefix(SliceFrom(path, 10))) else 0;
    var total := Utf8Len(buffer);
    if since > total then Response(205, buffer)
    else if total > since then Response(200, SliceFrom(buffer, since))
    else Response(204, "")
  }

  lemma LineJoins(buffer: string, m: Msg)
    ensures buffer + Digits(m.id) + "\t" + m.user + "\t" + m.text + "\n" == buffer + Line(m)
  {
    var d := Digits(m.id);
    assert buffer + d + "\t" + m.user + "\t" + m.text + "\n" == buffer + (d + ['\t'] + (m.user + ['\t'] + m.text) + ['\n']);
  }

  class Server {
    var buffer: string
    var seqNo: nat

    constructor ()
      ensures buffer == "" && seqNo == 0
    {
      buffer, seqNo := "", 0;
    }

    method AddMessage(body: string)
      modifies this
      ensures seqNo == old(seqNo) + 1
      ensures buffer == old(buffer) + Line(MessageOf(seqNo, body))
    {
      var sep := IndexOf(body, '|');
      var user, text := "anon", body;
      if sep > 0 {
        user := body[..sep];
        text := body[sep + 1..];
      }
      user := ReplaceAll(user, '\t', ' ');
      user := ReplaceAll(user, '\n', ' ');
      text := ReplaceAll(text, '\t', ' ');
      text := ReplaceAll(text, '\n', ' ');
      seqNo := seqNo + 1;
      LineJoins(buffer, Msg(seqNo, user, text));
      buffer := buffer + Digits(seqNo) + "\t" + user + "\t" + text + "\n";
    }

    method HandlePoll(path: string) returns (r: Response)
      ensures r == PollAnswer(buffer, path)
    {
      var since := 0;
      if Utf8Len(path) > 10 {
        since := ParseI64(SliceFrom(path, 10));
      }
      var total := Utf8Len(buffer);
      if since > total {
        return Response(205, buffer);
      }
      if total > since {
        return Response(200, SliceFrom(buffer, since));
      }
      return Response(204, "");
    }

    /** The digits at the start, read as a number; the loop is bounded by the length in bytes. */
    static method ParseI64(s: string) returns (n: nat)
      ensures n == Value(DigitPrefix(s))
    {
      n := 0;
      var i := 0;
      assert s[..0] == "";
      while i < Utf8Len(s)
        invariant 0 <= i <= |s| && AllDigits(s[..i]) && n == Value(s[..i])
        decreases |s| - i
      {
        DigitsEnd(s, i);
        if !IsDigit(s[i]) { break; }
        n := n * 10 + DigitOf(s[i]);
        assert s[..i + 1][..i] == s[..i];
        i := i + 1;
      }
      DigitsEnd(s, i);
      PrefixIs(s, i);
    }
  }

  /** The loop's bound in bytes keeps it inside the string: while only digits have been read, characters are
      left exactly when bytes are. */
  lemma DigitsEnd(s: string, i: nat)
    requires i <= |s| && AllDigits(s[..i])
    ensures i < Utf8Len(s) <==> i < |s|
  {
    if i == |s| {
      assert s[..i] == s;
      Utf8LenAscii(s);
    }
  }

  lemma PrefixIs(s: string, i: nat)
    requires i <= |s| && AllDigits(s[..i])
    requires i == |s| || !IsDigit(s[i])
    ensures DigitPrefix(s) == s[..i]
  {
    var d := DigitPrefix(s);
    assert forall k | 0 <= k < |d| :: s[k] == d[k];
    assert forall k | 0 <= k < i :: s[k] == s[..i][k];
    assert |d| == i;
  }

  // ---------- the page ----------

  /** What a page has to show, and where it stands with the server. */
  datatype Net = Quiet | Asked | Answered(r: Response)

  datatype Page = Page(net: Net, booted: bool, since: nat, msgs: seq<Msg>)

  const NEW_PAGE := Page(Quiet, false, 0, [])

  /** The request a page makes: the whole log first, then what it has not had. */
  function Reply(buffer: string, p: Page): Response {
    if p.booted then PollAnswer(buffer, POLL + Digits(p.since)) else Response(200, buffer)
  }

  /** What a page makes of an answer, given the size of its body and the messages read from it. */
  function Take(p: Page, status: nat, size: nat, read: seq<Msg>): Page {
    if !p.booted then
      if 200 <= status <= 299 then Page(Quiet, true, size, p.msgs + read) else p.(net := Quiet)
    else if status == 204 then p.(net := Quiet)
    else if status == 205 then Page(Quiet, true, size, read)
    else if !(200 <= status <= 299) then p.(net := Quiet)
    else Page(Quiet, true, p.since + size, p.msgs + read)
  }

  function Receive(p: Page, r: Response): Page {
    Take(p, r.status, Utf8Len(r.body), ParseLines(r.body))
  }

  /** The page itself: the messages on the screen, their count, and the position it polls from. */
  class Client {
    var since: nat
    var totalMsgs: nat
    var log: seq<Msg>
    var booted: bool

    ghost predicate Valid()
      reads this
    {
      totalMsgs == |log|
    }

    ghost function View(): Page
      reads this
    {
      Page(Quiet, booted, since, log)
    }

    constructor ()
      ensures Valid() && View() == NEW_PAGE
    {
      since, totalMsgs, log, booted := 0, 0, [], false;
    }

    method Ingest(text: string)
      requires Valid()
      modifies `log, `totalMsgs
      ensures Valid() && log == old(log) + ParseLines(text)
    {
      var msgs := ParseLines(text);
      var i := 0;
      while i < |msgs|
        invariant 0 <= i <= |msgs| && log == old(log) + msgs[..i] && Valid()
      {
        log := log + [msgs[i]];
        totalMsgs := totalMsgs + 1;
        i := i + 1;
      }
      assert msgs[..|msgs|] == msgs;
    }

    method Bootstrap(r: Response)
      requires Valid() && !booted
      modifies this
      ensures Valid() && View() == Receive(old(View()), r)
    {
      if !(200 <= r.status <= 299) { return; }
      Ingest(r.body);
      since := Utf8Len(r.body);
      booted := true;
    }

    /** The answer of a server that has started again: everything shown is dropped first. */
    method Restart(text: string)
      requires Valid() && booted
      modifies this
      ensures Valid() && View() == Page(Quiet, true, Utf8Len(text), ParseLines(text))
    {
      log := [];
      totalMsgs := 0;
      Ingest(text);
      since := Utf8Len(text);
    }

    method Poll(r: Response)
      requires Valid() && booted
      modifies this
      ensures Valid() && View() == Receive(old(View()), r)
    {
      if r.status == 205 {
        Restart(r.body);
      } else if r.status != 204 && 200 <= r.status <= 299 {
        Ingest(r.body);
        since := since + Utf8Len(r.body);
      }
    }
  }

  // ---------- runs ----------

  /** The server with the list of messages posted so far, and any number of pages. */
  datatype State = State(buffer: string, log: seq<Msg>, pages: seq<Page>)

  datatype Event = Post(body: string) | Open | Ask(i: nat) | Serve(i: nat) | Deliver(i: nat) | Lose(i: nat)

  const START := State("", [], [])

  /** One event; an event that is not possible changes nothing. */
  function Next(s: State, e: Event): State {
    match e
    case Post(body) =>
      var m := MessageOf(|s.log| + 1, body);
      State(s.buffer + Line(m), s.log + [m], s.pages)
    case Open => s.(pages := s.pages + [NEW_PAGE])
    case Ask(i) =>
      if i < |s.pages| && s.pages[i].net == Quiet then s.(pages := s.pages[i := s.pages[i].(net := Asked)]) else s
    case Serve(i) =>
      if i < |s.pages| && s.pages[i].net == Asked
      then s.(pages := s.pages[i := s.pages[i].(net := Answered(Reply(s.buffer, s.pages[i])))]) else s
    case Deliver(i) =>
      if i < |s.pages| && s.pages[i].net.Answered?
      then s.(pages := s.pages[i := Receive(s.pages[i], s.pages[i].net.r)]) else s
    case Lose(i) =>
      if i < |s.pages| then s.(pages := s.pages[i := s.pages[i].(net := Quiet)]) else s
  }

  function Run(es: seq<Event>): State {
    if es == [] then START else Next(Run(es[..|es| - 1]), es[|es| - 1])
  }

  /** The log is the sanitized messages, numbered from one, and the buffer is their lines. */
  ghost predicate LogOk(s: State) {
    s.buffer == Lines(s.log) && Ascii(s.buffer) && Numbered(s.log)
  }

  ghost predicate Numbered(log: seq<Msg>) {
    forall j | 0 <= j < |log| :: Tidy(log[j]) && log[j].id == j + 1
  }

  /** The page shows the first messages of the log and stands at the end of their lines. */
  ghost predicate Reading(log: seq<Msg>, p: Page) {
    && |p.msgs| <= |log| && p.msgs == log[..|p.msgs|] && p.since == |Lines(p.msgs)|
    && (!p.booted ==> p.msgs == [] && p.since == 0)
  }

  /** A stretch of the log that begins after its first n messages. */
  ghost predicate Piece(log: seq<Msg>, n: nat, body: string) {
    exists k: nat :: n <= k <= |log| && body == Lines(log[n..k])
  }

  /** The answer on its way continues the log from where the page stands. */
  ghost predicate Continues(log: seq<Msg>, p: Page, r: Response) {
    if p.booted && r.status == 204 then r.body == "" else r.status == 200 && Piece(log, |p.msgs|, r.body)
  }

  ghost predicate PageOk(log: seq<Msg>, p: Page) {
    Reading(log, p) && (p.net.Answered? ==> Continues(log, p, p.net.r))
  }

  ghost predicate Inv(s: State) {
    LogOk(s) && forall i | 0 <= i < |s.pages| :: PageOk(s.log, s.pages[i])
  }

  lemma AsciiConcat(a: string, b: string)
    ensures Ascii(a + b) <==> Ascii(a) && Ascii(b)
  {
    assert forall i | 0 <= i < |a| :: (a + b)[i] == a[i];
    assert forall i | 0 <= i < |b| :: (a + b)[|a| + i] == b[i];
  }

  lemma DigitsAscii(n: nat)
    ensures Ascii(Digits(n))
  {
  }

  lemma SanitizeAscii(s: string)
    requires Ascii(s)
    ensures Ascii(Sanitize(s))
  {
  }

  lemma MessageAscii(id: nat, body: string)
    requires Ascii(body)
    ensures var m := MessageOf(id, body); Ascii(m.user) && Ascii(m.text) && Tidy(m) && m.id == id
  {
    var sep := IndexOf(body, '|');
    SanitizeAscii("anon");
    SanitizeAscii(body);
    if sep > 0 {
      SanitizeAscii(body[..sep]);
      SanitizeAscii(body[sep + 1..]);
    }
  }

  lemma LineAscii(m: Msg)
    requires Ascii(m.user) && Ascii(m.text)
    ensures Ascii(Line(m))
  {
    DigitsAscii(m.id);
    AsciiConcat(['\t'], m.text);
    AsciiConcat(m.user, ['\t'] + m.text);
    Regroup(m.user, ['\t'], m.text);
    AsciiConcat(['\t'], m.user + ['\t'] + m.text);
    Regroup(Digits(m.id), ['\t'], m.user + ['\t'] + m.text);
    AsciiConcat(Digits(m.id), ['\t'] + (m.user + ['\t'] + m.text));
    AsciiConcat(Fields(m), ['\n']);
  }

  /** The path of a poll brings the page's position across unchanged. */
  lemma PathCarries(since: nat)
    ensures var path := POLL + Digits(since);
            Utf8Len(path) > 10 && Value(DigitPrefix(SliceFrom(path, 10))) == since
  {
    var d := Digits(since);
    var path := POLL + d;
    DigitsAscii(since);
    assert Ascii(POLL);
    AsciiConcat(POLL, d);
    Utf8LenAscii(path);
    assert path[10..] == d;
    assert d[..|d|] == d;
    PrefixIs(d, |d|);
    ValueDigits(since);
  }

  lemma Utf8LenConcat(a: string, b: string)
    ensures Utf8Len(a + b) == Utf8Len(a) + Utf8Len(b)
    decreases |b|
  {
    if b == "" {
      assert a + b == a;
    } else {
      assert (a + b)[..|a + b| - 1] == a + b[..|b| - 1];
      Utf8LenConcat(a, b[..|b| - 1]);
    }
  }

  lemma Halves(a: string, b: string)
    ensures (a + b)[..|a|] == a && (a + b)[|a|..] == b
  {
  }

  /** A log cut after k messages is its buffer cut after their lines. */
  lemma CutLog(log: seq<Msg>, k: nat)
    requires k <= |log|
    ensures |Lines(log[..k])| <= |Lines(log)|
    ensures Lines(log)[..|Lines(log[..k])|] == Lines(log[..k])
    ensures Lines(log)[|Lines(log[..k])|..] == Lines(log[k..])
  {
    assert log[..k] + log[k..] == log;
    LinesConcat(log[..k], log[k..]);
    Halves(Lines(log[..k]), Lines(log[k..]));
  }

  lemma AsciiCut(log: seq<Msg>, k: nat)
    requires k <= |log| && Ascii(Lines(log))
    ensures Ascii(Lines(log[..k])) && Ascii(Lines(log[k..]))
  {
    assert log[..k] + log[k..] == log;
    LinesConcat(log[..k], log[k..]);
    AsciiConcat(Lines(log[..k]), Lines(log[k..]));
  }

  lemma AsciiPiece(log: seq<Msg>, n: nat, k: nat)
    requires n <= k <= |log| && Ascii(Lines(log))
    ensures Ascii(Lines(log[n..k]))
  {
    AsciiCut(log, k);
    AsciiCut(log[..k], n);
    assert log[..k][n..] == log[n..k];
  }

  /** A stretch of the log reads as its messages and carries the position to their end. */
  lemma PieceReads(log: seq<Msg>, n: nat, k: nat)
    requires n <= k <= |log| && Numbered(log) && Ascii(Lines(log))
    ensures ParseLines(Lines(log[n..k])) == log[n..k]
    ensures log[..n] + ParseLines(Lines(log[n..k])) == log[..k]
    ensures |Lines(log[..n])| + Utf8Len(Lines(log[n..k])) == |Lines(log[..k])|
  {
    LinesReadBack(log[n..k]);
    AsciiPiece(log, n, k);
    Stretch(log, n, k);
    PieceJoins(log[..n], log[n..k], log[..k]);
  }

  lemma PieceJoins(before: seq<Msg>, piece: seq<Msg>, all: seq<Msg>)
    requires Ascii(Lines(piece)) && ParseLines(Lines(piece)) == piece && before + piece == all
    ensures before + ParseLines(Lines(piece)) == all
    ensures |Lines(before)| + Utf8Len(Lines(piece)) == |Lines(all)|
  {
    Utf8LenAscii(Lines(piece));
    LinesConcat(before, piece);
  }

  /** A page ahead of the server is sent everything with 205, one that has everything nothing with 204, and any other
      what follows its position with 200. */
  lemma PollByPosition(buffer: string, since: nat)
    requires Ascii(buffer)
    ensures PollAnswer(buffer, "/api/poll/" + Digits(since))
            == if since > |buffer| then Response(205, buffer)
               else if since == |buffer| then Response(204, "") else Response(200, buffer[since..])
  {
    Utf8LenAscii(buffer);
    PathCarries(since);
  }

  /** Without a number a poll is answered from the beginning. */
  lemma PollWithoutNumber(buffer: string, rest: string)
    requires rest == "" || !('0' <= rest[0] <= '9')
    ensures PollAnswer(buffer, "/api/poll/" + rest) == if buffer == "" then Response(204, "") else Response(200, buffer)
  {
    assert ("/api/poll/" + rest)[10..] == rest;
    PrefixIs(rest, 0);
  }

  /** What a page is answered continues its log up to the last message; it is never told to start again. */
  lemma ReplyContinues(s: State, p: Page)
    requires LogOk(s) && Reading(s.log, p)
    ensures var r := Reply(s.buffer, p); Continues(s.log, p, r) && r.body == Lines(s.log[|p.msgs|..])
  {
    var n := |p.msgs|;
    CutLog(s.log, n);
    assert s.log[n..|s.log|] == s.log[n..];
    if p.booted {
      PollByPosition(s.buffer, p.since);
    } else {
      assert s.log[0..] == s.log;
    }
  }

  /** Taking in an answer leaves the page reading the log, further on. */
  lemma ReceiveReads(log: seq<Msg>, p: Page, r: Response)
    requires Numbered(log) && Ascii(Lines(log)) && Reading(log, p) && Continues(log, p, r)
    ensures Reading(log, Receive(p, r)) && |p.msgs| <= |Receive(p, r).msgs|
  {
    if r.status == 200 {
      var n := |p.msgs|;
      var k: nat :| n <= k <= |log| && r.body == Lines(log[n..k]);
      PieceReads(log, n, k);
      ReceiveMoves(log, p, r, k);
    }
  }

  lemma ReceiveMoves(log: seq<Msg>, p: Page, r: Response, k: nat)
    requires |p.msgs| <= k <= |log| && Reading(log, p) && r.status == 200
    requires p.msgs + ParseLines(r.body) == log[..k] && p.since + Utf8Len(r.body) == |Lines(log[..k])|
    ensures Receive(p, r).msgs == log[..k] && Receive(p, r).since == |Lines(log[..k])| && Receive(p, r).booted
  {
    TakeMoves(p, Utf8Len(r.body), ParseLines(r.body));
  }

  lemma TakeMoves(p: Page, size: nat, read: seq<Msg>)
    requires !p.booted ==> p.since == 0
    ensures Take(p, 200, size, read) == Page(Quiet, true, p.since + size, p.msgs + read)
  {
  }

  /** Growing the log keeps everything a page has and everything on its way to it. */
  lemma LogGrows(log: seq<Msg>, m: Msg, p: Page)
    requires PageOk(log, p)
    ensures PageOk(log + [m], p)
  {
    var n := |p.msgs|;
    assert (log + [m])[..n] == log[..n];
    if p.net.Answered? && p.net.r.status == 200 {
      var k: nat :| n <= k <= |log| && p.net.r.body == Lines(log[n..k]);
      assert (log + [m])[n..k] == log[n..k];
    }
  }

  lemma PostLog(buffer: string, log: seq<Msg>, m: Msg)
    requires buffer == Lines(log) && Ascii(buffer) && Ascii(Line(m))
    ensures buffer + Line(m) == Lines(log + [m]) && Ascii(buffer + Line(m))
  {
    LinesSnoc(log, m);
    AsciiConcat(buffer, Line(m));
  }

  lemma PostNumber(log: seq<Msg>, m: Msg)
    requires Numbered(log) && Tidy(m) && m.id == |log| + 1
    ensures Numbered(log + [m])
  {
  }

  lemma PostPages(log: seq<Msg>, m: Msg, pages: seq<Page>)
    requires forall i | 0 <= i < |pages| :: PageOk(log, pages[i])
    ensures forall i | 0 <= i < |pages| :: PageOk(log + [m], pages[i])
  {
    forall i | 0 <= i < |pages|
      ensures PageOk(log + [m], pages[i])
    {
      LogGrows(log, m, pages[i]);
    }
  }

  lemma PageKeeps(s: State, i: nat, p: Page)
    requires Inv(s) && i < |s.pages| && PageOk(s.log, p)
    ensures Inv(s.(pages := s.pages[i := p]))
  {
  }

  /** Every event keeps the log and every page's reading of it. */
  lemma NextKeeps(s: State, e: Event)
    requires Inv(s) && (e.Post? ==> Ascii(e.body))
    ensures Inv(Next(s, e))
  {
    match e
    case Post(body) =>
      var m := MessageOf(|s.log| + 1, body);
      MessageAscii(|s.log| + 1, body);
      LineAscii(m);
      PostLog(s.buffer, s.log, m);
      PostNumber(s.log, m);
      PostPages(s.log, m, s.pages);
    case Open => NewPage(s);
    case Ask(i) => NetKeeps(s, i, Asked);
    case Lose(i) => NetKeeps(s, i, Quiet);
    case Serve(i) =>
      if i < |s.pages| {
        ServeKeeps(s, i, s.pages[i]);
      }
    case Deliver(i) =>
      if i < |s.pages| && s.pages[i].net.Answered? {
        DeliverKeeps(s, i, s.pages[i]);
      }
  }

  lemma NetKeeps(s: State, i: nat, net: Net)
    requires Inv(s) && !net.Answered?
    ensures i < |s.pages| ==> Inv(s.(pages := s.pages[i := s.pages[i].(net := net)]))
  {
    if i < |s.pages| {
      PageKeeps(s, i, s.pages[i].(net := net));
    }
  }

  lemma ServeKeeps(s: State, i: nat, p: Page)
    requires Inv(s) && i < |s.pages| && p == s.pages[i]
    ensures Inv(s.(pages := s.pages[i := p.(net := Answered(Reply(s.buffer, p)))]))
  {
    ReplyContinues(s, p);
    PageKeeps(s, i, p.(net := Answered(Reply(s.buffer, p))));
  }

  lemma DeliverKeeps(s: State, i: nat, p: Page)
    requires Inv(s) && i < |s.pages| && p == s.pages[i] && p.net.Answered?
    ensures Inv(s.(pages := s.pages[i := Receive(p, p.net.r)]))
  {
    var q := Receive(p, p.net.r);
    ReceiveOk(s.log, p, p.net.r, q);
    PageKeeps(s, i, q);
  }

  lemma ReceiveOk(log: seq<Msg>, p: Page, r: Response, q: Page)
    requires Numbered(log) && Ascii(Lines(log)) && Reading(log, p) && Continues(log, p, r) && p.net.Answered?
    requires q == Receive(p, r)
    ensures PageOk(log, q)
  {
    ReceiveReads(log, p, r);
  }

  lemma NewPage(s: State)
    requires Inv(s)
    ensures Inv(s.(pages := s.pages + [NEW_PAGE]))
  {
    assert PageOk(s.log, NEW_PAGE);
  }

  ghost predicate AllAscii(es: seq<Event>) {
    forall k | 0 <= k < |es| :: es[k].Post? ==> Ascii(es[k].body)
  }

  lemma {:induction false} RunInv(es: seq<Event>)
    requires AllAscii(es)
    ensures Inv(Run(es))
  {
    if es != [] {
      RunInv(es[..|es| - 1]);
      NextKeeps(Run(es[..|es| - 1]), es[|es| - 1]);
    }
  }

  /** The messages posted in a run, in order. */
  function Posted(es: seq<Event>): seq<Msg> {
    if es == [] then []
    else
      var before, e := Posted(es[..|es| - 1]), es[|es| - 1];
      if e.Post? then before + [MessageOf(|before| + 1, e.body)] else before
  }

  lemma {:induction false} RunLog(es: seq<Event>)
    ensures Run(es).log == Posted(es)
  {
    if es != [] {
      RunLog(es[..|es| - 1]);
    }
  }

  /** After any run, every page shows exactly the first messages posted, sanitized, numbered 1..k, in order,
      none lost and none twice, and its position is the number of characters of their lines. */
  lemma PagesShowTheLog(es: seq<Event>, i: nat)
    requires AllAscii(es) && i < |Run(es).pages|
    ensures var p, buffer := Run(es).pages[i], Run(es).buffer;
            && |p.msgs| <= |Posted(es)| && p.msgs == Posted(es)[..|p.msgs|]
            && (forall j | 0 <= j < |p.msgs| :: p.msgs[j].id == j + 1)
            && p.since <= |buffer| && buffer[..p.since] == Lines(p.msgs)
  {
    RunInv(es);
    RunLog(es);
    PageStands(Run(es), Run(es).pages[i]);
  }

  lemma PageStands(s: State, p: Page)
    requires LogOk(s) && Reading(s.log, p)
    ensures p.since <= |s.buffer| && s.buffer[..p.since] == Lines(p.msgs)
    ensures forall j | 0 <= j < |p.msgs| :: p.msgs[j].id == j + 1
  {
    CutLog(s.log, |p.msgs|);
    assert forall j | 0 <= j < |p.msgs| :: p.msgs[j] == s.log[j];
  }

  /** The body names the user before its first bar; with no bar, or with nothing before it, it is all text. */
  predicate Written(body: string, user: string, text: string) {
    || (user != "" && '|' !in user && body == user + "|" + text)
    || (user == "anon" && text == body && ('|' !in body || body[0] == '|'))
  }

  lemma WrittenSays(id: nat, body: string, user: string, text: string)
    requires Written(body, user, text)
    ensures Says(MessageOf(id, body), id, user, text)
  {
    if user != "" && '|' !in user && body == user + "|" + text {
      PostedByUser(id, user, text);
    } else {
      PostedByNobody(id, body);
    }
  }

  /** A post adds its message to the end of the log and its line to the end of the buffer. */
  lemma PostAdds(es: seq<Event>, user: string, text: string, body: string, id: nat, m: Msg)
    requires Written(body, user, text) && id == |Run(es).log| + 1
    requires var log := Run(es + [Post(body)]).log; log != [] ==> m == log[|log| - 1]
    ensures Run(es + [Post(body)]).log == Run(es).log + [m] && Says(m, id, user, text)
    ensures Run(es + [Post(body)]).buffer == Run(es).buffer + Digits(id) + "\t" + m.user + "\t" + m.text + "\n"
  {
    RunPost(es, body);
    WrittenSays(id, body, user, text);
    LastOf(Run(es).log, MessageOf(id, body));
    LineJoins(Run(es).buffer, m);
  }

  lemma LastOf(log: seq<Msg>, m: Msg)
    ensures (log + [m])[|log + [m]| - 1] == m && (log + [m])[..|log|] == log
  {
  }

  lemma RunPost(es: seq<Event>, body: string)
    ensures Run(es + [Post(body)]) == Next(Run(es), Post(body))
  {
    var all := es + [Post(body)];
    assert all[..|all| - 1] == es && all[|all| - 1] == Post(body);
  }

  /** After all these messages there is one more, of this user and text. */
  ghost predicate Ends(msgs: seq<Msg>, log: seq<Msg>, user: string, text: string) {
    |msgs| == |log| + 1 && msgs[..|log|] == log && Says(msgs[|log|], |log| + 1, user, text)
  }

  /** And a page that asks after a post shows its message below everything posted before. */
  lemma PostShown(es: seq<Event>, user: string, text: string, body: string, i: nat)
    requires Written(body, user, text) && AllAscii(es) && Ascii(body) && i < |Run(es).pages| && Run(es).pages[i].net == Quiet
    ensures var s := Next(Next(Next(Run(es + [Post(body)]), Ask(i)), Serve(i)), Deliver(i));
            && i < |s.pages| && Ends(s.pages[i].msgs, Run(es).log, user, text)
  {
    var all, log := es + [Post(body)], Run(es).log;
    RunPost(es, body);
    assert AllAscii(all);
    PollCatchesUp(all, i);
    RunLog(all);
    var m := MessageOf(|log| + 1, body);
    LastOf(log, m);
    WrittenSays(|log| + 1, body, user, text);
    assert Posted(all) == log + [m];
  }

  /** What one exchange with nothing in between makes of the state. */
  lemma Exchange(s: State, i: nat)
    requires i < |s.pages| && s.pages[i].net == Quiet
    ensures var p := s.pages[i].(net := Asked);
            var r := Reply(s.buffer, p);
            Next(Next(Next(s, Ask(i)), Serve(i)), Deliver(i)) == s.(pages := s.pages[i := Receive(p.(net := Answered(r)), r)])
  {
    var p := s.pages[i].(net := Asked);
    var a := s.(pages := s.pages[i := p]);
    var r := Reply(s.buffer, p);
    var q := p.(net := Answered(r));
    var b := s.(pages := s.pages[i := q]);
    assert a.pages[i := q] == b.pages;
    assert Next(s, Ask(i)) == a && Next(a, Serve(i)) == b;
    assert b.pages[i := Receive(q, r)] == s.pages[i := Receive(q, r)];
  }

  /** One exchange with nothing in between brings a page up to date. */
  lemma PollCatchesUp(es: seq<Event>, i: nat)
    requires AllAscii(es) && i < |Run(es).pages| && Run(es).pages[i].net == Quiet
    ensures var s := Next(Next(Next(Run(es), Ask(i)), Serve(i)), Deliver(i));
            |s.pages| == |Run(es).pages| && s.pages[i].msgs == Posted(es)
  {
    RunInv(es);
    RunLog(es);
    CatchUp(Run(es), i);
  }

  lemma CatchUp(s: State, i: nat)
    requires Inv(s) && i < |s.pages| && s.pages[i].net == Quiet
    ensures var t := Next(Next(Next(s, Ask(i)), Serve(i)), Deliver(i));
            |t.pages| == |s.pages| && t.pages[i].msgs == s.log
  {
    var p := s.pages[i].(net := Asked);
    var r := Reply(s.buffer, p);
    Exchange(s, i);
    assert PageOk(s.log, s.pages[i]);
    ReplyContinues(s, p);
    UpToDate(s, p.(net := Answered(r)), r);
  }

  lemma UpToDate(s: State, p: Page, r: Response)
    requires LogOk(s) && Reading(s.log, p) && Continues(s.log, p, r) && r.body == Lines(s.log[|p.msgs|..])
    ensures Receive(p, r).msgs == s.log
  {
    var n := |p.msgs|;
    assert s.log[n..|s.log|] == s.log[n..] && s.log[..|s.log|] == s.log;
    if r.status == 200 {
      PieceReads(s.log, n, |s.log|);
      ReceiveMoves(s.log, p, r, |s.log|);
    } else {
      NothingLeft(s.log[n..]);
      assert s.log[..n] == s.log;
    }
  }

  /** What a page makes of an answer: a failed one and one with nothing new leave it as it is, a reset replaces all it
      shows, any other is added, and the position follows the bytes. */
  lemma AnswersTaken(p: Page, r: Response, q: Page)
    requires q == Receive(p, r)
    ensures q.net == Quiet
    ensures r.status < 200 || r.status > 299 || (p.booted && r.status == 204) ==>
              q.msgs == p.msgs && q.since == p.since && q.booted == p.booted
    ensures p.booted && r.status == 205 ==> q == Page(Quiet, true, Utf8Len(r.body), ParseLines(r.body))
    ensures p.booted && 200 <= r.status <= 299 && r.status !in {204, 205} ==>
              q == Page(Quiet, true, p.since + Utf8Len(r.body), p.msgs + ParseLines(r.body))
    ensures !p.booted && 200 <= r.status <= 299 ==>
              q == Page(Quiet, true, Utf8Len(r.body), p.msgs + ParseLines(r.body))
  {
  }

  /** After the server has started again a page is brought up to date at once if it stands beyond the end of the new
      buffer; otherwise everything it shows stays. */
  lemma AfterRestart(s: State, p: Page)
    requires LogOk(s) && p.booted
    ensures p.since > |s.buffer| ==> Receive(p, Reply(s.buffer, p)) == Page(Quiet, true, |s.buffer|, s.log)
    ensures p.since <= |s.buffer| ==> p.msgs <= Receive(p, Reply(s.buffer, p)).msgs
  {
    PollByPosition(s.buffer, p.since);
    if p.since > |s.buffer| {
      LinesReadBack(s.log);
      Utf8LenAscii(s.buffer);
      StartsAgain(p, |s.buffer|, s.log);
    } else {
      StaysShown(p, Reply(s.buffer, p));
    }
  }

  lemma StartsAgain(p: Page, size: nat, read: seq<Msg>)
    requires p.booted
    ensures Take(p, 205, size, read) == Page(Quiet, true, size, read)
  {
  }

  lemma StaysShown(p: Page, r: Response)
    requires r.status != 205
    ensures p.msgs <= Receive(p, r).msgs
  {
  }

  lemma NothingLeft(ms: seq<Msg>)
    requires Lines(ms) == ""
    ensures ms == []
  {
  }

  /** Why the bodies must be ASCII: a page that has read p, and counts it in bytes, is sent exactly the rest q
      if and only if p is ASCII, because the server cuts its buffer by characters. */
  lemma DeliveryNeedsAscii(p: string, q: string)
    requires q != ""
    ensures PollAnswer(p + q, POLL + Digits(Utf8Len(p))) == Response(200, q) <==> Ascii(p)
  {
    PathCarries(Utf8Len(p));
    Utf8LenConcat(p, q);
    Utf8LenAscii(p);
    var cut := Utf8Len(p);
    if Ascii(p) {
      assert (p + q)[|p|..] == q;
    } else {
      assert |SliceFrom(p + q, cut)| < |q|;
    }
  }

  /** What such a page is sent in general: as many characters are missing at the front as what it has is longer in
      bytes than in characters. */
  lemma DeliveryCuts(p: string, q: string)
    requires q != ""
    ensures PollAnswer(p + q, POLL + Digits(Utf8Len(p))) == Response(200, SliceFrom(q, Utf8Len(p) - |p|))
  {
    Utf8LenConcat(p, q);
    PollAt(p + q, Utf8Len(p));
    SliceBehind(p, q, Utf8Len(p));
  }

  lemma PollAt(buffer: string, since: nat)
    requires since < Utf8Len(buffer)
    ensures PollAnswer(buffer, POLL + Digits(since)) == Response(200, SliceFrom(buffer, since))
  {
    PathCarries(since);
  }

  lemma SliceBehind(p: string, q: string, cut: nat)
    requires cut >= |p|
    ensures SliceFrom(p + q, cut) == SliceFrom(q, cut - |p|)
  {
    if cut <= |p + q| {
      assert (p + q)[cut..] == q[cut - |p|..];
    }
  }

  /** A page that has read one message with one accented letter never gets the number of the next one. */
  lemma AccentCuts(m: Msg, q: string)
    requires m == Msg(1, "anon", [0xE9 as char]) && q != ""
    ensures PollAnswer(Line(m) + q, POLL + Digits(Utf8Len(Line(m)))) == Response(200, q[1..])
  {
    var front := Digits(1) + ['\t'] + ("anon" + ['\t']);
    assert Line(m) == front + [0xE9 as char] + ['\n'];
    Utf8LenConcat(front + [0xE9 as char], ['\n']);
    Utf8LenConcat(front, [0xE9 as char]);
    assert Ascii(front);
    Utf8LenAscii(front);
    Utf8LenAscii(['\n']);
    assert [0xE9 as char][..0] == "";
    assert Utf8Len([0xE9 as char]) == 2;
    DeliveryCuts(Line(m), q);
  }
}
