/** The decoder of a `Transfer-Encoding: chunked` body (section 7.1 of RFC 9112), and what it makes of every
    stream in that coding and of every stream cut short. */
module Chunked {
  import opened Options
  import opened Sequences

  // ---------- the strings of the host language ----------

  function Min(a: nat, b: nat): nat {
    if a < b then a else b
  }

  /** substring from the start; a bound beyond the end is cut back. */
  function Take(s: string, n: nat): string {
    s[..Min(n, |s|)]
  }

  function Drop(s: string, n: nat): string {
    s[Min(n, |s|)..]
  }

  predicate CrLf(s: string, k: nat) {
    k + 1 < |s| && s[k] == '\r' && s[k + 1] == '\n'
  }

  /** indexOf the line separator from position i on; -1 when there is none. */
  function FindSep(s: string, i: nat): (e: int)
    ensures e >= -1 && (e < 0 ==> forall k: nat | i <= k :: !CrLf(s, k))
    ensures e >= 0 ==> i <= e && CrLf(s, e) && forall k: nat | i <= k < e :: !CrLf(s, k)
    decreases |s| - i
  {
    if i >= |s| then -1 else if CrLf(s, i) then i else FindSep(s, i + 1)
  }

  function IndexOf(s: string, c: char, i: nat): (e: int)
    ensures e < 0 ==> forall k: nat | i <= k < |s| :: s[k] != c
    ensures e >= 0 ==> i <= e < |s| && s[e] == c && forall k: nat | i <= k < e :: s[k] != c
    decreases |s| - i
  {
    if i >= |s| then -1 else if s[i] == c then i else IndexOf(s, c, i + 1)
  }

  /** White space and line ends as trim sees them. */
  predicate Blank(c: char) {
    var n := c as int;
    9 <= n <= 13 || n == 32 || n == 160 || n == 0x1680 || 0x2000 <= n <= 0x200A || n == 0x2028 || n == 0x2029
    || n == 0x202F || n == 0x205F || n == 0x3000 || n == 0xFEFF
  }

  function TrimLeft(s: string): string {
    if s != "" && Blank(s[0]) then TrimLeft(s[1..]) else s
  }

  function TrimRight(s: string): string {
    if s != "" && Blank(s[|s| - 1]) then TrimRight(s[..|s| - 1]) else s
  }

  predicate IsHex(c: char) {
    '0' <= c <= '9' || 'a' <= c <= 'f' || 'A' <= c <= 'F'
  }

  function HexOf(c: char): (n: nat)
    requires IsHex(c)
    ensures n < 16
  {
    if c <= '9' then c as int - '0' as int else if c <= 'F' then c as int - 'A' as int + 10 else c as int - 'a' as int + 10
  }

  predicate AllHex(s: string) {
    forall i | 0 <= i < |s| :: IsHex(s[i])
  }

  function HexValue(s: string): nat
    requires AllHex(s)
  {
    if s == "" then 0 else HexValue(s[..|s| - 1]) * 16 + HexOf(s[|s| - 1])
  }

  /** The hexadecimal digits at the start. */
  function HexPrefix(s: string): (d: string)
    ensures AllHex(d)
  {
    if s != "" && IsHex(s[0]) then [s[0]] + HexPrefix(s[1..]) else ""
  }

  /** parseInt(s, 16): blanks, a sign and 0x may come first, anything may follow; None for NaN. */
  function ParseHex(s: string): Option<int> {
    var t := TrimLeft(s);
    var negative := t != "" && t[0] == '-';
    var u := if t != "" && (t[0] == '-' || t[0] == '+') then t[1..] else t;
    var v := if |u| >= 2 && u[0] == '0' && (u[1] == 'x' || u[1] == 'X') then u[2..] else u;
    var digits := HexPrefix(v);
    var n: int := HexValue(digits);
    if digits == "" then None else Some(if negative then -n else n)
  }

  // ---------- the decoder ----------

  /** The size announced by a line: what stands before the extensions, read as a hexadecimal number. */
  function SizeOf(line: string): Option<int> {
    var semi := IndexOf(line, ';', 0);
    ParseHex(TrimRight(TrimLeft(if semi < 0 then line else line[..semi])))
  }

  function Reading(sizeOf: string -> Option<int>, line: string): Option<int> {
    sizeOf(line)
  }

  /** The payload of a stream, as far as it can be read, when sizeOf reads the size lines. */
  function Decode(s: string, sizeOf: string -> Option<int>): string
    decreases |s|
  {
    var e := FindSep(s, 0);
    if e < 0 then ""
    else match Reading(sizeOf, s[..e])
      case None => ""
      case Some(n) => if n <= 0 then "" else Take(s[e + 2..], n) + Decode(Drop(s[e + 2..], n + 2), sizeOf)
  }

  lemma FindFrom(s: string, i: nat)
    requires i <= |s|
    ensures var e := FindSep(s, i); FindSep(s[i..], 0) == if e < 0 then -1 else e - i
  {
    var e, f := FindSep(s, i), FindSep(s[i..], 0);
    if f >= 0 {
      assert CrLf(s, i + f);
    }
    if e >= 0 {
      assert CrLf(s[i..], e - i);
    }
  }

  lemma DecodeEnd(s: string, f: string -> Option<int>)
    requires FindSep(s, 0) < 0
    ensures Decode(s, f) == ""
  {
  }

  predicate Positive(size: Option<int>) {
    size.Some? && size.value > 0
  }

  /** One line, read as size, and v after it: a piece of payload, and t to go on with. */
  lemma DecodeLine(s: string, f: string -> Option<int>, e: nat, line: string, size: Option<int>, v: string,
                   piece: string, t: string)
    requires FindSep(s, 0) == e && line == s[..e] && Reading(f, line) == size && v == s[e + 2..]
    requires Positive(size) ==> piece == Take(v, size.value) && t == Drop(v, size.value + 2)
    ensures Decode(s, f) == if Positive(size) then piece + Decode(t, f) else ""
  {
    if Positive(size) {
      assert Take(s[e + 2..], size.value) == piece && Drop(s[e + 2..], size.value + 2) == t;
    }
  }

  lemma Pieces(body: string, i: nat, e: nat, n: nat)
    requires i <= e && CrLf(body, e)
    ensures body[i..][..e - i] == body[i..e] && body[i..][e - i + 2..] == body[e + 2..]
    ensures body[e + 2..Min(e + 2 + n, |body|)] == Take(body[e + 2..], n)
    ensures Drop(body[e + 2..], n + 2) == Drop(body, e + 2 + n + 2)
  {
  }

  /** What the line from i to e makes of the body from i on. */
  lemma OneTurn(body: string, f: string -> Option<int>, i: nat, e: nat, size: Option<int>, piece: string, t: string)
    requires i <= e && FindSep(body, i) == e && Reading(f, body[i..e]) == size
    requires Positive(size) ==>
               piece == body[e + 2..Min(e + 2 + size.value, |body|)] && t == Drop(body, e + 2 + size.value + 2)
    ensures Decode(Drop(body, i), f) == if Positive(size) then piece + Decode(t, f) else ""
  {
    FindFrom(body, i);
    Pieces(body, i, e, if Positive(size) then size.value else 0);
    DecodeLine(body[i..], f, e - i, body[i..e], size, body[e + 2..], piece, t);
  }

  lemma NoLine(body: string, f: string -> Option<int>, i: nat)
    requires FindSep(body, i) < 0
    ensures Decode(Drop(body, i), f) == ""
  {
    if i <= |body| {
      FindFrom(body, i);
    }
    DecodeEnd(Drop(body, i), f);
  }

  /** What a turn of the loop keeps: what is out and what is still to be read make up the whole. */
  lemma TurnKeeps(body: string, f: string -> Option<int>, i: nat, e: int, size: Option<int>, out: string,
                  piece: string, rest: string, whole: string)
    requires out + Decode(Drop(body, i), f) == whole && e == FindSep(body, i)
    requires e >= 0 ==> Reading(f, body[i..e]) == size
    requires e >= 0 && Positive(size) ==>
               piece == body[e + 2..Min(e + 2 + size.value, |body|)] && rest == Drop(body, e + 2 + size.value + 2)
    ensures if e >= 0 && Positive(size) then out + piece + Decode(rest, f) == whole else out == whole
  {
    if e < 0 {
      NoLine(body, f, i);
      Nothing(out);
    } else {
      OneTurn(body, f, i, e, size, piece, rest);
      Nothing(out);
      Regroup(out, piece, Decode(rest, f));
    }
  }

  lemma Nothing(a: string)
    ensures a + "" == a
  {
  }

  /** The loop of the decoder, with an index into the whole body. */
  method DechunkWith(body: string, sizeOf: string -> Option<int>) returns (out: string)
    ensures out == Decode(body, sizeOf)
  {
    out := "";
    var i := 0;
    ghost var rest, whole := body, Decode(body, sizeOf);
    while true
      invariant 0 <= i && rest == Drop(body, i) && out + Decode(rest, sizeOf) == whole
      decreases |body| - i
    {
      var lineEnd := FindSep(body, i);
      if lineEnd < 0 {
        TurnKeeps(body, sizeOf, i, lineEnd, None, out, "", "", whole);
        break;
      }
      var size := Reading(sizeOf, body[i..lineEnd]);
      if !Positive(size) {
        TurnKeeps(body, sizeOf, i, lineEnd, size, out, "", "", whole);
        break;
      }
      var from, next := lineEnd + 2, lineEnd + 2 + size.value + 2;
      var piece := body[from..Min(from + size.value, |body|)];
      TurnKeeps(body, sizeOf, i, lineEnd, size, out, piece, Drop(body, next), whole);
      out, rest, i := out + piece, Drop(body, next), next;
    }
  }

  method Dechunk(body: string) returns (out: string)
    ensures out == Decode(body, SizeOf)
  {
    out := DechunkWith(body, SizeOf);
  }

  // ---------- the coding ----------

  /** A chunk as section 7.1 writes it: its size in hexadecimal, blanks before its extensions, the extensions
      with their semicolon, and its data. */
  datatype Chunk = Chunk(size: string, pad: string, ext: string, data: string)

  /** A size line; ext is empty or begins with a semicolon, and holds no line end. */
  predicate LineOk(size: string, pad: string, ext: string) {
    && size != "" && AllHex(size)
    && (forall i | 0 <= i < |pad| :: pad[i] == ' ' || pad[i] == '\t')
    && (ext != "" ==> ext[0] == ';') && FindSep(ext, 0) < 0
  }

  predicate ChunkOk(c: Chunk) {
    LineOk(c.size, c.pad, c.ext) && HexValue(c.size) == |c.data|
  }

  function LineOf(c: Chunk): string {
    c.size + c.pad + c.ext
  }

  /** A stream: the chunks, each line and each data closed by a line end, then what follows them. */
  function Encode(cs: seq<Chunk>, last: string): string {
    if cs == [] then last
    else LineOf(cs[0]) + (['\r', '\n'] + (cs[0].data + (['\r', '\n'] + Encode(cs[1..], last))))
  }

  function Payload(cs: seq<Chunk>): string {
    if cs == [] then "" else cs[0].data + Payload(cs[1..])
  }

  lemma {:induction false} TrimPad(s: string, pad: string)
    requires s != "" && !Blank(s[|s| - 1]) && forall i | 0 <= i < |pad| :: Blank(pad[i])
    ensures TrimRight(s + pad) == s
    decreases |pad|
  {
    if pad == "" {
      assert s + pad == s;
    } else {
      var t := s + pad;
      assert t[|t| - 1] == pad[|pad| - 1] && t[..|t| - 1] == s + pad[..|pad| - 1];
      TrimPad(s, pad[..|pad| - 1]);
    }
  }

  lemma {:induction false} HexPrefixAll(s: string)
    requires AllHex(s)
    ensures HexPrefix(s) == s
  {
    if s != "" {
      HexPrefixAll(s[1..]);
    }
  }

  /** The size field survives the blanks and extensions after it. */
  lemma SizeReads(size: string, pad: string, ext: string)
    requires LineOk(size, pad, ext)
    ensures SizeOf(size + pad + ext) == Some(HexValue(size))
  {
    FieldEnds(size, pad, ext, size + pad, size + pad + ext);
    FieldTrimmed(size, pad, ext);
    FieldRead(size + pad + ext, size + pad, size);
  }

  lemma FieldRead(line: string, field: string, size: string)
    requires size != "" && AllHex(size) && TrimRight(TrimLeft(field)) == size
    requires var semi := IndexOf(line, ';', 0); (if semi < 0 then line else line[..semi]) == field
    ensures SizeOf(line) == Some(HexValue(size))
  {
    HexPrefixAll(size);
  }

  lemma FieldEnds(size: string, pad: string, ext: string, field: string, line: string)
    requires LineOk(size, pad, ext) && field == size + pad && line == field + ext
    ensures var semi := IndexOf(line, ';', 0); (if semi < 0 then line else line[..semi]) == field
  {
    assert forall k: nat | k < |field| :: line[k] == field[k] && field[k] != ';';
    assert ext != "" ==> line[|field|] == ';';
    assert ext == "" ==> line == field;
  }

  lemma FieldTrimmed(size: string, pad: string, ext: string)
    requires LineOk(size, pad, ext)
    ensures TrimRight(TrimLeft(size + pad)) == size
  {
    var field := size + pad;
    assert field[0] == size[0] && TrimLeft(field) == field;
    TrimPad(size, pad);
  }

  lemma LineFound(size: string, pad: string, ext: string, v: string)
    requires LineOk(size, pad, ext)
    ensures var line := size + pad + ext; FindSep(line + (['\r', '\n'] + v), 0) == |line|
  {
    var line := size + pad + ext;
    var s := line + (['\r', '\n'] + v);
    assert CrLf(s, |line|);
    forall k: nat | k < |line|
      ensures !CrLf(s, k)
    {
      assert s[..|line| + 1] == line + ['\r'];
      LineHasNoSep(size, pad, ext, k, s);
    }
  }

  lemma LineHasNoSep(size: string, pad: string, ext: string, k: nat, s: string)
    requires LineOk(size, pad, ext) && size + pad + ext + ['\r'] <= s && k < |size + pad + ext|
    ensures !CrLf(s, k)
  {
    var line, n := size + pad + ext, |size + pad|;
    assert s[k] == line[k] && s[k + 1] == (line + ['\r'])[k + 1];
    assert k < |size| ==> line[k] == size[k];
    assert |size| <= k < n ==> line[k] == pad[k - |size|];
    assert !CrLf(ext, if k < n then 0 else k - n);
  }

  /** The size line reads as the number of characters it announces. */
  predicate Announces(c: Chunk, f: string -> Option<int>) {
    LineOk(c.size, c.pad, c.ext) && Reading(f, LineOf(c)) == Some(|c.data|)
  }

  /** A size line announces its data: that much of what follows is payload, and the line end after it is skipped. */
  lemma LineDecodes(c: Chunk, f: string -> Option<int>, v: string, s: string)
    requires Announces(c, f) && s == LineOf(c) + (['\r', '\n'] + v)
    ensures Decode(s, f)
            == if c.data == "" then "" else Take(v, |c.data|) + Decode(Drop(v, |c.data| + 2), f)
  {
    var line, n := LineOf(c), |c.data|;
    LineFound(c.size, c.pad, c.ext, v);
    assert s[..|line|] == line && s[|line| + 2..] == v;
    DecodeLine(s, f, |line|, line, Some(n), v, Take(v, n), Drop(v, n + 2));
  }

  // ---------- whole streams ----------

  lemma NextChunk(d: string, rest: string)
    ensures Take(d + (['\r', '\n'] + rest), |d|) == d && Drop(d + (['\r', '\n'] + rest), |d| + 2) == rest
  {
  }

  /** The chunk of size zero and whatever follows it. */
  function Last(z: Chunk, after: string): string {
    LineOf(z) + (['\r', '\n'] + after)
  }

  lemma ChunkDecodes(c: Chunk, f: string -> Option<int>, rest: string, s: string)
    requires Announces(c, f) && c.data != ""
    requires s == LineOf(c) + (['\r', '\n'] + (c.data + (['\r', '\n'] + rest)))
    ensures Decode(s, f) == c.data + Decode(rest, f)
  {
    NextChunk(c.data, rest);
    LineDecodes(c, f, c.data + (['\r', '\n'] + rest), s);
  }

  lemma {:induction false} StreamDecodes(cs: seq<Chunk>, z: Chunk, after: string, f: string -> Option<int>)
    requires (forall c | c in cs :: Announces(c, f) && c.data != "") && Announces(z, f) && z.data == ""
    ensures Decode(Encode(cs, Last(z, after)), f) == Payload(cs)
  {
    if cs == [] {
      LineDecodes(z, f, after, Last(z, after));
    } else {
      assert cs[0] in cs;
      ChunkDecodes(cs[0], f, Encode(cs[1..], Last(z, after)), Encode(cs, Last(z, after)));
      StreamDecodes(cs[1..], z, after, f);
    }
  }

  // ---------- streams cut short ----------

  function Sub(a: nat, b: nat): nat {
    if a < b then 0 else a - b
  }

  /** The payload among the first n characters of a stream. */
  function Received(cs: seq<Chunk>, n: nat): string {
    if cs == [] then ""
    else
      var head := |LineOf(cs[0])| + 2;
      if n < head then ""
      else Take(cs[0].data, n - head) + Received(cs[1..], Sub(n, head + |cs[0].data| + 2))
  }

  lemma ReceivedFirst(cs: seq<Chunk>, n: nat, m: nat, k: nat)
    requires cs != [] && n == |LineOf(cs[0])| + 2 + m && k == Sub(m, |cs[0].data| + 2)
    ensures Received(cs, n) == Take(cs[0].data, m) + Received(cs[1..], k)
  {
  }

  lemma ReceivedNothing(cs: seq<Chunk>)
    ensures Received(cs, 0) == ""
  {
  }

  /** What is received is a beginning of the payload, and all of it once the chunks are there. */
  lemma {:induction false} ReceivedGrows(cs: seq<Chunk>, n: nat)
    ensures Received(cs, n) <= Payload(cs)
    ensures n >= |Encode(cs, "")| ==> Received(cs, n) == Payload(cs)
  {
    if cs != [] {
      var c := cs[0];
      var head := |LineOf(c)| + 2;
      if n >= head {
        ReceivedGrows(cs[1..], Sub(n, head + |c.data| + 2));
        if n - head < |c.data| {
          ReceivedNothing(cs[1..]);
          assert Received(cs, n) == Take(c.data, n - head) + "";
        }
      }
    }
  }

  lemma CutLine(line: string, v: string, n: nat)
    requires |line| + 2 <= n <= |line| + 2 + |v|
    ensures (line + (['\r', '\n'] + v))[..n] == line + (['\r', '\n'] + v[..n - |line| - 2])
  {
  }

  lemma CutData(d: string, rest: string, m: nat, k: nat)
    requires m <= |d| + 2 + |rest| && k == Sub(m, |d| + 2)
    ensures k <= |rest|
    ensures Take((d + (['\r', '\n'] + rest))[..m], |d|) == Take(d, m)
    ensures Drop((d + (['\r', '\n'] + rest))[..m], |d| + 2) == rest[..k]
  {
  }

  /** A stream cut inside a size line has no line there. */
  lemma CutBefore(c: Chunk, f: string -> Option<int>, v: string, n: nat, s: string)
    requires LineOk(c.size, c.pad, c.ext) && n < |LineOf(c)| + 2 && s == LineOf(c) + (['\r', '\n'] + v)
    ensures Decode(s[..n], f) == ""
  {
    LineFound(c.size, c.pad, c.ext, v);
    assert forall k: nat :: CrLf(s[..n], k) ==> CrLf(s, k) && k < |LineOf(c)|;
    DecodeEnd(s[..n], f);
  }

  lemma CutAfter(c: Chunk, f: string -> Option<int>, rest: string, m: nat, n: nat, k: nat, s: string)
    requires n == |LineOf(c)| + 2 + m
    requires Announces(c, f) && c.data != "" && m <= |c.data| + 2 + |rest| && k == Sub(m, |c.data| + 2)
    requires s == LineOf(c) + (['\r', '\n'] + (c.data + (['\r', '\n'] + rest)))
    ensures k <= |rest| && n <= |s|
    ensures Decode(s[..n], f) == Take(c.data, m) + Decode(rest[..k], f)
  {
    var v := c.data + (['\r', '\n'] + rest);
    CutLine(LineOf(c), v, n);
    CutData(c.data, rest, m, k);
    LineDecodes(c, f, v[..m], s[..n]);
  }

  lemma CutLast(z: Chunk, f: string -> Option<int>, after: string, n: nat)
    requires Announces(z, f) && z.data == "" && n <= |Last(z, after)|
    ensures Decode(Last(z, after)[..n], f) == ""
  {
    var m := |LineOf(z)| + 2;
    if n < m {
      CutBefore(z, f, after, n, Last(z, after));
    } else {
      CutLine(LineOf(z), after, n);
      LineDecodes(z, f, after[..n - m], Last(z, after)[..n]);
    }
  }

  lemma {:induction false} CutDecodes(cs: seq<Chunk>, z: Chunk, after: string, f: string -> Option<int>, n: nat)
    requires (forall c | c in cs :: Announces(c, f) && c.data != "") && Announces(z, f) && z.data == ""
    requires n <= |Encode(cs, Last(z, after))|
    ensures Decode(Encode(cs, Last(z, after))[..n], f) == Received(cs, n)
  {
    if cs == [] {
      CutLast(z, f, after, n);
    } else {
      var c, rest, s := cs[0], Encode(cs[1..], Last(z, after)), Encode(cs, Last(z, after));
      assert c in cs;
      var head := |LineOf(c)| + 2;
      if n < head {
        CutBefore(c, f, c.data + (['\r', '\n'] + rest), n, s);
      } else {
        var m := n - head;
        var k := Sub(m, |c.data| + 2);
        CutAfter(c, f, rest, m, n, k, s);
        CutDecodes(cs[1..], z, after, f, k);
        ReceivedFirst(cs, n, m, k);
      }
    }
  }

  // ---------- the decoder on the coding ----------

  lemma ChunkAnnounces(c: Chunk)
    requires ChunkOk(c)
    ensures Announces(c, SizeOf)
  {
    SizeReads(c.size, c.pad, c.ext);
  }

  /** Decoding undoes the coding: whatever the data hold, line ends and size lines included, and whatever
      follows the chunk of size zero. */
  lemma DecodeEncode(cs: seq<Chunk>, z: Chunk, after: string)
    requires (forall c | c in cs :: ChunkOk(c) && c.data != "") && ChunkOk(z) && z.data == ""
    ensures Decode(Encode(cs, Last(z, after)), SizeOf) == Payload(cs)
  {
    forall c | c in cs ensures Announces(c, SizeOf) {
      ChunkAnnounces(c);
    }
    ChunkAnnounces(z);
    StreamDecodes(cs, z, after, SizeOf);
  }

  /** A stream cut anywhere decodes to exactly the payload that has arrived, a beginning of the whole. */
  lemma DecodeCut(cs: seq<Chunk>, z: Chunk, after: string, n: nat)
    requires (forall c | c in cs :: ChunkOk(c) && c.data != "") && ChunkOk(z) && z.data == ""
    requires n <= |Encode(cs, Last(z, after))|
    ensures Decode(Encode(cs, Last(z, after))[..n], SizeOf) == Received(cs, n) <= Payload(cs)
  {
    forall c | c in cs ensures Announces(c, SizeOf) {
      ChunkAnnounces(c);
    }
    ChunkAnnounces(z);
    CutDecodes(cs, z, after, SizeOf, n);
    ReceivedGrows(cs, n);
  }

  // ---------- sizes as numbers are written ----------

  /** A number in hexadecimal, with the given sixteen digits. */
  function Hexadecimal(digits: string, n: nat): (s: string)
    requires |digits| == 16
    ensures s != ""
  {
    if n < 16 then [digits[n]] else Hexadecimal(digits, n / 16) + [digits[n % 16]]
  }

  lemma HexDigit(digits: string, d: nat)
    requires d < 16 && digits in {"0123456789abcdef", "0123456789ABCDEF"}
    ensures IsHex(digits[d]) && HexOf(digits[d]) == d
  {
    if digits == "0123456789abcdef" {
      HexLower(digits, d);
    } else {
      HexUpper(digits, d);
    }
  }

  lemma HexLower(digits: string, d: nat)
    requires d < 16 && digits == "0123456789abcdef"
    ensures IsHex(digits[d]) && HexOf(digits[d]) == d
  {
    assert digits[0] == '0' && digits[1] == '1' && digits[2] == '2' && digits[3] == '3' && digits[4] == '4';
    assert digits[5] == '5' && digits[6] == '6' && digits[7] == '7' && digits[8] == '8' && digits[9] == '9';
    assert digits[10] == 'a' && digits[11] == 'b' && digits[12] == 'c' && digits[13] == 'd' && digits[14] == 'e';
    assert digits[15] == 'f';
  }

  lemma HexUpper(digits: string, d: nat)
    requires d < 16 && digits == "0123456789ABCDEF"
    ensures IsHex(digits[d]) && HexOf(digits[d]) == d
  {
    assert digits[0] == '0' && digits[1] == '1' && digits[2] == '2' && digits[3] == '3' && digits[4] == '4';
    assert digits[5] == '5' && digits[6] == '6' && digits[7] == '7' && digits[8] == '8' && digits[9] == '9';
    assert digits[10] == 'A' && digits[11] == 'B' && digits[12] == 'C' && digits[13] == 'D' && digits[14] == 'E';
    assert digits[15] == 'F';
  }

  lemma HexLater(s: string, c: char, n: nat, d: nat)
    requires AllHex(s) && HexValue(s) == n && IsHex(c) && HexOf(c) == d
    ensures AllHex(s + [c]) && HexValue(s + [c]) == n * 16 + d
  {
    assert (s + [c])[..|s|] == s;
  }

  /** A number written in hexadecimal, in either case, reads as itself. */
  lemma {:induction false} HexReads(digits: string, n: nat)
    requires digits in {"0123456789abcdef", "0123456789ABCDEF"}
    ensures AllHex(Hexadecimal(digits, n)) && HexValue(Hexadecimal(digits, n)) == n
  {
    HexDigit(digits, n % 16);
    if n < 16 {
      HexLater("", digits[n], 0, n);
      assert [] + [digits[n]] == [digits[n]];
    } else {
      HexReads(digits, n / 16);
      HexLater(Hexadecimal(digits, n / 16), digits[n % 16], n / 16, n % 16);
    }
  }

  lemma NotTrimmed(s: string)
    requires s != "" && !Blank(s[0])
    ensures TrimLeft(s) == s
  {
  }

  lemma SizeSigned(sign: char, size: string, s: string)
    requires size != "" && AllHex(size) && sign in {'+', '-'} && s == [sign] + size
    ensures var n: int := HexValue(size); ParseHex(s) == Some(if sign == '-' then -n else n)
  {
    HexPrefixAll(size);
    NotTrimmed(s);
    assert s[1..] == size;
  }

  lemma SizePrefixed(x: char, size: string, s: string)
    requires size != "" && AllHex(size) && x in {'x', 'X'} && s == ['0', x] + size
    ensures ParseHex(s) == Some(HexValue(size))
  {
    HexPrefixAll(size);
    NotTrimmed(s);
    assert s[2..] == size;
  }

  /** Anything that is not a digit, where the digits should begin, is no number. */
  lemma NoSize(s: string)
    requires s != "" && !Blank(s[0]) && !IsHex(s[0]) && s[0] !in {'+', '-'}
    ensures ParseHex(s) == None
  {
    NotTrimmed(s);
  }

  /** The stream of these data, each with its size in hexadecimal before it, up to the chunk of size zero. */
  function Stream(digits: string, datas: seq<string>): string
    requires |digits| == 16
  {
    if datas == [] then "0\r\n\r\n"
    else Hexadecimal(digits, |datas[0]|) + ("\r\n" + (datas[0] + ("\r\n" + Stream(digits, datas[1..]))))
  }

  function Joined(datas: seq<string>): string {
    if datas == [] then "" else datas[0] + Joined(datas[1..])
  }

  /** The decoder gives back what was sent. */
  lemma {:induction false} SentReceived(digits: string, datas: seq<string>)
    requires digits in {"0123456789abcdef", "0123456789ABCDEF"} && "" !in datas
    ensures Decode(Stream(digits, datas), SizeOf) == Joined(datas)
  {
    if datas == [] {
      var z := Chunk("0", "", "", "");
      assert ChunkOk(z) by {
        assert "0"[..0] == "" && HexValue("") == 0;
      }
      ChunkAnnounces(z);
      assert Stream(digits, []) == LineOf(z) + (['\r', '\n'] + "\r\n");
      LineDecodes(z, SizeOf, "\r\n", Stream(digits, []));
    } else {
      assert datas[0] in datas;
      HexReads(digits, |datas[0]|);
      var c := Chunk(Hexadecimal(digits, |datas[0]|), "", "", datas[0]);
      assert LineOf(c) == c.size && ChunkOk(c);
      ChunkAnnounces(c);
      ChunkDecodes(c, SizeOf, Stream(digits, datas[1..]), Stream(digits, datas));
      SentReceived(digits, datas[1..]);
    }
  }
}
