/** The Redis serialization protocol (RESP2) as redigo's conn prints and parses it,
    on whole byte streams. */
module Resp {
  import opened Decimals

  const CR: Byte := 13
  const LF: Byte := 10
  const CRLF: seq<Byte> := [CR, LF]
  const PLUS: Byte := 43
  const COLON: Byte := 58
  const DOLLAR: Byte := 36
  const STAR: Byte := 42

  /** The bytes of RESP2 are these characters of ASCII. */
  lemma Ascii()
    ensures CR == '\r' as int && LF == '\n' as int && PLUS == '+' as int && MINUS == '-' as int
    ensures COLON == ':' as int && DOLLAR == '$' as int && STAR == '*' as int && ZERO == '0' as int
  {
  }

  datatype Reply =
    | Simple(text: seq<Byte>)
    | Error(message: seq<Byte>)
    | Int(n: int)
    | Bulk(data: seq<Byte>)
    | Nil
    | Array(items: seq<Reply>)

  // ---- printing ----

  /** A server's encoding of a reply: RESP2 "Simple strings", "Errors", "Integers",
      "Bulk strings" and "Arrays". */
  function Encode(r: Reply): (s: seq<Byte>)
    ensures s != []
  {
    match r
    case Simple(t) => [PLUS] + t + CRLF
    case Error(t) => [MINUS] + t + CRLF
    case Int(n) => [COLON] + DecimalInt(n) + CRLF
    case Bulk(d) => Header(DOLLAR, |d|) + d + CRLF
    case Nil => [DOLLAR, MINUS, ZERO + 1] + CRLF
    case Array(items) => Header(STAR, |items|) + EncodeAll(items)
  }

  function EncodeAll(rs: seq<Reply>): seq<Byte> {
    if rs == [] then [] else Encode(rs[0]) + EncodeAll(rs[1..])
  }

  /** What writeLen emits. */
  function Header(prefix: Byte, n: nat): seq<Byte> {
    [prefix] + Decimal(n) + CRLF
  }

  lemma {:induction false} EncodeAllConcat(a: seq<Reply>, b: seq<Reply>)
    ensures EncodeAll(a + b) == EncodeAll(a) + EncodeAll(b)
  {
    if a == [] {
      assert a + b == b;
    } else {
      assert (a + b)[1..] == a[1..] + b;
      EncodeAllConcat(a[1..], b);
    }
  }

  lemma EncodeAllSnoc(rs: seq<Reply>, r: Reply)
    ensures EncodeAll(rs + [r]) == EncodeAll(rs) + Encode(r)
  {
    EncodeAllConcat(rs, [r]);
    assert EncodeAll([r]) == Encode(r) + EncodeAll([]);
  }

  // ---- parsing ----

  /** Where the first line feed is; the length of s when there is none. */
  function FirstLF(s: seq<Byte>): (k: nat)
    ensures k <= |s| && LF !in s[..k] && (k < |s| ==> s[k] == LF)
  {
    if s == [] || s[0] == LF then 0
    else
      var k := FirstLF(s[1..]);
      assert s[..k + 1] == [s[0]] + s[1..][..k];
      k + 1
  }

  lemma {:induction false} FirstLFAt(s: seq<Byte>, k: nat)
    requires k < |s| && s[k] == LF && LF !in s[..k]
    ensures FirstLF(s) == k
  {
    if k > 0 {
      assert s[..k] == [s[0]] + s[1..][..k - 1];
      FirstLFAt(s[1..], k - 1);
    }
  }

  lemma {:induction false} NoLineFeed(s: seq<Byte>)
    requires LF !in s
    ensures FirstLF(s) == |s|
  {
    if s != [] {
      assert s == [s[0]] + s[1..];
      NoLineFeed(s[1..]);
    }
  }

  /** The first line feed has no CR before it. */
  predicate BareLF(s: seq<Byte>) {
    exists k :: 0 <= k < |s| && s[k] == LF && LF !in s[..k] && (k == 0 || s[k - 1] != CR)
  }

  datatype Failure = EndOfStream | BadTerminator | ShortLine | MalformedLength
                   | MalformedInteger | BadBulk | UnexpectedLine

  datatype Line = NoLine(why: Failure) | Line(text: seq<Byte>, rest: seq<Byte>)

  /** readLine: up to the first LF, which CR must precede; without the two. */
  function ReadLine(s: seq<Byte>): (r: Line)
    ensures r.Line? ==> |r.rest| < |s| && LF !in r.text && s == r.text + CRLF + r.rest
  {
    var k := FirstLF(s);
    if k == |s| then NoLine(EndOfStream)
    else if k == 0 || s[k - 1] != CR then NoLine(BadTerminator)
    else
      assert s == s[..k - 1] + CRLF + s[k + 1..];
      assert forall j :: 0 <= j < k - 1 ==> s[..k - 1][j] == s[..k][j];
      Line(s[..k - 1], s[k + 1..])
  }

  datatype Parsed = Fail(why: Failure) | Ok(reply: Reply, rest: seq<Byte>)
  datatype ParsedAll = FailAll(why: Failure) | OkAll(items: seq<Reply>, rest: seq<Byte>)

  /** readReply on a stream that holds s and then ends. */
  function Parse(s: seq<Byte>): (r: Parsed)
    ensures r.Ok? ==> |r.rest| < |s|
    decreases |s|, 0
  {
    match ReadLine(s)
    case NoLine(why) => Fail(why)
    case Line(line, rest) =>
      if line == [] then Fail(ShortLine)
      else if line[0] == PLUS then Ok(Simple(line[1..]), rest)
      else if line[0] == MINUS then Ok(Error(line[1..]), rest)
      else if line[0] == COLON then
        (match ParseInteger(line[1..])
         case BadInteger => Fail(MalformedInteger)
         case Integer(n) => Ok(Int(n), rest))
      else if line[0] == DOLLAR then
        (match ParseLength(line[1..])
         case BadLength => Fail(MalformedLength)
         case Length(n) => if n < 0 then Ok(Nil, rest) else ParseBulk(n, rest))
      else if line[0] == STAR then
        (match ParseLength(line[1..])
         case BadLength => Fail(MalformedLength)
         case Length(n) =>
           if n < 0 then Ok(Nil, rest)
           else
             match ParseMany(n, rest)
             case FailAll(why) => Fail(why)
             case OkAll(items, rest') => Ok(Array(items), rest'))
      else Fail(UnexpectedLine)
  }

  /** The body of a bulk string and the empty line that ends it. */
  function ParseBulk(n: nat, s: seq<Byte>): (r: Parsed)
    ensures r.Ok? ==> |r.rest| < |s|
  {
    if |s| < n then Fail(EndOfStream)
    else
      match ReadLine(s[n..])
      case NoLine(why) => Fail(why)
      case Line(line, rest) => if line != [] then Fail(BadBulk) else Ok(Bulk(s[..n]), rest)
  }

  /** n replies in a row. */
  function ParseMany(n: nat, s: seq<Byte>): (r: ParsedAll)
    ensures r.OkAll? ==> |r.items| == n && |r.rest| <= |s|
    decreases |s|, n
  {
    if n == 0 then OkAll([], s)
    else
      match Parse(s)
      case Fail(why) => FailAll(why)
      case Ok(first, rest) =>
        match ParseMany(n - 1, rest)
        case FailAll(why) => FailAll(why)
        case OkAll(items, rest') => OkAll([first] + items, rest')
  }

  // ---- the round trip ----

  /** What the protocol can carry: no line feed in a line, and 64-bit numbers. */
  ghost predicate Carriable(r: Reply) {
    match r
    case Simple(t) => LF !in t
    case Error(t) => LF !in t
    case Int(n) => Int64(n)
    case Bulk(d) => |d| < TWO_63
    case Nil => true
    case Array(items) => |items| < TWO_63 && forall k :: 0 <= k < |items| ==> Carriable(items[k])
  }

  ghost predicate AllCarriable(rs: seq<Reply>) {
    forall k :: 0 <= k < |rs| ==> Carriable(rs[k])
  }

  lemma ReadLineBack(text: seq<Byte>, rest: seq<Byte>)
    requires LF !in text
    ensures ReadLine(text + CRLF + rest) == Line(text, rest)
  {
    var s := text + CRLF + rest;
    assert s[..|text| + 1] == text + [CR];
    FirstLFAt(s, |text| + 1);
  }

  lemma DigitsHaveNoLF(p: seq<Byte>)
    requires AllDigits(p)
    ensures LF !in p
  {
  }

  /** A length line parses back to its length. */
  lemma HeaderBack(prefix: Byte, n: nat, rest: seq<Byte>)
    requires n < TWO_63 && prefix != LF
    ensures ReadLine(Header(prefix, n) + rest) == Line([prefix] + Decimal(n), rest)
    ensures ParseLength(([prefix] + Decimal(n))[1..]) == Length(n)
  {
    DecimalValue(n);
    LengthRoundTrip(n);
    DigitsHaveNoLF(Decimal(n));
    ReadLineBack([prefix] + Decimal(n), rest);
    assert ([prefix] + Decimal(n))[1..] == Decimal(n);
  }

  lemma TextBack(prefix: Byte, t: seq<Byte>, rest: seq<Byte>)
    requires LF !in t && prefix != LF
    ensures ReadLine([prefix] + t + CRLF + rest) == Line([prefix] + t, rest) && ([prefix] + t)[1..] == t
  {
    ReadLineBack([prefix] + t, rest);
  }

  lemma IntBack(n: int, rest: seq<Byte>)
    requires Int64(n)
    ensures Parse(Encode(Int(n)) + rest) == Ok(Int(n), rest)
  {
    hide ReadLine, Value, Wrap64, ParseLength, ParseInteger;
    DecimalValue(if n < 0 then -n else n);
    IntegerRoundTrip(n);
    TextBack(COLON, DecimalInt(n), rest);
  }

  lemma BulkBodyBack(d: seq<Byte>, rest: seq<Byte>)
    ensures ParseBulk(|d|, d + CRLF + rest) == Ok(Bulk(d), rest)
  {
    var body := d + CRLF + rest;
    assert body[|d|..] == [] + CRLF + rest && body[..|d|] == d;
    ReadLineBack([], rest);
  }

  lemma BulkHeaderBack(n: nat, body: seq<Byte>)
    requires n < TWO_63
    ensures Parse(Header(DOLLAR, n) + body) == ParseBulk(n, body)
  {
    HeaderBack(DOLLAR, n, body);
  }

  lemma BulkShape(d: seq<Byte>, rest: seq<Byte>)
    ensures Encode(Bulk(d)) + rest == Header(DOLLAR, |d|) + (d + CRLF + rest)
  {
  }

  lemma BulkBack(d: seq<Byte>, rest: seq<Byte>)
    requires |d| < TWO_63
    ensures Parse(Encode(Bulk(d)) + rest) == Ok(Bulk(d), rest)
  {
    BulkBodyBack(d, rest);
    BulkHeaderBack(|d|, d + CRLF + rest);
    BulkShape(d, rest);
  }

  lemma LineBack(r: Reply, rest: seq<Byte>)
    requires (r.Simple? && LF !in r.text) || (r.Error? && LF !in r.message) || r.Nil?
    ensures Parse(Encode(r) + rest) == Ok(r, rest)
  {
    match r {
      case Simple(t) => TextBack(PLUS, t, rest);
      case Error(t) => TextBack(MINUS, t, rest);
      case Nil =>
        TextBack(DOLLAR, [MINUS, ZERO + 1], rest);
        assert [DOLLAR] + [MINUS, ZERO + 1] == [DOLLAR, MINUS, ZERO + 1];
    }
  }

  lemma ArrayHeaderBack(n: nat, body: seq<Byte>, items: seq<Reply>, rest: seq<Byte>)
    requires n < TWO_63 && ParseMany(n, body) == OkAll(items, rest)
    ensures Parse(Header(STAR, n) + body) == Ok(Array(items), rest)
  {
    hide ReadLine, ParseLength;
    HeaderBack(STAR, n, body);
  }

  lemma {:induction false} ParseBack(r: Reply, rest: seq<Byte>)
    requires Carriable(r)
    ensures Parse(Encode(r) + rest) == Ok(r, rest)
    decreases r, 0
  {
    match r {
      case Int(n) => IntBack(n, rest);
      case Bulk(d) => BulkBack(d, rest);
      case Array(items) =>
        ParseAllBack(items, rest);
        ArrayHeaderBack(|items|, EncodeAll(items) + rest, items, rest);
        assert Encode(r) + rest == Header(STAR, |items|) + (EncodeAll(items) + rest);
      case _ => LineBack(r, rest);
    }
  }

  lemma {:induction false} ParseAllBack(rs: seq<Reply>, rest: seq<Byte>)
    requires AllCarriable(rs)
    ensures ParseMany(|rs|, EncodeAll(rs) + rest) == OkAll(rs, rest)
    decreases rs, 1
  {
    hide Parse;
    if rs == [] {
      assert EncodeAll(rs) + rest == rest;
    } else {
      assert EncodeAll(rs) + rest == Encode(rs[0]) + (EncodeAll(rs[1..]) + rest);
      ParseBack(rs[0], EncodeAll(rs[1..]) + rest);
      ParseAllBack(rs[1..], rest);
      assert [rs[0]] + rs[1..] == rs;
    }
  }

  /** readReply never returns a reply that the protocol could not have carried. */
  lemma {:induction false} ParsedIsCarriable(s: seq<Byte>)
    requires Parse(s).Ok?
    ensures Carriable(Parse(s).reply)
    decreases |s|, 0
  {
    var line, rest := ReadLine(s).text, ReadLine(s).rest;
    forall b | b in line[1..] ensures b in line {
    }
    if line[0] == STAR {
      var n := ParseLength(line[1..]).n;
      if n >= 0 {
        ParsedAllCarriable(n, rest);
      }
    }
  }

  lemma AllCarriableCons(r: Reply, rs: seq<Reply>)
    requires Carriable(r) && AllCarriable(rs)
    ensures AllCarriable([r] + rs)
  {
  }

  lemma {:induction false} ParsedAllCarriable(n: nat, s: seq<Byte>)
    requires ParseMany(n, s).OkAll?
    ensures AllCarriable(ParseMany(n, s).items)
    decreases |s|, n
  {
    if n > 0 {
      var first := Parse(s);
      ParsedIsCarriable(s);
      ParsedAllCarriable(n - 1, first.rest);
      AllCarriableCons(first.reply, ParseMany(n - 1, first.rest).items);
    }
  }

  /** readReply reads back what a server printed, and leaves exactly what follows it, if
      and only if no line of it contains a line feed and its numbers fit in 64 bits. */
  lemma RoundTrip(r: Reply, rest: seq<Byte>)
    ensures Parse(Encode(r) + rest) == Ok(r, rest) <==> Carriable(r)
  {
    if Carriable(r) {
      ParseBack(r, rest);
    } else if Parse(Encode(r) + rest).Ok? {
      ParsedIsCarriable(Encode(r) + rest);
    }
  }

  lemma BulkHeaderWraps(n: nat, rest: seq<Byte>)
    ensures Parse(Header(DOLLAR, n) + rest) == if Wrap64(n) < 0 then Ok(Nil, rest) else ParseBulk(Wrap64(n), rest)
  {
    DecimalValue(n);
    DigitsHaveNoLF(Decimal(n));
    TextBack(DOLLAR, Decimal(n), rest);
    assert Decimal(n) != [MINUS, ZERO + 1];
  }

  /** A bulk header of any length reads as the null reply if and only if the length, which
      wraps at 64 bits, is negative then; otherwise it reads as a shorter bulk string, if it
      does not fit in 64 bits. */
  lemma WrappedLengthReadsAsNil(n: nat, rest: seq<Byte>)
    ensures Parse(Header(DOLLAR, n) + rest) == Ok(Nil, rest) <==> n % TWO_64 >= TWO_63
    ensures n % TWO_64 < TWO_63 ==> Parse(Header(DOLLAR, n) + rest) == ParseBulk(n % TWO_64, rest)
  {
    hide Parse, Header;
    BulkHeaderWraps(n, rest);
    WrapOfNat(n);
    assert n % TWO_64 < TWO_63 ==> ParseBulk(n % TWO_64, rest) != Ok(Nil, rest);
  }

  lemma WrapOfNat(n: nat)
    ensures Wrap64(n) == if n % TWO_64 < TWO_63 then n % TWO_64 else n % TWO_64 - TWO_64
  {
    WrapShift(n % TWO_64, n / TWO_64);
  }

  // ---- commands ----

  /** A command as it is sent: its name and arguments, all as bulk strings. */
  function CommandReply(words: seq<seq<Byte>>): Reply {
    Array(Bulks(words))
  }

  function Bulks(words: seq<seq<Byte>>): (r: seq<Reply>)
    ensures |r| == |words| && forall k :: 0 <= k < |r| ==> r[k] == Bulk(words[k])
  {
    if words == [] then [] else [Bulk(words[0])] + Bulks(words[1..])
  }

  // Printing the words one by one, behind the header, prints the command.

  lemma PrintedNone(words: seq<seq<Byte>>)
    ensures EncodeAll(Bulks(words)[..0]) == []
  {
  }

  lemma PrintedOneMore(words: seq<seq<Byte>>, i: nat, head: seq<Byte>)
    requires i < |words|
    ensures head + EncodeAll(Bulks(words)[..i]) + Encode(Bulk(words[i])) == head + EncodeAll(Bulks(words)[..i + 1])
  {
    hide *;
    var bulks := Bulks(words);
    assert bulks[i] == Bulk(words[i]);
    TakeOneMore(bulks, i);
    EncodeAllSnoc(bulks[..i], bulks[i]);
    JoinRight(head, EncodeAll(bulks[..i]), Encode(bulks[i]));
  }

  lemma TakeOneMore<T>(s: seq<T>, i: nat)
    requires i < |s|
    ensures s[..i + 1] == s[..i] + [s[i]]
  {
  }

  lemma PrintedWhole(words: seq<seq<Byte>>, before: seq<Byte>)
    ensures before + Header(STAR, |words|) + EncodeAll(Bulks(words)[..|words|])
         == before + Encode(CommandReply(words))
  {
    assert Encode(CommandReply(words)) == Header(STAR, |words|) + EncodeAll(Bulks(words));
    hide *;
    assert Bulks(words)[..|words|] == Bulks(words);
    JoinRight(before, Header(STAR, |words|), EncodeAll(Bulks(words)));
  }

  lemma JoinRight(a: seq<Byte>, b: seq<Byte>, c: seq<Byte>)
    ensures a + b + c == a + (b + c)
  {
  }

  ghost predicate Sendable(words: seq<seq<Byte>>) {
    |words| < TWO_63 && forall k :: 0 <= k < |words| ==> |words[k]| < TWO_63
  }

  /** The bytes of a pipeline of commands. */
  function EncodeCommands(cmds: seq<seq<seq<Byte>>>): seq<Byte> {
    if cmds == [] then [] else Encode(CommandReply(cmds[0])) + EncodeCommands(cmds[1..])
  }

  function CommandReplies(cmds: seq<seq<seq<Byte>>>): (r: seq<Reply>)
    ensures |r| == |cmds| && forall k :: 0 <= k < |r| ==> r[k] == CommandReply(cmds[k])
  {
    if cmds == [] then [] else [CommandReply(cmds[0])] + CommandReplies(cmds[1..])
  }

  lemma {:induction false} EncodeCommandsIsEncodeAll(cmds: seq<seq<seq<Byte>>>)
    ensures EncodeCommands(cmds) == EncodeAll(CommandReplies(cmds))
  {
    if cmds != [] {
      EncodeCommandsIsEncodeAll(cmds[1..]);
      assert CommandReplies(cmds)[1..] == CommandReplies(cmds[1..]);
    }
  }

  lemma SendableIsCarriable(words: seq<seq<Byte>>)
    requires Sendable(words)
    ensures Carriable(CommandReply(words))
  {
  }

  /** A pipeline of commands, whatever bytes its arguments hold, parses back in order. */
  lemma PipelineParsesBack(cmds: seq<seq<seq<Byte>>>, rest: seq<Byte>)
    requires forall k :: 0 <= k < |cmds| ==> Sendable(cmds[k])
    ensures ParseMany(|cmds|, EncodeCommands(cmds) + rest) == OkAll(CommandReplies(cmds), rest)
  {
    hide ParseMany, EncodeAll, EncodeCommands;
    forall k | 0 <= k < |cmds| ensures Carriable(CommandReplies(cmds)[k]) {
      SendableIsCarriable(cmds[k]);
    }
    EncodeCommandsIsEncodeAll(cmds);
    ParseAllBack(CommandReplies(cmds), rest);
  }

  // ---- more bytes behind a reply do not change it ----

  lemma ReadLineExtends(s: seq<Byte>, t: seq<Byte>)
    requires ReadLine(s).Line?
    ensures ReadLine(s + t) == Line(ReadLine(s).text, ReadLine(s).rest + t)
  {
    var l := ReadLine(s);
    assert s + t == l.text + CRLF + (l.rest + t);
    ReadLineBack(l.text, l.rest + t);
  }

  lemma BulkExtends(n: nat, s: seq<Byte>, t: seq<Byte>)
    requires ParseBulk(n, s).Ok?
    ensures ParseBulk(n, s + t) == Ok(ParseBulk(n, s).reply, ParseBulk(n, s).rest + t)
  {
    assert (s + t)[n..] == s[n..] + t && (s + t)[..n] == s[..n];
    ReadLineExtends(s[n..], t);
  }

  /** A reply is recognised as soon as its last byte is there. */
  lemma {:induction false} ParseExtends(s: seq<Byte>, t: seq<Byte>)
    requires Parse(s).Ok?
    ensures Parse(s + t) == Ok(Parse(s).reply, Parse(s).rest + t)
    decreases |s|, 0
  {
    ReadLineExtends(s, t);
    var line, rest := ReadLine(s).text, ReadLine(s).rest;
    if line[0] == DOLLAR && ParseLength(line[1..]).n >= 0 {
      BulkExtends(ParseLength(line[1..]).n, rest, t);
    } else if line[0] == STAR && ParseLength(line[1..]).n >= 0 {
      ParseManyExtends(ParseLength(line[1..]).n, rest, t);
    }
  }

  lemma {:induction false} ParseManyExtends(n: nat, s: seq<Byte>, t: seq<Byte>)
    requires ParseMany(n, s).OkAll?
    ensures ParseMany(n, s + t) == OkAll(ParseMany(n, s).items, ParseMany(n, s).rest + t)
    decreases |s|, n
  {
    hide Parse;
    if n > 0 {
      ParseExtends(s, t);
      var p, p' := Parse(s), Parse(s + t);
      ParseManyExtends(n - 1, p.rest, t);
      assert p'.reply == p.reply && ParseMany(n - 1, p'.rest).items == ParseMany(n - 1, p.rest).items;
    }
  }

  // ---- and fewer bytes only mean that the stream has ended ----

  lemma {:induction false} FirstLFTruncated(s: seq<Byte>, t: seq<Byte>)
    ensures if FirstLF(s) < |s| then FirstLF(s + t) == FirstLF(s) else FirstLF(s + t) >= |s|
  {
    if s != [] {
      assert (s + t)[1..] == s[1..] + t;
      FirstLFTruncated(s[1..], t);
    }
  }

  /** A line of s + t lies within s, or s has no line at all. */
  lemma ReadLineTruncated(s: seq<Byte>, t: seq<Byte>)
    requires ReadLine(s + t).Line?
    ensures var l := ReadLine(s + t);
      if |l.rest| >= |t| then ReadLine(s).Line? && l == Line(ReadLine(s).text, ReadLine(s).rest + t)
      else ReadLine(s) == NoLine(EndOfStream)
  {
    var k := FirstLF(s);
    FirstLFTruncated(s, t);
    if k < |s| {
      assert (s + t)[k + 1..] == s[k + 1..] + t;
      assert k > 0 ==> (s + t)[..k - 1] == s[..k - 1];
    }
  }

  lemma BulkTruncated(n: nat, s: seq<Byte>, t: seq<Byte>)
    requires ParseBulk(n, s + t).Ok?
    ensures var p := ParseBulk(n, s + t);
      if |p.rest| >= |t| then ParseBulk(n, s).Ok? && p == Ok(ParseBulk(n, s).reply, ParseBulk(n, s).rest + t)
      else ParseBulk(n, s) == Fail(EndOfStream)
  {
    if n <= |s| {
      assert (s + t)[n..] == s[n..] + t && (s + t)[..n] == s[..n];
      ReadLineTruncated(s[n..], t);
    }
  }

  /** When the reader succeeds on s + t, then on s alone it either succeeds with the same
      reply, or it asks for more bytes: never a wrong reply or another error. */
  lemma {:induction false} ParseTruncated(s: seq<Byte>, t: seq<Byte>)
    requires Parse(s + t).Ok?
    ensures var p := Parse(s + t);
      if |p.rest| >= |t| then Parse(s).Ok? && p == Ok(Parse(s).reply, Parse(s).rest + t)
      else Parse(s) == Fail(EndOfStream)
    decreases |s|, 0
  {
    ReadLineTruncated(s, t);
    if ReadLine(s).Line? {
      var line, rest := ReadLine(s).text, ReadLine(s).rest;
      if line[0] == DOLLAR && ParseLength(line[1..]).n >= 0 {
        BulkTruncated(ParseLength(line[1..]).n, rest, t);
      } else if line[0] == STAR && ParseLength(line[1..]).n >= 0 {
        ParseManyTruncated(ParseLength(line[1..]).n, rest, t);
      }
    }
  }

  lemma {:induction false} ParseManyTruncated(n: nat, s: seq<Byte>, t: seq<Byte>)
    requires ParseMany(n, s + t).OkAll?
    ensures var p := ParseMany(n, s + t);
      if |p.rest| >= |t| then ParseMany(n, s).OkAll? && p == OkAll(ParseMany(n, s).items, ParseMany(n, s).rest + t)
      else ParseMany(n, s) == FailAll(EndOfStream)
    decreases |s|, n
  {
    hide Parse;
    if n > 0 {
      var p := Parse(s + t);
      ParseTruncated(s, t);
      if |p.rest| >= |t| {
        ParseManyTruncated(n - 1, Parse(s).rest, t);
      }
    }
  }

  /** So on every proper prefix of a reply's encoding the reader waits for more. */
  lemma PrefixesAskForMore(r: Reply, k: nat)
    requires Carriable(r) && k < |Encode(r)|
    ensures Parse(Encode(r)[..k]) == Fail(EndOfStream)
  {
    var s, t := Encode(r)[..k], Encode(r)[k..];
    assert s + t == Encode(r) == Encode(r) + [];
    ParseBack(r, []);
    ParseTruncated(s, t);
  }
}
