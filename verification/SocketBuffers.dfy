/** redis-py's SocketBuffer and PythonParser: a buffered reader that sees the stream of a
    connection in whatever chunks the socket delivers. */
module SocketBuffers {
  import opened Basics
  import opened Decimals
  import opened Resp

  // ---- what the calls return, on the whole unconsumed stream ----

  datatype Problem = ServerClosed | EmptyLine | InvalidResponse | ValueError | NoParseError

  datatype Fetched = Bytes(data: seq<Byte>, rest: seq<Byte>) | NotFetched(why: Problem)

  /** data[:-2]. */
  function DropTwo(data: seq<Byte>): seq<Byte> {
    if |data| < 2 then [] else data[..|data| - 2]
  }

  /** What read(length) returns.  A negative count makes BytesIO return all it holds, so
      for lengths below -2 the split of the stream matters. */
  function ReadSpec(buffered: seq<Byte>, arriving: seq<Byte>, length: int): Fetched {
    var n, s := length + 2, buffered + arriving;
    if n < 0 then Bytes(DropTwo(buffered), arriving)
    else if n <= |s| then Bytes(DropTwo(s[..n]), s[n..])
    else NotFetched(ServerClosed)
  }

  /** What readline() returns: a first line feed without CR before it is never accepted. */
  function LineSpec(s: seq<Byte>): Fetched {
    match ReadLine(s)
    case Line(text, rest) => Bytes(text, rest)
    case NoLine(_) => NotFetched(ServerClosed)
  }

  /** read is a function of the stream alone if and only if the length is at least -2. */
  lemma ReadIgnoresChunksIff(length: int)
    ensures (forall b, a, b', a' :: b + a == b' + a' ==> ReadSpec(b, a, length) == ReadSpec(b', a', length))
       <==> length >= -2
  {
    if length < -2 {
      var s: seq<Byte> := [CR, CR, LF];
      assert s + [] == [] + s;
      assert ReadSpec(s, [], length) == Bytes([CR], []) && ReadSpec([], s, length) == Bytes([], s);
    }
  }

  // ---- what read_response returns ----

  datatype Value =
    | Null
    | Text(data: seq<Byte>)
    | Number(n: int)
    | List(items: seq<Value>)
    | ResponseError(message: seq<Byte>)

  /** Unsettled: a bulk length below -2 is met with bytes behind it. */
  datatype Response = Got(value: Value, rest: seq<Byte>) | Raised(why: Problem) | Unsettled
  datatype Responses = GotAll(items: seq<Value>, rest: seq<Byte>) | RaisedOne(why: Problem) | UnsettledOne

  /** read_response; toInt is Python's int() on the text of a line. */
  function ParseResponse(toInt: seq<Byte> -> Option<int>, s: seq<Byte>): (r: Response)
    ensures r.Got? ==> |r.rest| < |s|
    decreases |s|, 0, 0
  {
    match ReadLine(s)
    case NoLine(_) => Raised(ServerClosed)
    case Line(line, rest) =>
      if line == [] then Raised(EmptyLine)
      else if line[0] == MINUS then Raised(NoParseError)
      else if line[0] == PLUS then Got(Text(line[1..]), rest)
      else if line[0] !in {COLON, DOLLAR, STAR} then Raised(InvalidResponse)
      else
        match toInt(line[1..])
        case None => Raised(ValueError)
        case Some(n) =>
          if line[0] == COLON then Got(Number(n), rest)
          else ParseBody(toInt, line[0], n, rest)
  }

  /** What follows a bulk or array header. */
  function ParseBody(toInt: seq<Byte> -> Option<int>, prefix: Byte, n: int, s: seq<Byte>): (r: Response)
    ensures r.Got? ==> |r.rest| <= |s|
    decreases |s|, if n < 0 then 0 else n, 1
  {
    if n == -1 then Got(Null, s)
    else if prefix == DOLLAR then ParseText(n, s)
    else
      match ParseItems(toInt, if n < 0 then 0 else n, s)
      case GotAll(items, rest) => Got(List(items), rest)
      case RaisedOne(why) => Raised(why)
      case UnsettledOne => Unsettled
  }

  /** The body of a bulk string; its last two bytes are dropped unseen. */
  function ParseText(n: int, s: seq<Byte>): (r: Response)
    ensures r.Got? ==> |r.rest| <= |s|
  {
    if n < -2 then (if s == [] then Got(Text([]), []) else Unsettled)
    else
      match ReadSpec(s, [], n)
      case Bytes(data, rest) => Got(Text(data), rest)
      case NotFetched(why) => Raised(why)
  }

  function ParseItems(toInt: seq<Byte> -> Option<int>, n: nat, s: seq<Byte>): (r: Responses)
    ensures r.GotAll? ==> |r.items| == n && |r.rest| <= |s|
    decreases |s|, n, 0
  {
    if n == 0 then GotAll([], s)
    else
      match ParseResponse(toInt, s)
      case Raised(why) => RaisedOne(why)
      case Unsettled => UnsettledOne
      case Got(first, rest) => Before([first], ParseItems(toInt, n - 1, rest))
  }

  function Before(items: seq<Value>, r: Responses): Responses {
    if r.GotAll? then GotAll(items + r.items, r.rest) else r
  }

  lemma BeforeBefore(a: seq<Value>, b: seq<Value>, r: Responses)
    ensures Before(a, Before(b, r)) == Before(a + b, r)
  {
    if r.GotAll? {
      assert a + (b + r.items) == a + b + r.items;
    }
  }

  // ---- what read_response may return, over all ways to deliver the stream ----

  /** A length below -2 gets whatever is buffered when it is read: any first part of s. */
  ghost predicate MayText(n: int, s: seq<Byte>, r: Response) {
    if n < -2 then exists k: nat :: k <= |s| && r == Got(Text(DropTwo(s[..k])), s[k..]) else r == ParseText(n, s)
  }

  ghost predicate May(toInt: seq<Byte> -> Option<int>, s: seq<Byte>, r: Response)
    decreases |s|, 0, 0
  {
    match ReadLine(s)
    case NoLine(_) => r == ParseResponse(toInt, s)
    case Line(line, rest) =>
      if line == [] || line[0] !in {DOLLAR, STAR} || toInt(line[1..]).None? then r == ParseResponse(toInt, s)
      else MayBody(toInt, line[0], toInt(line[1..]).value, rest, r)
  }

  ghost predicate MayBody(toInt: seq<Byte> -> Option<int>, prefix: Byte, n: int, s: seq<Byte>, r: Response)
    decreases |s|, if n < 0 then 0 else n, 1
  {
    if n == -1 then r == Got(Null, s)
    else if prefix == DOLLAR then MayText(n, s, r)
    else exists q: Responses :: MayItems(toInt, if n < 0 then 0 else n, s, q) && r == Listed(q)
  }

  function Listed(q: Responses): Response {
    match q
    case GotAll(items, rest) => Got(List(items), rest)
    case RaisedOne(why) => Raised(why)
    case UnsettledOne => Unsettled
  }

  ghost predicate MayItems(toInt: seq<Byte> -> Option<int>, n: nat, s: seq<Byte>, q: Responses)
    decreases |s|, n, 0
  {
    if n == 0 then q == GotAll([], s)
    else exists first: Response :: May(toInt, s, first) && MayGoOn(toInt, n - 1, s, first, q)
  }

  /** What may become of a list whose first item was read. */
  ghost predicate MayGoOn(toInt: seq<Byte> -> Option<int>, n: nat, s: seq<Byte>, first: Response, q: Responses)
    decreases |s|, n, 1
  {
    match first
    case Got(v, rest) => |rest| < |s| && exists more: Responses :: MayItems(toInt, n, rest, more) && q == Before([v], more)
    case Raised(why) => q == RaisedOne(why)
    case Unsettled => false
  }

  /** Unless a length below -2 is met with bytes behind it, there is one answer for all
      deliveries: what the stream parses to. */
  lemma {:induction false} OneAnswer(toInt: seq<Byte> -> Option<int>, s: seq<Byte>, r: Response)
    requires May(toInt, s, r) && !ParseResponse(toInt, s).Unsettled?
    ensures r == ParseResponse(toInt, s)
    decreases |s|, 0, 0
  {
    if ReadLine(s).Line? {
      var line, rest := ReadLine(s).text, ReadLine(s).rest;
      if line != [] && line[0] in {DOLLAR, STAR} && toInt(line[1..]).Some? {
        OneBody(toInt, line[0], toInt(line[1..]).value, rest, r);
      }
    }
  }

  lemma {:induction false} OneBody(toInt: seq<Byte> -> Option<int>, prefix: Byte, n: int, s: seq<Byte>, r: Response)
    requires MayBody(toInt, prefix, n, s, r) && !ParseBody(toInt, prefix, n, s).Unsettled?
    ensures r == ParseBody(toInt, prefix, n, s)
    decreases |s|, if n < 0 then 0 else n, 1
  {
    if n != -1 && prefix != DOLLAR {
      var q: Responses :| MayItems(toInt, if n < 0 then 0 else n, s, q) && r == Listed(q);
      OneList(toInt, if n < 0 then 0 else n, s, q);
    }
  }

  lemma {:induction false} OneList(toInt: seq<Byte> -> Option<int>, n: nat, s: seq<Byte>, q: Responses)
    requires MayItems(toInt, n, s, q) && !ParseItems(toInt, n, s).UnsettledOne?
    ensures q == ParseItems(toInt, n, s)
    decreases |s|, n, 0
  {
    if n > 0 {
      var first: Response :| May(toInt, s, first) && MayGoOn(toInt, n - 1, s, first, q);
      OneAnswer(toInt, s, first);
      if first.Got? {
        var more: Responses :| MayItems(toInt, n - 1, first.rest, more) && q == Before([first.value], more);
        OneList(toInt, n - 1, first.rest, more);
      }
    }
  }

  /** All deliveries of the stream have the same answer. */
  ghost predicate SameForAll(toInt: seq<Byte> -> Option<int>, s: seq<Byte>) {
    forall r: Response, r': Response :: May(toInt, s, r) && May(toInt, s, r') ==> r == r'
  }

  lemma TwoAnswers(toInt: seq<Byte> -> Option<int>, s: seq<Byte>, r: Response, r': Response)
    requires May(toInt, s, r) && May(toInt, s, r') && r != r'
    ensures !SameForAll(toInt, s)
  {
  }

  lemma HeaderLine(toInt: seq<Byte> -> Option<int>, text: seq<Byte>, n: int, rest: seq<Byte>)
    requires LF !in text && toInt(text) == Some(n) && n != -1
    ensures ReadLine([DOLLAR] + text + CRLF + rest) == Line([DOLLAR] + text, rest) && ([DOLLAR] + text)[1..] == text
    ensures ParseResponse(toInt, [DOLLAR] + text + CRLF + rest) == ParseText(n, rest)
    ensures forall r: Response :: May(toInt, [DOLLAR] + text + CRLF + rest, r) <==> MayText(n, rest, r)
  {
    TextBack(DOLLAR, text, rest);
  }

  /** For a bulk string the answer is the same for all deliveries if and only if its length
      is at least -2 or nothing follows the header. */
  lemma BulkSettledIff(toInt: seq<Byte> -> Option<int>, text: seq<Byte>, n: int, rest: seq<Byte>)
    requires LF !in text && toInt(text) == Some(n)
    ensures var s := [DOLLAR] + text + CRLF + rest;
      && (SameForAll(toInt, s) <==> n >= -2 || rest == [])
      && (ParseResponse(toInt, s).Unsettled? <==> !(n >= -2 || rest == []))
  {
    var s := [DOLLAR] + text + CRLF + rest;
    if n >= -2 || rest == [] {
      if n == -1 {
        TextBack(DOLLAR, text, rest);
      } else {
        HeaderLine(toInt, text, n, rest);
      }
      forall r: Response, r': Response | May(toInt, s, r) && May(toInt, s, r') ensures r == r' {
        OneAnswer(toInt, s, r);
        OneAnswer(toInt, s, r');
      }
    } else {
      HeaderLine(toInt, text, n, rest);
      var none, all := Got(Text(DropTwo(rest[..0])), rest[0..]), Got(Text(DropTwo(rest[..|rest|])), rest[|rest|..]);
      assert MayText(n, rest, none) && MayText(n, rest, all);
      assert none.rest == rest && all.rest == [];
      TwoAnswers(toInt, s, none, all);
    }
  }

  // ---- what each first line gives, and each failure ----

  /** A first line that ends as it should, and what int() makes of its text, decide the
      response, except for the body of a string or list. */
  lemma ByFirstLine(toInt: seq<Byte> -> Option<int>, line: seq<Byte>, rest: seq<Byte>)
    requires LF !in line
    ensures var p := ParseResponse(toInt, line + CRLF + rest);
      if line == [] then p == Raised(EmptyLine)
      else
        var byte, text := line[0], line[1..];
        && (byte == PLUS ==> p == Got(Text(text), rest))
        && (byte == MINUS ==> p == Raised(NoParseError))
        && (byte !in {PLUS, MINUS, COLON, DOLLAR, STAR} ==> p == Raised(InvalidResponse))
        && (byte in {COLON, DOLLAR, STAR} && toInt(text) == None ==> p == Raised(ValueError))
        && (byte == COLON && toInt(text).Some? ==> p == Got(Number(toInt(text).value), rest))
        && (byte in {DOLLAR, STAR} && toInt(text) == Some(-1) ==> p == Got(Null, rest))
        && (byte == STAR && toInt(text).Some? && toInt(text).value < -1 ==> p == Got(List([]), rest))
        && (byte == DOLLAR && toInt(text) == Some(-2) ==> p == Got(Text([]), rest))
  {
    ReadLineBack(line, rest);
    assert rest + [] == rest && rest[0..] == rest;
    assert ParseItems(toInt, 0, rest) == GotAll([], rest);
  }

  /** Without a first line that ends in CRLF the stream is read to its end. */
  lemma NoFirstLine(toInt: seq<Byte> -> Option<int>, s: seq<Byte>)
    ensures LF !in s ==> ParseResponse(toInt, s) == Raised(ServerClosed)
    ensures BareLF(s) ==> ParseResponse(toInt, s) == Raised(ServerClosed)
  {
    if LF !in s {
      NoLineFeed(s);
    } else if k :| 0 <= k < |s| && s[k] == LF && LF !in s[..k] && (k == 0 || s[k - 1] != CR) {
      FirstLFAt(s, k);
    }
  }

  /** The body of a bulk string: its bytes and two more that nobody looks at, or too few. */
  lemma TextBody(toInt: seq<Byte> -> Option<int>, text: seq<Byte>, n: nat, data: seq<Byte>, end: seq<Byte>, rest: seq<Byte>)
    requires LF !in text && toInt(text) == Some(n) && |data| == n && |end| == 2
    ensures ParseResponse(toInt, [DOLLAR] + text + CRLF + (data + end + rest)) == Got(Text(data), rest)
    ensures forall short: seq<Byte> :: |short| < n + 2 ==>
      ParseResponse(toInt, [DOLLAR] + text + CRLF + short) == Raised(ServerClosed)
  {
    var body := data + end + rest;
    HeaderLine(toInt, text, n, body);
    assert body + [] == body && body[n + 2..] == rest && DropTwo(body[..n + 2]) == data;
    forall short: seq<Byte> | |short| < n + 2
      ensures ParseResponse(toInt, [DOLLAR] + text + CRLF + short) == Raised(ServerClosed)
    {
      HeaderLine(toInt, text, n, short);
    }
  }

  /** A list fails as its first item that fails. */
  lemma {:induction false} ListFails(toInt: seq<Byte> -> Option<int>, n: nat, s: seq<Byte>, before: seq<Value>, bad: seq<Byte>)
    requires |before| < n && ParseResponse(toInt, bad).Raised?
    requires ParseItems(toInt, |before|, s) == GotAll(before, bad)
    ensures ParseItems(toInt, n, s) == RaisedOne(ParseResponse(toInt, bad).why)
    decreases |before|
  {
    hide ParseResponse;
    if before != [] {
      var first := ParseResponse(toInt, s);
      var q := ParseItems(toInt, |before| - 1, first.rest);
      assert before[1..] == q.items;
      ListFails(toInt, n - 1, first.rest, before[1..], bad);
    }
  }

  // ---- reading back what a server sends ----

  ghost predicate ReadsDecimals(toInt: seq<Byte> -> Option<int>) {
    forall n: int :: toInt(DecimalInt(n)) == Some(n)
  }

  /** Simple and bulk strings both arrive as bytes. */
  function AsValue(r: Reply): Value {
    match r
    case Simple(t) => Text(t)
    case Error(t) => ResponseError(t)
    case Int(n) => Number(n)
    case Bulk(d) => Text(d)
    case Nil => Null
    case Array(items) => List(AsValues(items))
  }

  function AsValues(rs: seq<Reply>): seq<Value> {
    if rs == [] then [] else [AsValue(rs[0])] + AsValues(rs[1..])
  }

  /** No error anywhere and no line feed in a simple string. */
  ghost predicate Readable(r: Reply) {
    match r
    case Simple(t) => LF !in t
    case Error(_) => false
    case Array(items) => forall k :: 0 <= k < |items| ==> Readable(items[k])
    case _ => true
  }

  /** A line that int() reads as n. */
  lemma NumberLine(toInt: seq<Byte> -> Option<int>, prefix: Byte, n: int, rest: seq<Byte>)
    requires ReadsDecimals(toInt) && prefix != LF
    ensures ReadLine([prefix] + DecimalInt(n) + CRLF + rest) == Line([prefix] + DecimalInt(n), rest)
    ensures toInt(([prefix] + DecimalInt(n))[1..]) == Some(n)
  {
    DecimalValue(if n < 0 then -n else n);
    TextBack(prefix, DecimalInt(n), rest);
  }

  lemma NilBack(toInt: seq<Byte> -> Option<int>, rest: seq<Byte>)
    requires ReadsDecimals(toInt)
    ensures ParseResponse(toInt, Encode(Nil) + rest) == Got(Null, rest)
  {
    assert [DOLLAR] + DecimalInt(-1) == [DOLLAR, MINUS, ZERO + 1];
    NumberLine(toInt, DOLLAR, -1, rest);
  }

  lemma TextBodyBack(d: seq<Byte>, rest: seq<Byte>)
    ensures ParseText(|d|, d + CRLF + rest) == Got(Text(d), rest)
  {
    var body := d + CRLF + rest;
    assert body + [] == body && body[|d| + 2..] == rest && DropTwo(body[..|d| + 2]) == d;
  }

  lemma TextHeaderBack(toInt: seq<Byte> -> Option<int>, n: nat, body: seq<Byte>)
    requires ReadsDecimals(toInt)
    ensures ParseResponse(toInt, Header(DOLLAR, n) + body) == ParseText(n, body)
  {
    NumberLine(toInt, DOLLAR, n, body);
  }

  lemma ListHeaderBack(toInt: seq<Byte> -> Option<int>, n: nat, body: seq<Byte>)
    requires ReadsDecimals(toInt)
    ensures var r := ParseResponse(toInt, Header(STAR, n) + body);
      var q := ParseItems(toInt, n, body);
      r.Got? == q.GotAll? && (r.Got? ==> r == Got(List(q.items), q.rest))
  {
    hide ReadLine, ParseText, Decimal;
    assert DecimalInt(n) == Decimal(n);
    NumberLine(toInt, STAR, n, body);
  }

  lemma ListBack(toInt: seq<Byte> -> Option<int>, items: seq<Reply>, rest: seq<Byte>)
    requires ReadsDecimals(toInt)
    ensures var r := ParseResponse(toInt, Encode(Array(items)) + rest);
      var q := ParseItems(toInt, |items|, EncodeAll(items) + rest);
      r.Got? == q.GotAll? && (r.Got? ==> r == Got(List(q.items), q.rest))
  {
    assert Encode(Array(items)) + rest == Header(STAR, |items|) + (EncodeAll(items) + rest);
    ListHeaderBack(toInt, |items|, EncodeAll(items) + rest);
  }

  lemma ScalarBack(toInt: seq<Byte> -> Option<int>, r: Reply, rest: seq<Byte>)
    requires ReadsDecimals(toInt) && !r.Array? && Readable(r)
    ensures ParseResponse(toInt, Encode(r) + rest) == Got(AsValue(r), rest)
  {
    match r {
      case Simple(t) => TextBack(PLUS, t, rest);
      case Int(n) => NumberLine(toInt, COLON, n, rest);
      case Nil => NilBack(toInt, rest);
      case Bulk(d) =>
        TextBodyBack(d, rest);
        TextHeaderBack(toInt, |d|, d + CRLF + rest);
        BulkShape(d, rest);
    }
  }

  lemma {:induction false} ResponseBack(toInt: seq<Byte> -> Option<int>, r: Reply, rest: seq<Byte>)
    requires ReadsDecimals(toInt) && Readable(r)
    ensures ParseResponse(toInt, Encode(r) + rest) == Got(AsValue(r), rest)
    decreases r, 0
  {
    if r.Array? {
      ItemsBack(toInt, r.items, rest);
      ListBack(toInt, r.items, rest);
    } else {
      ScalarBack(toInt, r, rest);
    }
  }

  lemma {:induction false} ItemsBack(toInt: seq<Byte> -> Option<int>, rs: seq<Reply>, rest: seq<Byte>)
    requires ReadsDecimals(toInt) && forall k :: 0 <= k < |rs| ==> Readable(rs[k])
    ensures ParseItems(toInt, |rs|, EncodeAll(rs) + rest) == GotAll(AsValues(rs), rest)
    decreases rs, 1
  {
    hide ParseResponse, Readable, Encode;
    if rs == [] {
      assert EncodeAll(rs) + rest == rest;
    } else {
      var tail := EncodeAll(rs[1..]) + rest;
      assert EncodeAll(rs) + rest == Encode(rs[0]) + tail;
      ResponseBack(toInt, rs[0], tail);
      ItemsBack(toInt, rs[1..], rest);
    }
  }

  lemma OnlyReadableText(toInt: seq<Byte> -> Option<int>, r: Reply, rest: seq<Byte>)
    requires r.Simple? || r.Error?
    requires var p := ParseResponse(toInt, Encode(r) + rest); p.Got? && p.value == AsValue(r)
    ensures Readable(r)
  {
    var s := Encode(r) + rest;
    var line := ReadLine(s).text;
    assert line[0] == s[0];
    assert forall b :: b in line[1..] ==> b in line;
  }

  lemma {:induction false} OnlyReadable(toInt: seq<Byte> -> Option<int>, r: Reply, rest: seq<Byte>)
    requires ReadsDecimals(toInt)
    requires var p := ParseResponse(toInt, Encode(r) + rest); p.Got? && p.value == AsValue(r)
    ensures Readable(r)
    decreases r, 0
  {
    if r.Simple? || r.Error? {
      OnlyReadableText(toInt, r, rest);
    } else if r.Array? {
      ListBack(toInt, r.items, rest);
      OnlyReadableItems(toInt, r.items, rest);
    }
  }

  lemma {:induction false} OnlyReadableItems(toInt: seq<Byte> -> Option<int>, rs: seq<Reply>, rest: seq<Byte>)
    requires ReadsDecimals(toInt)
    requires var p := ParseItems(toInt, |rs|, EncodeAll(rs) + rest); p.GotAll? && p.items == AsValues(rs)
    ensures forall k :: 0 <= k < |rs| ==> Readable(rs[k])
    decreases rs, 1
  {
    hide ParseResponse, Readable, Encode;
    if rs != [] {
      var tail := EncodeAll(rs[1..]) + rest;
      assert EncodeAll(rs) + rest == Encode(rs[0]) + tail;
      var p := ParseResponse(toInt, Encode(rs[0]) + tail);
      var q := ParseItems(toInt, |rs| - 1, p.rest);
      assert ([p.value] + q.items)[0] == AsValues(rs)[0] && ([p.value] + q.items)[1..] == AsValues(rs)[1..];
      OnlyReadable(toInt, rs[0], tail);
      ResponseBack(toInt, rs[0], tail);
      OnlyReadableItems(toInt, rs[1..], rest);
      forall k | 0 <= k < |rs| ensures Readable(rs[k]) {
        assert k > 0 ==> rs[k] == rs[1..][k - 1];
      }
    }
  }

  /** redis-py reads a server's reply back, and leaves exactly what follows it, if and only
      if the reply holds no error and no simple string with a line feed. */
  lemma ResponseRoundTrip(toInt: seq<Byte> -> Option<int>, r: Reply, rest: seq<Byte>)
    requires ReadsDecimals(toInt)
    ensures ParseResponse(toInt, Encode(r) + rest) == Got(AsValue(r), rest) <==> Readable(r)
  {
    if Readable(r) {
      ResponseBack(toInt, r, rest);
    } else if ParseResponse(toInt, Encode(r) + rest) == Got(AsValue(r), rest) {
      OnlyReadable(toInt, r, rest);
    }
  }

  // ---- the reader ----

  datatype Data = Data(bytes: seq<Byte>) | NoData(why: Problem) | LateData
  datatype Result = Returned(value: Value) | Failed(why: Problem) | Late

  /** The outcome of a call in which the socket did not time out. */
  function Outcome(r: Result, rest: seq<Byte>): Response
    requires !r.Late?
  {
    if r.Returned? then Got(r.value, rest) else Raised(r.why)
  }

  datatype Items = Items(items: seq<Value>) | NoItems(why: Problem) | LateItems

  function Outcomes(r: Items, rest: seq<Byte>): Responses
    requires !r.LateItems?
  {
    if r.Items? then GotAll(r.items, rest) else RaisedOne(r.why)
  }

  /** The items read so far may be the start of the list that the stream s0 holds. */
  ghost predicate SoFar(toInt: seq<Byte> -> Option<int>, n: nat, s0: seq<Byte>, left: nat, s: seq<Byte>, items: seq<Value>) {
    forall more: Responses :: MayItems(toInt, left, s, more) ==> MayItems(toInt, n, s0, Before(items, more))
  }

  lemma SoFarNothing(toInt: seq<Byte> -> Option<int>, n: nat, s: seq<Byte>)
    ensures SoFar(toInt, n, s, n, s, [])
  {
    forall more: Responses | MayItems(toInt, n, s, more) ensures MayItems(toInt, n, s, Before([], more)) {
      assert Before([], more) == more;
    }
  }

  lemma SoFarOneMore(toInt: seq<Byte> -> Option<int>, n: nat, s0: seq<Byte>, left: nat, s: seq<Byte>, items: seq<Value>,
                     first: Response)
    requires SoFar(toInt, n, s0, left, s, items) && left > 0 && May(toInt, s, first)
    ensures first.Got? && |first.rest| < |s| ==> SoFar(toInt, n, s0, left - 1, first.rest, items + [first.value])
    ensures first.Raised? ==> MayItems(toInt, n, s0, RaisedOne(first.why))
  {
    hide May;
    if first.Got? && |first.rest| < |s| {
      forall more: Responses | MayItems(toInt, left - 1, first.rest, more)
        ensures MayItems(toInt, n, s0, Before(items + [first.value], more))
      {
        var q := Before([first.value], more);
        assert MayGoOn(toInt, left - 1, s, first, q);
        assert MayItems(toInt, left, s, q);
        BeforeBefore(items, [first.value], more);
      }
    }
    if first.Raised? {
      assert MayGoOn(toInt, left - 1, s, first, RaisedOne(first.why));
      assert MayItems(toInt, left, s, RaisedOne(first.why));
      assert Before(items, RaisedOne(first.why)) == RaisedOne(first.why);
    }
  }

  lemma SoFarAll(toInt: seq<Byte> -> Option<int>, n: nat, s0: seq<Byte>, s: seq<Byte>, items: seq<Value>)
    requires SoFar(toInt, n, s0, 0, s, items)
    ensures MayItems(toInt, n, s0, GotAll(items, s))
  {
    assert MayItems(toInt, 0, s, GotAll([], s));
    assert items + [] == items;
  }

  /** The length in a bulk header that is wholly buffered. */
  function HeldBulk(toInt: seq<Byte> -> Option<int>, buffered: seq<Byte>): Option<int> {
    match ReadLine(buffered)
    case NoLine(_) => None
    case Line(line, _) => if line != [] && line[0] == DOLLAR then toInt(line[1..]) else None
  }

  lemma HeldLine(buffered: seq<Byte>, data: seq<Byte>)
    requires UpToLF(buffered, data) && ReadLine(buffered).Line?
    ensures |data| >= 2 && data[|data| - 2..] == CRLF
    ensures ReadLine(buffered) == Line(DropTwo(data), buffered[|data|..])
  {
    if !(|data| >= 2 && data[|data| - 2..] == CRLF) {
      NoLineIn(buffered, data);
    }
    var text := DropTwo(data);
    assert data == text + CRLF;
    LineIn(buffered, text);
  }

  /** data is the start of s up to and with its first line feed, or all of s without one. */
  ghost predicate UpToLF(s: seq<Byte>, data: seq<Byte>) {
    && |data| <= |s| && data == s[..|data|]
    && if data != [] && data[|data| - 1] == LF then LF !in data[..|data| - 1] else data == s && LF !in s
  }

  class SocketBuffer {
    const socketReadSize: nat
    const toInt: seq<Byte> -> Option<int>
    var buffer: seq<Byte>      // the BytesIO
    var bytesWritten: nat
    var bytesRead: nat
    var arriving: seq<Byte>    // what the socket has still to deliver before it is closed
    ghost var timeouts: nat    // how often it has timed out

    ghost predicate Valid()
      reads this
    {
      bytesRead <= bytesWritten == |buffer| && socketReadSize > 0
    }

    /** The stream that is not consumed yet. */
    ghost function Stream(): seq<Byte>
      requires Valid()
      reads this
    {
      buffer[bytesRead..] + arriving
    }

    constructor (socketReadSize: nat, toInt: seq<Byte> -> Option<int>, buffered: seq<Byte>, arriving: seq<Byte>)
      requires socketReadSize > 0
      ensures Valid() && Stream() == buffered + arriving && this.toInt == toInt
      ensures buffer == buffered && bytesRead == 0 && this.arriving == arriving
    {
      this.socketReadSize, this.toInt := socketReadSize, toInt;
      buffer, bytesWritten, bytesRead, this.arriving, timeouts := buffered, |buffered|, 0, arriving, 0;
    }

    /** socket.recv: a chunk of any size, a timeout, or no bytes once the peer has closed. */
    method Recv() returns (data: seq<Byte>, timedOut: bool)
      requires socketReadSize > 0
      modifies this`arriving, this`timeouts
      ensures old(arriving) == data + arriving && |data| <= socketReadSize
      ensures timeouts == old(timeouts) + (if timedOut then 1 else 0) && (timedOut ==> data == [])
      ensures !timedOut && data == [] ==> arriving == []
    {
      if * {
        timeouts := timeouts + 1;
        return [], true;
      }
      var most := if |arriving| < socketReadSize then |arriving| else socketReadSize;
      var k: int := *;
      if !(1 <= k <= most) {
        k := most;
      }
      data, timedOut := arriving[..k], false;
      arriving := arriving[k..];
    }

    /** _read_from_socket; length is 0 for None: any chunk will do. */
    method ReadFromSocket(length: nat) returns (r: Data)
      requires Valid()
      modifies this`buffer, this`bytesWritten, this`arriving, this`timeouts
      ensures Valid() && Stream() == old(Stream())
      ensures r.Data? ==> bytesWritten >= old(bytesWritten) + length && |arriving| < |old(arriving)|
      ensures bytesWritten < old(bytesWritten) + (if length > 0 then length else 1) + socketReadSize
      ensures r.NoData? ==> r.why == ServerClosed && arriving == []
      ensures r.NoData? ==> |old(arriving)| < length || |old(arriving)| == 0
      ensures timeouts == old(timeouts) + (if r.LateData? then 1 else 0)
    {
      var marker := 0;
      while true
        invariant Valid() && Stream() == old(Stream()) && old(bytesWritten) + marker == bytesWritten
        invariant |arriving| + marker == |old(arriving)| && (marker > 0 ==> marker < length)
        invariant timeouts == old(timeouts)
        decreases |arriving|
      {
        ghost var before := buffer[bytesRead..];
        var data, timedOut := Recv();
        if timedOut {
          return LateData;
        }
        if data == [] {
          return NoData(ServerClosed);
        }
        buffer := buffer + data;
        assert buffer[bytesRead..] == before + data;
        bytesWritten := bytesWritten + |data|;
        marker := marker + |data|;
        if length > marker {
          continue;
        }
        return Data([]);
      }
    }

    method Purge()
      modifies this`buffer, this`bytesWritten, this`bytesRead
      ensures buffer == [] && bytesWritten == 0 && bytesRead == 0
    {
      buffer := [];
      bytesWritten, bytesRead := 0, 0;
    }

    /** The end of read and readline: move past the data, and purge only an empty buffer. */
    method Consume(n: nat)
      requires Valid() && bytesRead + n <= bytesWritten
      modifies this`buffer, this`bytesWritten, this`bytesRead
      ensures Valid() && Stream() == old(Stream())[n..]
      ensures buffer[bytesRead..] == old(buffer[bytesRead + n..])
      ensures bytesRead == bytesWritten ==> buffer == []
    {
      assert Stream()[n..] == buffer[bytesRead + n..] + arriving;
      bytesRead := bytesRead + n;
      if bytesRead == bytesWritten {
        Purge();
      }
    }

    /** read: whatever the chunks, what the specification gets from the stream. */
    method Read(length: int) returns (r: Data)
      requires Valid()
      modifies this`buffer, this`bytesWritten, this`bytesRead, this`arriving, this`timeouts
      ensures Valid()
      ensures timeouts == old(timeouts) + (if r.LateData? then 1 else 0)
      ensures !r.Data? ==> Stream() == old(Stream()) && length + 2 > |old(buffer[bytesRead..])|
      ensures length + 2 <= |old(buffer[bytesRead..])| ==> arriving == old(arriving)
      ensures var spec := ReadSpec(old(buffer[bytesRead..]), old(arriving), length);
        && (r.Data? ==> spec == Bytes(r.bytes, Stream()))
        && (r.NoData? ==> spec == NotFetched(r.why))
    {
      ghost var s, b, a := Stream(), buffer[bytesRead..], arriving;
      var n := length + 2;
      if n > bytesWritten - bytesRead {
        var got := ReadFromSocket(n - (bytesWritten - bytesRead));
        if !got.Data? {
          return got;
        }
      }
      var end := if n < 0 || bytesRead + n > |buffer| then |buffer| else bytesRead + n;
      var data := buffer[bytesRead..end];
      assert n >= 0 ==> data == s[..n];
      assert n < 0 ==> data == b && s[|b|..] == a;
      Consume(|data|);
      assert Stream() == if n < 0 then a else s[n..];
      return Data(DropTwo(data));
    }

    /** BytesIO.readline at the read position: up to and with the first line feed, or all. */
    method PeekLine() returns (data: seq<Byte>)
      requires Valid()
      ensures UpToLF(buffer[bytesRead..], data)
    {
      var i := bytesRead;
      while i < |buffer| && buffer[i] != LF
        invariant bytesRead <= i <= |buffer| && LF !in buffer[bytesRead..i]
      {
        assert buffer[bytesRead..i + 1] == buffer[bytesRead..i] + [buffer[i]];
        i := i + 1;
      }
      if i < |buffer| {
        data := buffer[bytesRead..i + 1];
        assert data[..|data| - 1] == buffer[bytesRead..i];
      } else {
        data := buffer[bytesRead..i];
      }
    }

    /** readline: it waits for a first line that ends in CRLF, whatever the chunks. */
    method Readline() returns (r: Data)
      requires Valid()
      modifies this`buffer, this`bytesWritten, this`bytesRead, this`arriving, this`timeouts
      ensures Valid()
      ensures timeouts == old(timeouts) + (if r.LateData? then 1 else 0)
      ensures !r.Data? ==> Stream() == old(Stream())
      ensures r.Data? ==> LineSpec(old(Stream())) == Bytes(r.bytes, Stream())
      ensures r.NoData? ==> LineSpec(old(Stream())) == NotFetched(r.why)
      ensures ReadLine(old(buffer[bytesRead..])).Line? ==>
        && r == Data(ReadLine(old(buffer[bytesRead..])).text) && arriving == old(arriving)
        && buffer[bytesRead..] == ReadLine(old(buffer[bytesRead..])).rest
    {
      hide ReadLine, LineSpec;
      ghost var line := ReadLine(buffer[bytesRead..]);
      var data := PeekLine();
      if line.Line? {
        HeldLine(buffer[bytesRead..], data);
      }
      while !(|data| >= 2 && data[|data| - 2..] == CRLF)
        invariant Valid() && Stream() == old(Stream()) && UpToLF(buffer[bytesRead..], data)
        invariant timeouts == old(timeouts)
        invariant line.Line? ==> line == Line(DropTwo(data), buffer[bytesRead..][|data|..])
                                 && arriving == old(arriving) && |data| >= 2 && data[|data| - 2..] == CRLF
        decreases |arriving|
      {
        ghost var here := Stream();
        var got := ReadFromSocket(0);
        if !got.Data? {
          if got.NoData? {
            NoLineIn(here, data);
          }
          return got;
        }
        data := PeekLine();
      }
      r := TakeLine(data);
    }

    /** The end of readline. */
    method TakeLine(data: seq<Byte>) returns (r: Data)
      requires Valid() && UpToLF(buffer[bytesRead..], data) && |data| >= 2 && data[|data| - 2..] == CRLF
      modifies this`buffer, this`bytesWritten, this`bytesRead
      ensures Valid() && r == Data(DropTwo(data)) && LineSpec(old(Stream())) == Bytes(r.bytes, Stream())
      ensures buffer[bytesRead..] == old(buffer[bytesRead..])[|data|..]
    {
      ghost var s := Stream();
      var text := DropTwo(data);
      assert s[..|data|] == data == text + CRLF;
      LineIn(s, text);
      assert buffer[bytesRead + |data|..] == buffer[bytesRead..][|data|..];
      Consume(|data|);
      return Data(text);
    }

    /** read_response: one of the answers that the stream allows; and a length below -2, when
        its header is buffered, gets exactly what is buffered behind that. */
    method ReadResponse() returns (r: Result)
      requires Valid()
      modifies this`buffer, this`bytesWritten, this`bytesRead, this`arriving, this`timeouts
      ensures Valid() && |Stream()| <= |old(Stream())| && (r.Returned? ==> |Stream()| < |old(Stream())|)
      ensures timeouts == old(timeouts) + (if r.Late? then 1 else 0)
      ensures !r.Late? ==> May(toInt, old(Stream()), Outcome(r, Stream()))
      ensures !r.Late? && !ParseResponse(toInt, old(Stream())).Unsettled? ==>
        Outcome(r, Stream()) == ParseResponse(toInt, old(Stream()))
      ensures var held := HeldBulk(toInt, old(buffer[bytesRead..]));
        held.Some? && held.value < -2 ==>
          r == Returned(Text(DropTwo(ReadLine(old(buffer[bytesRead..])).rest))) && Stream() == old(arriving)
      decreases |Stream()|, 0
    {
      var got := Readline();
      if !got.Data? {
        return if got.LateData? then Late else Failed(got.why);
      }
      var line := got.bytes;
      if line == [] {
        return Failed(EmptyLine);
      }
      var byte, text := line[0], line[1..];
      if byte !in {MINUS, PLUS, COLON, DOLLAR, STAR} {
        return Failed(InvalidResponse);
      }
      if byte == MINUS {
        return Failed(NoParseError);
      }
      if byte == PLUS {
        return Returned(Text(text));
      }
      var number := toInt(text);
      if number == None {
        return Failed(ValueError);
      }
      if byte == COLON {
        return Returned(Number(number.value));
      }
      r := ReadBody(byte, number.value);
      if !r.Late? && !ParseResponse(toInt, old(Stream())).Unsettled? {
        OneAnswer(toInt, old(Stream()), Outcome(r, Stream()));
      }
    }

    /** read_response after a bulk or array header. */
    method ReadBody(byte: Byte, n: int) returns (r: Result)
      requires Valid()
      modifies this`buffer, this`bytesWritten, this`bytesRead, this`arriving, this`timeouts
      ensures Valid() && |Stream()| <= |old(Stream())|
      ensures timeouts == old(timeouts) + (if r.Late? then 1 else 0)
      ensures !r.Late? ==> MayBody(toInt, byte, n, old(Stream()), Outcome(r, Stream()))
      ensures byte == DOLLAR && n < -2 ==>
        r == Returned(Text(DropTwo(old(buffer[bytesRead..])))) && Stream() == old(arriving)
      decreases |Stream()|, 2
    {
      if n == -1 {
        return Returned(Null);
      }
      if byte == DOLLAR {
        ghost var b := buffer[bytesRead..];
        assert Stream()[..|b|] == b && Stream()[|b|..] == arriving;
        var body := Read(n);
        assert old(Stream()) + [] == old(Stream());
        return match body
          case Data(bytes) => Returned(Text(bytes))
          case NoData(why) => Failed(why)
          case LateData => Late;
      }
      var list := ReadItems(if n < 0 then 0 else n);
      assert !list.LateItems? ==> MayItems(toInt, if n < 0 then 0 else n, old(Stream()), Outcomes(list, Stream()));
      r := match list
        case Items(items) => Returned(List(items))
        case NoItems(why) => Failed(why)
        case LateItems => Late;
      assert !r.Late? ==> Outcome(r, Stream()) == Listed(Outcomes(list, Stream()));
    }

    /** The list comprehension of read_response. */
    method ReadItems(n: nat) returns (r: Items)
      requires Valid()
      modifies this`buffer, this`bytesWritten, this`bytesRead, this`arriving, this`timeouts
      ensures Valid() && |Stream()| <= |old(Stream())|
      ensures timeouts == old(timeouts) + (if r.LateItems? then 1 else 0)
      ensures !r.LateItems? ==> MayItems(toInt, n, old(Stream()), Outcomes(r, Stream()))
      decreases |Stream()|, 1
    {
      hide May, MayItems, SoFar, ParseResponse;
      var items := [];
      ghost var s0 := Stream();
      SoFarNothing(toInt, n, s0);
      for i := 0 to n
        invariant Valid() && |Stream()| <= |s0| && timeouts == old(timeouts)
        invariant SoFar(toInt, n, s0, n - i, Stream(), items)
      {
        ghost var s := Stream();
        var one := ReadResponse();
        if one.Late? {
          return LateItems;
        }
        SoFarOneMore(toInt, n, s0, n - i, s, items, Outcome(one, Stream()));
        if one.Failed? {
          return NoItems(one.why);
        }
        items := items + [one.value];
      }
      SoFarAll(toInt, n, s0, Stream(), items);
      return Items(items);
    }
  }

  lemma LineIn(s: seq<Byte>, text: seq<Byte>)
    requires |s| >= |text| + 2 && s[..|text| + 2] == text + CRLF && LF !in (text + CRLF)[..|text| + 1]
    ensures LineSpec(s) == Bytes(text, s[|text| + 2..])
  {
    assert s == text + CRLF + s[|text| + 2..];
    assert (text + CRLF)[..|text| + 1] == text + [CR];
    ReadLineBack(text, s[|text| + 2..]);
  }

  lemma NoLineIn(s: seq<Byte>, data: seq<Byte>)
    requires UpToLF(s, data) && !(|data| >= 2 && data[|data| - 2..] == CRLF)
    ensures LineSpec(s) == NotFetched(ServerClosed)
  {
    var k := FirstLF(s);
    if LF in s {
      assert s[..|data| - 1] == data[..|data| - 1];
      FirstLFAt(s, |data| - 1);
      assert |data| >= 2 ==> data[|data| - 2..] == [data[|data| - 2], LF];
    }
  }

  /** Every answer that a bulk length below -2 may have comes from some delivery: here the
      header and k bytes of what follows are buffered. */
  method Delivered(toInt: seq<Byte> -> Option<int>, text: seq<Byte>, n: int, rest: seq<Byte>, k: nat)
    returns (reader: SocketBuffer, r: Result)
    requires LF !in text && toInt(text) == Some(n) && n < -2 && k <= |rest|
    ensures reader.Valid() && r == Returned(Text(DropTwo(rest[..k]))) && reader.Stream() == rest[k..]
  {
    var header := [DOLLAR] + text + CRLF;
    HeaderLine(toInt, text, n, rest[..k]);
    reader := new SocketBuffer(4096, toInt, header + rest[..k], rest[k..]);
    assert reader.buffer[0..] == header + rest[..k];
    r := reader.ReadResponse();
  }

  /** So two readers of one stream disagree, whatever the length below -2, as soon as
      something follows the header: they leave different streams, and they return different
      texts if there are three bytes. */
  method NegativeLengthsDependOnChunks(toInt: seq<Byte> -> Option<int>, text: seq<Byte>, n: int, rest: seq<Byte>)
    returns (whole: SocketBuffer, r: Result, split: SocketBuffer, r': Result)
    requires LF !in text && toInt(text) == Some(n) && n < -2
    ensures whole.Valid() && split.Valid()
    ensures r == Returned(Text(DropTwo(rest))) && whole.Stream() == []
    ensures r' == Returned(Text([])) && split.Stream() == rest
  {
    whole, r := Delivered(toInt, text, n, rest, |rest|);
    split, r' := Delivered(toInt, text, n, rest, 0);
    assert rest[..|rest|] == rest;
  }
}
