/** The language that redigo's reader accepts, said without the reader: which bytes are a
    reply, and on which first lines it fails. */
module RespGrammar {
  import opened Decimals
  import opened Resp

  predicate Number(p: seq<Byte>) { p != [] && AllDigits(p) }

  /** The text of a length: the null marker, or digits of which a 64-bit register keeps n. */
  predicate LengthText(p: seq<Byte>, n: int) {
    (p == [MINUS, ZERO + 1] && n == -1) || (Number(p) && n == Wrap64(Value(p)))
  }

  predicate IntText(p: seq<Byte>, n: int) {
    || (Number(p) && n == Wrap64(Value(p)))
    || (p != [] && p[0] == MINUS && Number(p[1..]) && n == Wrap64(-Value(p[1..])))
  }

  /** w is, from its first to its last byte, a form of reply r on the wire. */
  ghost predicate Wire(w: seq<Byte>, r: Reply)
    decreases r, 0
  {
    match r
    case Simple(t) => LF !in t && w == [PLUS] + t + CRLF
    case Error(t) => LF !in t && w == [MINUS] + t + CRLF
    case Int(n) => exists p :: IntText(p, n) && w == [COLON] + p + CRLF
    case Nil => exists p, n :: LengthText(p, n) && n < 0 && (w == [DOLLAR] + p + CRLF || w == [STAR] + p + CRLF)
    case Bulk(d) => exists p :: LengthText(p, |d|) && w == [DOLLAR] + p + CRLF + d + CRLF
    case Array(items) =>
      exists p, body :: LengthText(p, |items|) && w == [STAR] + p + CRLF + body && Wires(body, items)
  }

  /** w is a form of each of these replies, one after the other. */
  ghost predicate Wires(w: seq<Byte>, rs: seq<Reply>)
    decreases rs, 1
  {
    if rs == [] then w == []
    else exists k: nat :: k <= |w| && Wire(w[..k], rs[0]) && Wires(w[k..], rs[1..])
  }

  lemma LengthTextIff(p: seq<Byte>, n: int)
    ensures ParseLength(p) == Length(n) <==> LengthText(p, n)
    ensures ParseLength(p) == BadLength <==> forall m: int :: !LengthText(p, m)
    ensures LengthText(p, n) ==> LF !in p
  {
    hide Wrap64, Value;
    assert p == [MINUS, ZERO + 1] ==> LengthText(p, -1) && !Digit(p[0]);
    assert Number(p) ==> LengthText(p, Wrap64(Value(p)));
  }

  lemma IntTextIff(p: seq<Byte>, n: int)
    ensures ParseInteger(p) == Integer(n) <==> IntText(p, n)
    ensures IntText(p, n) ==> LF !in p
  {
    hide Wrap64, Value;
    if p != [] && p[0] == MINUS {
      assert p == [MINUS] + p[1..];
    }
  }

  // ---- every form parses ----

  lemma LinePart(prefix: Byte, p: seq<Byte>, more: seq<Byte>)
    requires LF !in p && prefix != LF
    ensures ReadLine([prefix] + p + CRLF + more) == Line([prefix] + p, more) && ([prefix] + p)[1..] == p
  {
    TextBack(prefix, p, more);
  }

  lemma ScalarParses(w: seq<Byte>, r: Reply, rest: seq<Byte>)
    requires Wire(w, r) && !r.Array? && !r.Bulk?
    ensures Parse(w + rest) == Ok(r, rest)
  {
    hide ReadLine, ParseLength, ParseInteger;
    match r {
      case Simple(t) => LinePart(PLUS, t, rest);
      case Error(t) => LinePart(MINUS, t, rest);
      case Int(n) =>
        var p :| IntText(p, n) && w == [COLON] + p + CRLF;
        IntTextIff(p, n);
        LinePart(COLON, p, rest);
      case Nil =>
        var p, n :| LengthText(p, n) && n < 0 && (w == [DOLLAR] + p + CRLF || w == [STAR] + p + CRLF);
        LengthTextIff(p, n);
        LinePart(DOLLAR, p, rest);
        LinePart(STAR, p, rest);
    }
  }

  lemma BulkParses(w: seq<Byte>, d: seq<Byte>, rest: seq<Byte>)
    requires Wire(w, Bulk(d))
    ensures Parse(w + rest) == Ok(Bulk(d), rest)
  {
    var p :| LengthText(p, |d|) && w == [DOLLAR] + p + CRLF + d + CRLF;
    LengthTextIff(p, |d|);
    var body := d + CRLF + rest;
    assert w + rest == [DOLLAR] + p + CRLF + body;
    LinePart(DOLLAR, p, body);
    BulkBodyBack(d, rest);
  }

  lemma ArrayParses(p: seq<Byte>, items: seq<Reply>, body: seq<Byte>, rest: seq<Byte>)
    requires LengthText(p, |items|) && ParseMany(|items|, body) == OkAll(items, rest)
    ensures Parse([STAR] + p + CRLF + body) == Ok(Array(items), rest)
  {
    LengthTextIff(p, |items|);
    LinePart(STAR, p, body);
  }

  lemma {:induction false} WireParses(w: seq<Byte>, r: Reply, rest: seq<Byte>)
    requires Wire(w, r)
    ensures Parse(w + rest) == Ok(r, rest)
    decreases r, 0
  {
    hide Parse, ParseMany, LengthText;
    if r.Array? {
      var p, body :| LengthText(p, |r.items|) && w == [STAR] + p + CRLF + body && Wires(body, r.items);
      WiresParse(body, r.items, rest);
      ArrayParses(p, r.items, body + rest, rest);
      JoinRight([STAR] + p + CRLF, body, rest);
    } else if r.Bulk? {
      BulkParses(w, r.data, rest);
    } else {
      ScalarParses(w, r, rest);
    }
  }

  lemma {:induction false} WiresParse(w: seq<Byte>, rs: seq<Reply>, rest: seq<Byte>)
    requires Wires(w, rs)
    ensures ParseMany(|rs|, w + rest) == OkAll(rs, rest)
    decreases rs, 1
  {
    hide Parse, Wire;
    if rs == [] {
      assert w + rest == rest;
    } else {
      var k: nat :| k <= |w| && Wire(w[..k], rs[0]) && Wires(w[k..], rs[1..]);
      assert w + rest == w[..k] + (w[k..] + rest);
      WireParses(w[..k], rs[0], w[k..] + rest);
      WiresParse(w[k..], rs[1..], rest);
      assert [rs[0]] + rs[1..] == rs;
    }
  }

  // ---- and nothing else does ----

  lemma LineShape(s: seq<Byte>, line: seq<Byte>, rest: seq<Byte>)
    requires ReadLine(s) == Line(line, rest) && line != []
    ensures s == [line[0]] + line[1..] + CRLF + rest && LF !in line[1..]
  {
    assert line == [line[0]] + line[1..];
    forall b | b in line[1..] ensures b in line {
    }
  }

  lemma LineWire(s: seq<Byte>) returns (w: seq<Byte>)
    requires Parse(s).Ok? && !Parse(s).reply.Array? && !Parse(s).reply.Bulk?
    ensures s == w + Parse(s).rest && Wire(w, Parse(s).reply)
  {
    var line, rest := ReadLine(s).text, ReadLine(s).rest;
    LineShape(s, line, rest);
    var p := line[1..];
    w := [line[0]] + p + CRLF;
    if line[0] == COLON {
      IntTextIff(p, ParseInteger(p).n);
    } else if line[0] == DOLLAR || line[0] == STAR {
      LengthTextIff(p, ParseLength(p).n);
    }
  }

  lemma BulkParts(s: seq<Byte>) returns (p: seq<Byte>, d: seq<Byte>, body: seq<Byte>)
    requires Parse(s).Ok? && Parse(s).reply.Bulk?
    ensures Parse(s).reply == Bulk(d) && LengthText(p, |d|)
    ensures s == [DOLLAR] + p + CRLF + body && body == d + (CRLF + Parse(s).rest)
  {
    var line;
    line, body := ReadLine(s).text, ReadLine(s).rest;
    LineShape(s, line, body);
    p := line[1..];
    var n := ParseLength(p).n;
    assert Parse(s) == ParseBulk(n, body);
    hide Parse, ReadLine;
    LengthTextIff(p, n);
    d := BulkBody(n, body);
  }

  lemma BulkBody(n: nat, body: seq<Byte>) returns (d: seq<Byte>)
    requires ParseBulk(n, body).Ok?
    ensures |d| == n && ParseBulk(n, body).reply == Bulk(d) && body == d + (CRLF + ParseBulk(n, body).rest)
  {
    d := body[..n];
    var l, rest := ReadLine(body[n..]), ParseBulk(n, body).rest;
    assert l == Line([], rest) && ParseBulk(n, body).reply == Bulk(d);
    hide *;
    assert body[n..] == l.text + CRLF + l.rest;
    assert [] + CRLF == CRLF;
    assert body == d + body[n..];
  }

  lemma BulkWire(s: seq<Byte>) returns (w: seq<Byte>)
    requires Parse(s).Ok? && Parse(s).reply.Bulk?
    ensures s == w + Parse(s).rest && Wire(w, Parse(s).reply)
  {
    var p, d, body := BulkParts(s);
    hide Parse, LengthText;
    var header, rest := [DOLLAR] + p + CRLF, Parse(s).rest;
    w := header + d + CRLF;
    JoinRight(header, d, CRLF + rest);
    JoinRight(header + d, CRLF, rest);
  }

  lemma ArrayParts(s: seq<Byte>) returns (p: seq<Byte>, n: nat, body: seq<Byte>)
    requires Parse(s).Ok? && Parse(s).reply.Array?
    ensures LengthText(p, n) && s == [STAR] + p + CRLF + body && |body| < |s|
    ensures ParseMany(n, body) == OkAll(Parse(s).reply.items, Parse(s).rest) && n == |Parse(s).reply.items|
  {
    var line;
    line, body := ReadLine(s).text, ReadLine(s).rest;
    LineShape(s, line, body);
    p := line[1..];
    n := ParseLength(p).n;
    LengthTextIff(p, n);
  }

  lemma {:induction false} ParsedWire(s: seq<Byte>) returns (w: seq<Byte>)
    requires Parse(s).Ok?
    ensures s == w + Parse(s).rest && Wire(w, Parse(s).reply)
    decreases |s|, 0
  {
    hide Parse, ParseMany, LengthText;
    if Parse(s).reply.Array? {
      var p, n, body := ArrayParts(s);
      var b := ParsedWires(n, body);
      w := [STAR] + p + CRLF + b;
      JoinRight([STAR] + p + CRLF, b, Parse(s).rest);
    } else if Parse(s).reply.Bulk? {
      w := BulkWire(s);
    } else {
      w := LineWire(s);
    }
  }

  lemma {:induction false} ParsedWires(n: nat, s: seq<Byte>) returns (w: seq<Byte>)
    requires ParseMany(n, s).OkAll?
    ensures s == w + ParseMany(n, s).rest && Wires(w, ParseMany(n, s).items)
    decreases |s|, n
  {
    hide Parse, Wire;
    if n == 0 {
      w := [];
    } else {
      var p := Parse(s);
      var q := ParseMany(n - 1, p.rest);
      var a := ParsedWire(s);
      var b := ParsedWires(n - 1, p.rest);
      w := a + b;
      assert ([p.reply] + q.items)[1..] == q.items && w[..|a|] == a && w[|a|..] == b;
    }
  }

  /** The reader returns a reply and a rest if and only if the stream is a form of that reply
      on the wire followed by that rest. */
  lemma ParseIff(s: seq<Byte>, r: Reply, rest: seq<Byte>)
    ensures Parse(s) == Ok(r, rest) <==> exists w :: s == w + rest && Wire(w, r)
  {
    if Parse(s) == Ok(r, rest) {
      var w := ParsedWire(s);
      assert s == w + rest && Wire(w, r);
    }
    if w :| s == w + rest && Wire(w, r) {
      WireParses(w, r, rest);
    }
  }

  /** The null reply: a bulk or array header with the null marker, or with a length that a
      64-bit register takes for a negative one. */
  lemma NilIff(s: seq<Byte>, rest: seq<Byte>)
    ensures Parse(s) == Ok(Nil, rest) <==>
      exists p: seq<Byte> :: NilText(p) && (s == [DOLLAR] + p + CRLF + rest || s == [STAR] + p + CRLF + rest)
  {
    ParseIff(s, Nil, rest);
    hide Parse, LengthText, NilText;
    if w :| s == w + rest && Wire(w, Nil) {
      var p, n :| LengthText(p, n) && n < 0 && (w == [DOLLAR] + p + CRLF || w == [STAR] + p + CRLF);
      NilTextIff(p);
      assert NilText(p);
    }
    if p: seq<Byte> :| NilText(p) && (s == [DOLLAR] + p + CRLF + rest || s == [STAR] + p + CRLF + rest) {
      NilTextIff(p);
      var n :| LengthText(p, n) && n < 0;
      var w := if s == [DOLLAR] + p + CRLF + rest then [DOLLAR] + p + CRLF else [STAR] + p + CRLF;
      assert s == w + rest && Wire(w, Nil);
    }
  }

  predicate NilText(p: seq<Byte>) {
    p == [MINUS, ZERO + 1] || (Number(p) && Value(p) % TWO_64 >= TWO_63)
  }

  lemma NilTextIff(p: seq<Byte>)
    ensures NilText(p) <==> exists n :: LengthText(p, n) && n < 0
  {
    if p == [MINUS, ZERO + 1] {
      assert LengthText(p, -1);
    } else if Number(p) {
      NonNegative(p);
      WrapOfNat(Value(p));
      assert LengthText(p, Wrap64(Value(p)));
    }
  }

  /** The null array reads as the null reply; and an array header of any length does so if and
      only if the length, which wraps at 64 bits, is negative then. */
  lemma NullArray(n: nat, rest: seq<Byte>)
    ensures Parse([STAR, MINUS, ZERO + 1] + CRLF + rest) == Ok(Nil, rest)
    ensures Parse(Header(STAR, n) + rest) == Ok(Nil, rest) <==> n % TWO_64 >= TWO_63
  {
    LinePart(STAR, [MINUS, ZERO + 1], rest);
    assert [STAR] + [MINUS, ZERO + 1] == [STAR, MINUS, ZERO + 1];
    DecimalValue(n);
    LinePart(STAR, Decimal(n), rest);
    LengthTextIff(Decimal(n), Wrap64(n));
    assert Decimal(n) != [MINUS, ZERO + 1];
    WrapOfNat(n);
  }

  // ---- on which first lines it fails, and how ----

  /** The first line of a stream, if it has one that ends as it should, decides whether the
      reader fails on it, and with which error. */
  lemma FirstLineFails(line: seq<Byte>, rest: seq<Byte>)
    requires LF !in line
    ensures var p := Parse(line + CRLF + rest);
      && (line == [] ==> p == Fail(ShortLine))
      && (line != [] && line[0] !in {PLUS, MINUS, COLON, DOLLAR, STAR} ==> p == Fail(UnexpectedLine))
      && (line != [] && line[0] == COLON && (forall n: int :: !IntText(line[1..], n)) ==> p == Fail(MalformedInteger))
      && (line != [] && line[0] in {DOLLAR, STAR} && (forall n: int :: !LengthText(line[1..], n)) ==> p == Fail(MalformedLength))
  {
    ReadLineBack(line, rest);
    if line != [] && line[0] == COLON && ParseInteger(line[1..]).Integer? {
      IntTextIff(line[1..], ParseInteger(line[1..]).n);
    }
    if line != [] && line[0] in {DOLLAR, STAR} && ParseLength(line[1..]).Length? {
      LengthTextIff(line[1..], ParseLength(line[1..]).n);
    }
  }

  /** Without a line feed the stream has ended too early, and a first line feed without CR
      before it is an error, however the line began. */
  lemma NoFirstLine(s: seq<Byte>)
    ensures LF !in s ==> Parse(s) == Fail(EndOfStream)
    ensures BareLF(s) ==> Parse(s) == Fail(BadTerminator)
  {
    if LF !in s {
      NoLineFeed(s);
    } else if k :| 0 <= k < |s| && s[k] == LF && LF !in s[..k] && (k == 0 || s[k - 1] != CR) {
      FirstLFAt(s, k);
    }
  }

  /** Behind the header of a bulk string of length n: too few bytes, or a line that is not
      empty behind the n bytes. */
  lemma BulkFails(p: seq<Byte>, n: nat, body: seq<Byte>)
    requires LengthText(p, n)
    ensures var r := Parse([DOLLAR] + p + CRLF + body);
      && (|body| < n ==> r == Fail(EndOfStream))
      && (|body| >= n && ReadLine(body[n..]).NoLine? ==> r == Fail(ReadLine(body[n..]).why))
      && (|body| >= n && ReadLine(body[n..]).Line? && ReadLine(body[n..]).text != [] ==> r == Fail(BadBulk))
  {
    LengthTextIff(p, n);
    LinePart(DOLLAR, p, body);
  }

  /** An array fails with the failure of its first item that fails. */
  lemma ArrayFails(p: seq<Byte>, n: nat, body: seq<Byte>, before: seq<Reply>, bad: seq<Byte>)
    requires LengthText(p, n) && |before| < n && Parse(bad).Fail?
    requires ParseMany(|before|, body) == OkAll(before, bad)
    ensures Parse([STAR] + p + CRLF + body) == Fail(Parse(bad).why)
  {
    LengthTextIff(p, n);
    LinePart(STAR, p, body);
    ManyFail(n, body, before, bad);
  }

  lemma {:induction false} ManyFail(n: nat, body: seq<Byte>, before: seq<Reply>, bad: seq<Byte>)
    requires |before| < n && Parse(bad).Fail? && ParseMany(|before|, body) == OkAll(before, bad)
    ensures ParseMany(n, body) == FailAll(Parse(bad).why)
    decreases |before|
  {
    hide Parse;
    if before != [] {
      var first := Parse(body);
      var q := ParseMany(|before| - 1, first.rest);
      assert before[1..] == q.items;
      ManyFail(n - 1, first.rest, before[1..], bad);
    }
  }
}
