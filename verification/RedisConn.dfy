/** redigo's conn: the writer with its fixed scratch buffer, the recursive reader, and the
    `pending` count that matches replies to commands. */
module RedisConn {
  import opened Basics
  import opened Decimals
  import opened Resp

  /** The argument types that writeArg prints itself. */
  datatype Arg = Text(s: seq<Byte>) | Bytes(p: seq<Byte>) | Number(n: int) | Boolean(b: bool) | Null

  function ArgText(a: Arg): seq<Byte> {
    match a
    case Text(s) => s
    case Bytes(p) => p
    case Number(n) => DecimalInt(n)
    case Boolean(b) => [if b then ZERO + 1 else ZERO]
    case Null => []
  }

  function ArgTexts(args: seq<Arg>): (r: seq<seq<Byte>>)
    ensures |r| == |args| && forall k :: 0 <= k < |r| ==> r[k] == ArgText(args[k])
  {
    if args == [] then [] else [ArgText(args[0])] + ArgTexts(args[1..])
  }

  /** What the server makes of an argument: strings and bytes as they are, "1" and "0" for
      true and false, nothing for nil, and of the text of an integer the integer. */
  lemma ArgTextMeans(s: seq<Byte>, n: int)
    ensures ArgText(Text(s)) == ArgText(Bytes(s)) == s && ArgText(Null) == []
    ensures ArgText(Boolean(true)) == DecimalInt(1) && ArgText(Boolean(false)) == DecimalInt(0)
    ensures Int64(n) ==> ParseInteger(ArgText(Number(n))) == Integer(n)
  {
    IntegerRoundTrip(n);
  }

  /** The words of the command that writeCommand(cmd, args) sends. */
  function Words(cmd: seq<Byte>, args: seq<Arg>): seq<seq<Byte>> {
    [cmd] + ArgTexts(args)
  }

  datatype ReadResult = ReadErr(why: Failure) | ReadOk(reply: Reply)

  /** What Receive and Do return: a broken connection, or a reply and maybe an error reply. */
  datatype Outcome = Fatal(why: Failure) | Answer(reply: Reply, err: Option<seq<Byte>>)

  /** The first error reply of a batch. */
  function FirstError(rs: seq<Reply>): Option<seq<Byte>> {
    if rs == [] then None
    else if rs[0].Error? then Some(rs[0].message)
    else FirstError(rs[1..])
  }

  lemma {:induction false} FirstErrorSnoc(rs: seq<Reply>, r: Reply)
    ensures FirstError(rs + [r]) == if FirstError(rs).Some? then FirstError(rs)
                                    else if r.Error? then Some(r.message) else None
  {
    if rs == [] {
      assert rs + [r] == [r];
    } else {
      assert (rs + [r])[1..] == rs[1..] + [r];
      FirstErrorSnoc(rs[1..], r);
    }
  }

  /** What Receive makes of the next reply of a stream. */
  function Received(s: seq<Byte>): Outcome {
    match Parse(s)
    case Fail(why) => Fatal(why)
    case Ok(Error(message), _) => Answer(Nil, Some(message))
    case Ok(reply, _) => Answer(reply, None)
  }

  /** What Do makes of the replies it drains: all of them as one array for the empty
      command, otherwise the last one and the first error. */
  function Drained(cmd: seq<Byte>, outstanding: nat, s: seq<Byte>): Outcome {
    if cmd == [] then AllDrained(ParseMany(outstanding, s)) else LastDrained(ParseMany(outstanding + 1, s))
  }

  function AllDrained(p: ParsedAll): Outcome {
    match p
    case FailAll(why) => Fatal(why)
    case OkAll(items, _) => Answer(Array(items), None)
  }

  function LastDrained(p: ParsedAll): Outcome
    requires p.OkAll? ==> p.items != []
  {
    match p
    case FailAll(why) => Fatal(why)
    case OkAll(items, _) => Answer(items[|items| - 1], FirstError(items))
  }

  function Behind(items: seq<Reply>, p: ParsedAll): ParsedAll {
    match p
    case FailAll(why) => FailAll(why)
    case OkAll(more, rest) => OkAll(items + more, rest)
  }

  /** The first i of n replies are read; what remains decides the whole. */
  ghost predicate ReadSoFar(n: nat, s: seq<Byte>, i: nat, items: seq<Reply>, left: seq<Byte>) {
    i <= n && |items| == i && ParseMany(n, s) == Behind(items, ParseMany(n - i, left))
  }

  lemma ReadNone(n: nat, s: seq<Byte>)
    ensures ReadSoFar(n, s, 0, [], s)
  {
    if ParseMany(n, s).OkAll? {
      assert [] + ParseMany(n, s).items == ParseMany(n, s).items;
    }
  }

  lemma ReadOneMore(n: nat, s: seq<Byte>, i: nat, items: seq<Reply>, left: seq<Byte>)
    requires ReadSoFar(n, s, i, items, left) && i < n
    ensures match Parse(left)
      case Fail(why) => ParseMany(n, s) == FailAll(why)
      case Ok(reply, rest) => ReadSoFar(n, s, i + 1, items + [reply], rest)
  {
    if Parse(left).Ok? {
      var reply, rest := Parse(left).reply, Parse(left).rest;
      if ParseMany(n - i - 1, rest).OkAll? {
        var more := ParseMany(n - i - 1, rest).items;
        assert items + ([reply] + more) == items + [reply] + more;
      }
    }
  }

  lemma ReadWhole(n: nat, s: seq<Byte>, items: seq<Reply>, left: seq<Byte>)
    requires ReadSoFar(n, s, n, items, left)
    ensures ParseMany(n, s) == OkAll(items, left)
  {
    assert items + [] == items;
  }

  // ---- the account of a conversation with a server that answers each command once, in order ----

  type Command = seq<seq<Byte>>

  /** The replies to commands lo..hi. */
  ghost function Answers(answer: nat -> Reply, lo: nat, hi: nat): (rs: seq<Reply>)
    ensures lo <= hi ==> |rs| == hi - lo && forall k :: 0 <= k < |rs| ==> rs[k] == answer(lo + k)
    decreases hi - lo
  {
    if lo >= hi then [] else [answer(lo)] + Answers(answer, lo + 1, hi)
  }

  /** Of the commands written, `flushed` reached the server and `read` replies were read:
      `pending` is the difference between written and read, the write buffer holds the
      commands in between and the read buffer the replies to those that were flushed. */
  ghost predicate Agrees(answer: nat -> Reply, written: seq<Command>, flushed: nat, read: nat,
                         pending: nat, bw: seq<Byte>, br: seq<Byte>)
  {
    && read <= flushed <= |written|
    && pending == |written| - read
    && bw == EncodeCommands(written[flushed..])
    && br == EncodeAll(Answers(answer, read, flushed))
    && (forall k :: Carriable(answer(k)))
    && (forall k :: 0 <= k < |written| ==> Sendable(written[k]))
  }

  lemma AnswersJoin(answer: nat -> Reply, lo: nat, mid: nat, hi: nat)
    requires lo <= mid <= hi
    ensures EncodeAll(Answers(answer, lo, hi)) == EncodeAll(Answers(answer, lo, mid)) + EncodeAll(Answers(answer, mid, hi))
  {
    assert Answers(answer, lo, hi) == Answers(answer, lo, mid) + Answers(answer, mid, hi);
    EncodeAllConcat(Answers(answer, lo, mid), Answers(answer, mid, hi));
  }

  lemma AgreesAfterSend(answer: nat -> Reply, written: seq<Command>, flushed: nat, read: nat,
                        pending: nat, bw: seq<Byte>, br: seq<Byte>, words: Command)
    requires Agrees(answer, written, flushed, read, pending, bw, br) && Sendable(words)
    ensures Agrees(answer, written + [words], flushed, read, pending + 1, bw + Encode(CommandReply(words)), br)
  {
    var cmds := written[flushed..];
    assert (written + [words])[flushed..] == cmds + [words];
    EncodeCommandsIsEncodeAll(cmds);
    EncodeCommandsIsEncodeAll(cmds + [words]);
    assert CommandReplies(cmds + [words]) == CommandReplies(cmds) + [CommandReply(words)];
    EncodeAllSnoc(CommandReplies(cmds), CommandReply(words));
  }

  lemma AgreesAfterFlush(answer: nat -> Reply, written: seq<Command>, flushed: nat, read: nat,
                         pending: nat, bw: seq<Byte>, br: seq<Byte>)
    requires Agrees(answer, written, flushed, read, pending, bw, br)
    ensures Agrees(answer, written, |written|, read, pending, [], br + EncodeAll(Answers(answer, flushed, |written|)))
    ensures ParseMany(|written| - flushed, bw) == OkAll(CommandReplies(written[flushed..]), [])
  {
    assert written[|written|..] == [];
    AnswersJoin(answer, read, flushed, |written|);
    PipelineParsesBack(written[flushed..], []);
    assert bw + [] == bw;
  }

  lemma AgreesAfterReceive(answer: nat -> Reply, written: seq<Command>, flushed: nat, read: nat,
                           pending: nat, bw: seq<Byte>, br: seq<Byte>)
    requires Agrees(answer, written, flushed, read, pending, bw, br) && read < flushed
    ensures pending > 0 && Parse(br).Ok? && Parse(br).reply == answer(read)
    ensures Agrees(answer, written, flushed, read + 1, pending - 1, bw, Parse(br).rest)
  {
    ParseBack(answer(read), EncodeAll(Answers(answer, read + 1, flushed)));
  }

  lemma AgreesAfterDrain(answer: nat -> Reply, written: seq<Command>, flushed: nat, read: nat,
                         pending: nat, bw: seq<Byte>, br: seq<Byte>)
    requires Agrees(answer, written, flushed, read, pending, bw, br)
    ensures Agrees(answer, written, |written|, |written|, 0, [], [])
    ensures ParseMany(pending, br + EncodeAll(Answers(answer, flushed, |written|)))
         == OkAll(Answers(answer, read, |written|), [])
  {
    assert written[|written|..] == [];
    AnswersJoin(answer, read, flushed, |written|);
    ParseAllBack(Answers(answer, read, |written|), []);
    assert EncodeAll(Answers(answer, read, |written|)) + [] == EncodeAll(Answers(answer, read, |written|));
  }

  /** The bytes left after Do drained its replies. */
  function Rest(cmd: seq<Byte>, outstanding: nat, s: seq<Byte>): seq<Byte> {
    var p := ParseMany(outstanding + if cmd == [] then 0 else 1, s);
    if p.OkAll? then p.rest else []
  }

  lemma DrainedEverything(outstanding: nat, s: seq<Byte>, rs: seq<Reply>)
    requires ParseMany(outstanding, s) == OkAll(rs, [])
    ensures Rest([], outstanding, s) == [] && Drained([], outstanding, s) == Answer(Array(rs), None)
  {
  }

  lemma DrainedLast(cmd: seq<Byte>, outstanding: nat, s: seq<Byte>, rs: seq<Reply>)
    requires cmd != [] && ParseMany(outstanding + 1, s) == OkAll(rs, [])
    ensures Rest(cmd, outstanding, s) == []
    ensures rs != [] && Drained(cmd, outstanding, s) == Answer(rs[|rs| - 1], FirstError(rs))
  {
  }

  lemma AgreesAfterDoAll(answer: nat -> Reply, written: seq<Command>, flushed: nat, read: nat,
                         pending: nat, bw: seq<Byte>, br: seq<Byte>)
    requires Agrees(answer, written, flushed, read, pending, bw, br)
    ensures var stream := br + EncodeAll(Answers(answer, flushed, |written|));
      && Agrees(answer, written, |written|, |written|, 0, [], [])
      && Rest([], pending, stream) == []
      && Drained([], pending, stream) == Answer(Array(Answers(answer, read, |written|)), None)
      && (pending == 0 ==> stream == [] && bw == [] && br == [])
  {
    AgreesAfterDrain(answer, written, flushed, read, pending, bw, br);
    DrainedEverything(pending, br + EncodeAll(Answers(answer, flushed, |written|)), Answers(answer, read, |written|));
    if pending == 0 {
      assert written[flushed..] == [];
    }
  }

  lemma AgreesAfterDo(answer: nat -> Reply, written: seq<Command>, flushed: nat, read: nat,
                      pending: nat, bw: seq<Byte>, br: seq<Byte>, cmd: seq<Byte>, words: Command)
    requires Agrees(answer, written, flushed, read, pending, bw, br) && Sendable(words) && cmd != []
    ensures var all := written + [words];
      var stream := br + EncodeAll(Answers(answer, flushed, |all|));
      && Agrees(answer, all, |all|, |all|, 0, [], [])
      && Rest(cmd, pending, stream) == []
      && Drained(cmd, pending, stream) == Answer(answer(|written|), FirstError(Answers(answer, read, |all|)))
  {
    AgreesAfterSend(answer, written, flushed, read, pending, bw, br, words);
    AgreesAfterDoSent(answer, written + [words], flushed, read, pending, bw + Encode(CommandReply(words)), br, cmd);
  }

  lemma LastAnswer(answer: nat -> Reply, all: seq<Command>, flushed: nat, read: nat,
                   pending: nat, bw: seq<Byte>, br: seq<Byte>)
    requires Agrees(answer, all, flushed, read, pending + 1, bw, br)
    ensures var rs := Answers(answer, read, |all|);
      rs != [] && rs[|rs| - 1] == answer(|all| - 1)
  {
  }

  lemma AgreesAfterDoSent(answer: nat -> Reply, all: seq<Command>, flushed: nat, read: nat,
                          pending: nat, bw: seq<Byte>, br: seq<Byte>, cmd: seq<Byte>)
    requires Agrees(answer, all, flushed, read, pending + 1, bw, br) && cmd != []
    ensures var stream := br + EncodeAll(Answers(answer, flushed, |all|));
      && Agrees(answer, all, |all|, |all|, 0, [], [])
      && Rest(cmd, pending, stream) == []
      && Drained(cmd, pending, stream) == Answer(answer(|all| - 1), FirstError(Answers(answer, read, |all|)))
  {
    hide *;
    LastAnswer(answer, all, flushed, read, pending, bw, br);
    AgreesAfterDrain(answer, all, flushed, read, pending + 1, bw, br);
    DrainedLast(cmd, pending, br + EncodeAll(Answers(answer, flushed, |all|)), Answers(answer, read, |all|));
  }

  class Conn {
    const lenScratch: array<Byte>
    var bw: seq<Byte>        // written, not yet flushed
    var br: seq<Byte>        // arrived, not yet read
    var pending: nat
    var broken: bool         // c.err is set

    // The account of the conversation, for a server that answers each command once, in order.
    ghost const answer: nat -> Reply
    ghost var written: seq<seq<seq<Byte>>>   // every command
    ghost var flushed: nat                   // how many of them the server got
    ghost var read: nat                      // how many replies were read

    constructor (ghost answer: nat -> Reply)
      requires forall k :: Carriable(answer(k))
      ensures InStep() && fresh(lenScratch) && this.answer == answer && written == [] && !broken
    {
      lenScratch := new Byte[32](_ => 0);
      bw, br, pending, broken := [], [], 0, false;
      this.answer, written, flushed, read := answer, [], 0, 0;
    }

    /** The buffers and `pending` agree with the account. */
    ghost predicate InStep()
      reads this
    {
      lenScratch.Length == 32 && Agrees(answer, written, flushed, read, pending, bw, br)
    }

    // ---- writing ----

    /** writeLen: digits are filled in from the back and never reach the front. */
    method WriteLen(prefix: Byte, n: nat)
      requires lenScratch.Length == 32 && n < TWO_63
      modifies this`bw, lenScratch
      ensures bw == old(bw) + Header(prefix, n)
    {
      lenScratch[31] := LF;
      lenScratch[30] := CR;
      var i := 29;
      var m := n;
      Int64Digits(n);
      while true
        invariant bw == old(bw) && 0 <= m && i <= 29 && |Decimal(m)| + 29 - i <= 19
        invariant Decimal(n) == Decimal(m) + lenScratch[i + 1..30]
        invariant lenScratch[30] == CR && lenScratch[31] == LF
        decreases m
      {
        lenScratch[i] := ZERO + m % 10;
        ghost var tail := lenScratch[i + 1..30];
        assert lenScratch[i..30] == [ZERO + m % 10] + tail;
        i := i - 1;
        if m >= 10 {
          assert Decimal(m) + tail == Decimal(m / 10) + lenScratch[i + 1..30];
        }
        m := m / 10;
        if m == 0 {
          assert lenScratch[i + 1..30] == Decimal(n);
          break;
        }
      }
      lenScratch[i] := prefix;
      assert lenScratch[i + 1..30] == Decimal(n);
      assert lenScratch[i..] == [prefix] + lenScratch[i + 1..30] + CRLF;
      assert lenScratch[i..] == Header(prefix, n);
      bw := bw + lenScratch[i..];
    }

    /** writeString and writeBytes. */
    method WriteString(s: seq<Byte>)
      requires lenScratch.Length == 32 && |s| < TWO_63
      modifies this`bw, lenScratch
      ensures bw == old(bw) + Encode(Bulk(s))
    {
      WriteLen(DOLLAR, |s|);
      bw := bw + s;
      bw := bw + CRLF;
      assert old(bw) + Header(DOLLAR, |s|) + s + CRLF == old(bw) + (Header(DOLLAR, |s|) + s + CRLF);
    }

    method WriteArg(arg: Arg)
      requires lenScratch.Length == 32 && |ArgText(arg)| < TWO_63
      modifies this`bw, lenScratch
      ensures bw == old(bw) + Encode(Bulk(ArgText(arg)))
    {
      match arg {
        case Text(s) => WriteString(s);
        case Bytes(p) => WriteString(p);
        case Number(n) => WriteString(DecimalInt(n));
        case Boolean(b) =>
          if b {
            WriteString([ZERO + 1]);
          } else {
            WriteString([ZERO]);
          }
        case Null => WriteString([]);
      }
    }

    method WriteCommand(cmd: seq<Byte>, args: seq<Arg>)
      requires lenScratch.Length == 32 && Sendable(Words(cmd, args))
      modifies this`bw, lenScratch
      ensures bw == old(bw) + Encode(CommandReply(Words(cmd, args)))
    {
      hide Encode, EncodeAll, Header, CommandReply;
      ghost var words := Words(cmd, args);
      assert words[0] == cmd && |words| == 1 + |args|;
      WriteLen(STAR, 1 + |args|);
      ghost var head := bw;
      PrintedNone(words);
      assert head + [] == head;
      WriteString(cmd);
      PrintedOneMore(words, 0, head);
      for i := 0 to |args|
        invariant bw == head + EncodeAll(Bulks(words)[..i + 1])
      {
        assert words[i + 1] == ArgText(args[i]);
        WriteArg(args[i]);
        PrintedOneMore(words, i + 1, head);
      }
      PrintedWhole(words, old(bw));
    }

    // ---- reading ----

    /** readReply, on the bytes that arrive before the stream ends. */
    method ReadReply() returns (r: ReadResult)
      modifies this`br
      ensures match Parse(old(br))
        case Fail(why) => r == ReadErr(why)
        case Ok(reply, rest) => r == ReadOk(reply) && br == rest
      decreases |br|
    {
      var l := ReadLine(br);
      if l.NoLine? {
        return ReadErr(l.why);
      }
      br := l.rest;
      var line := l.text;
      if |line| == 0 {
        return ReadErr(ShortLine);
      }
      if line[0] == PLUS {
        return ReadOk(Simple(line[1..]));
      } else if line[0] == MINUS {
        return ReadOk(Error(line[1..]));
      } else if line[0] == COLON {
        var n := ParseInt(line[1..]);
        return if n.BadInteger? then ReadErr(MalformedInteger) else ReadOk(Int(n.n));
      } else if line[0] == DOLLAR {
        var n := ParseLen(line[1..]);
        if n.BadLength? {
          return ReadErr(MalformedLength);
        } else if n.n < 0 {
          return ReadOk(Nil);
        }
        if |br| < n.n {
          return ReadErr(EndOfStream);
        }
        var p := br[..n.n];
        br := br[n.n..];
        var end := ReadLine(br);
        if end.NoLine? {
          return ReadErr(end.why);
        }
        br := end.rest;
        return if |end.text| != 0 then ReadErr(BadBulk) else ReadOk(Bulk(p));
      } else if line[0] == STAR {
        var n := ParseLen(line[1..]);
        if n.BadLength? {
          return ReadErr(MalformedLength);
        } else if n.n < 0 {
          return ReadOk(Nil);
        }
        var body := br;
        var items := [];
        ReadNone(n.n, body);
        while |items| < n.n
          invariant |br| <= |body| < old(|br|)
          invariant ReadSoFar(n.n, body, |items|, items, br)
          decreases n.n - |items|
        {
          ReadOneMore(n.n, body, |items|, items, br);
          var r1 := ReadReply();
          if r1.ReadErr? {
            return r1;
          }
          items := items + [r1.reply];
        }
        ReadWhole(n.n, body, items, br);
        return ReadOk(Array(items));
      }
      return ReadErr(UnexpectedLine);
    }

    // ---- pipelining ----

    method Fatal(why: Failure) returns (r: Outcome)
      modifies this`broken
      ensures broken && r == Outcome.Fatal(why)
    {
      broken := true;
      return Outcome.Fatal(why);
    }

    /** Send: the command is only buffered. */
    method Send(cmd: seq<Byte>, args: seq<Arg>)
      requires lenScratch.Length == 32 && Sendable(Words(cmd, args))
      modifies this`pending, this`bw, this`written, lenScratch
      ensures pending == old(pending) + 1 && bw == old(bw) + Encode(CommandReply(Words(cmd, args)))
      ensures written == old(written) + [Words(cmd, args)]
      ensures old(InStep()) ==> InStep()
    {
      pending := pending + 1;
      WriteCommand(cmd, args);
      written := written + [Words(cmd, args)];
      if old(InStep()) {
        AgreesAfterSend(answer, old(written), flushed, read, old(pending), old(bw), br, Words(cmd, args));
      }
    }

    /** Flush hands everything to the server; `arriving` is what it then sends. */
    method Flush(arriving: seq<Byte>)
      modifies this`bw, this`br, this`flushed
      ensures bw == [] && br == old(br) + arriving && flushed == |written|
      ensures old(InStep()) && arriving == EncodeAll(Answers(answer, old(flushed), |written|)) ==> InStep()
      ensures old(InStep()) ==>
        ParseMany(|written| - old(flushed), old(bw)) == OkAll(CommandReplies(written[old(flushed)..]), [])
    {
      if InStep() {
        AgreesAfterFlush(answer, written, flushed, read, pending, bw, br);
      }
      br := br + arriving;
      bw := [];
      flushed := |written|;
    }

    /** Receive. */
    method Receive() returns (r: Outcome)
      modifies this`br, this`pending, this`read, this`broken
      ensures r == Received(old(br)) && (r.Fatal? ==> broken)
      ensures !r.Fatal? ==> pending == (if old(pending) > 0 then old(pending) - 1 else 0) && read == old(read) + 1
      ensures old(InStep()) && old(read) < flushed ==>
        && InStep() && read == old(read) + 1
        && r == match answer(old(read)) case Error(message) => Answer(Nil, Some(message)) case reply => Answer(reply, None)
    {
      hide Parse, Carriable, Encode;
      if InStep() && read < flushed {
        AgreesAfterReceive(answer, written, flushed, read, pending, bw, br);
      }
      var reply := ReadReply();
      if reply.ReadErr? {
        r := this.Fatal(reply.why);
        return;
      }
      if pending > 0 {
        pending := pending - 1;
      }
      read := read + 1;
      return if reply.reply.Error? then Answer(Nil, Some(reply.reply.message)) else Answer(reply.reply, None);
    }

    /** Do (DoWithTimeout); `arriving` is what the server sends after the flush. */
    method Do(cmd: seq<Byte>, args: seq<Arg>, arriving: seq<Byte>) returns (r: Outcome)
      requires lenScratch.Length == 32 && Sendable(Words(cmd, args))
      modifies this`pending, this`bw, this`br, this`broken, lenScratch
      ensures pending == 0 && (r.Fatal? ==> broken)
      ensures cmd == [] && old(pending) == 0 ==> r == Answer(Nil, None) && bw == old(bw) && br == old(br)
      ensures cmd != [] || old(pending) > 0 ==>
        && bw == [] && r == Drained(cmd, old(pending), old(br) + arriving)
        && (!r.Fatal? ==> br == Rest(cmd, old(pending), old(br) + arriving))
    {
      var outstanding := pending;
      pending := 0;
      if |cmd| == 0 && outstanding == 0 {
        return Answer(Nil, None);
      }
      if |cmd| != 0 {
        WriteCommand(cmd, args);
      }
      bw := [];
      br := br + arriving;
      if |cmd| == 0 {
        r := DrainAll(outstanding);
      } else {
        r := DrainLast(outstanding);
      }
    }

    /** Against a server that answers in order, Do(cmd) returns the reply to its own command
        with the first error among those it drained, and Do("") exactly the outstanding
        replies in order; either way nothing is left over. */
    method DoInStep(cmd: seq<Byte>, args: seq<Arg>, arriving: seq<Byte>) returns (r: Outcome)
      requires InStep() && Sendable(Words(cmd, args))
      requires arriving == EncodeAll(Answers(answer, flushed, |written| + if cmd == [] then 0 else 1))
      modifies this, lenScratch
      ensures InStep() && read == flushed == |written| && !r.Fatal?
      ensures written == old(written) + if cmd == [] then [] else [Words(cmd, args)]
      ensures r == if cmd != [] then Answer(answer(|old(written)|), FirstError(Answers(answer, old(read), |written|)))
                   else if old(pending) > 0 then Answer(Array(Answers(answer, old(read), |written|)), None)
                   else Answer(Nil, None)
    {
      ghost var all := written + if cmd == [] then [] else [Words(cmd, args)];
      if cmd == [] {
        assert all == written;
        AgreesAfterDoAll(answer, written, flushed, read, pending, bw, br);
      } else {
        AgreesAfterDo(answer, written, flushed, read, pending, bw, br, cmd, Words(cmd, args));
      }
      r := Do(cmd, args, arriving);
      written, flushed, read := all, |all|, |all|;
    }

    /** Do("")'s loop: one reply for every outstanding command. */
    method DrainAll(outstanding: nat) returns (r: Outcome)
      modifies this`br, this`broken
      ensures r == AllDrained(ParseMany(outstanding, old(br))) && (r.Fatal? ==> broken)
      ensures !r.Fatal? ==> br == ParseMany(outstanding, old(br)).rest
    {
      var items := [];
      ReadNone(outstanding, br);
      while |items| < outstanding
        invariant ReadSoFar(outstanding, old(br), |items|, items, br)
        decreases outstanding - |items|
      {
        ReadOneMore(outstanding, old(br), |items|, items, br);
        var reply := ReadReply();
        if reply.ReadErr? {
          r := Fatal(reply.why);
          return;
        }
        items := items + [reply.reply];
      }
      ReadWhole(outstanding, old(br), items, br);
      return Answer(Array(items), None);
    }

    /** Do(cmd)'s loop: it keeps the last reply and the first error. */
    method DrainLast(outstanding: nat) returns (r: Outcome)
      modifies this`br, this`broken
      ensures r == LastDrained(ParseMany(outstanding + 1, old(br))) && (r.Fatal? ==> broken)
      ensures !r.Fatal? ==> br == ParseMany(outstanding + 1, old(br)).rest
    {
      hide Parse, ParseMany;
      var err := None;
      var last := Nil;
      ghost var items := [];
      ReadNone(outstanding + 1, br);
      var i := 0;
      while i <= outstanding
        invariant i <= outstanding + 1 && ReadSoFar(outstanding + 1, old(br), i, items, br)
        invariant err == FirstError(items) && (i > 0 ==> last == items[i - 1])
      {
        ReadOneMore(outstanding + 1, old(br), i, items, br);
        var reply := ReadReply();
        if reply.ReadErr? {
          r := Fatal(reply.why);
          return;
        }
        FirstErrorSnoc(items, reply.reply);
        last := reply.reply;
        if last.Error? && err == None {
          err := Some(last.message);
        }
        items := items + [last];
        i := i + 1;
      }
      ReadWhole(outstanding + 1, old(br), items, br);
      return Answer(last, err);
    }
  }
}
