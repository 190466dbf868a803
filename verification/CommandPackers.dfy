/** redis-py's pack_command and pack_commands: commands printed into chunks for the socket. */
module CommandPackers {
  import opened Decimals
  import opened Resp

  const SPACE: Byte := 32

  /** A command and its arguments, already encoded as bytes. */
  datatype Command = Command(name: seq<Byte>, args: seq<seq<Byte>>)

  /** name.split(' '). */
  function Split(s: seq<Byte>): (ws: seq<seq<Byte>>)
    ensures ws != []
  {
    if s == [] then [[]]
    else
      var ws := Split(s[1..]);
      if s[0] == SPACE then [[]] + ws else [[s[0]] + ws[0]] + ws[1..]
  }

  function Joined(ws: seq<seq<Byte>>): seq<Byte>
    requires ws != []
  {
    if |ws| == 1 then ws[0] else ws[0] + [SPACE] + Joined(ws[1..])
  }

  ghost predicate NoSpaces(ws: seq<seq<Byte>>) {
    forall k :: 0 <= k < |ws| ==> SPACE !in ws[k]
  }

  lemma {:induction false} SplitJoins(s: seq<Byte>)
    ensures NoSpaces(Split(s)) && Joined(Split(s)) == s
  {
    if s != [] {
      SplitJoins(s[1..]);
      var ws := Split(s[1..]);
      if s[0] == SPACE {
        assert ([[]] + ws)[1..] == ws;
        assert s == [] + [SPACE] + s[1..];
      } else {
        var us := [[s[0]] + ws[0]] + ws[1..];
        assert us[1..] == ws[1..];
        assert s == [s[0]] + s[1..];
      }
    }
  }

  lemma {:induction false} JoinedSplits(ws: seq<seq<Byte>>)
    requires ws != [] && NoSpaces(ws)
    ensures Split(Joined(ws)) == ws
    decreases |ws|, |ws[0]|
  {
    var s := Joined(ws);
    if ws[0] != [] {
      var us := [ws[0][1..]] + ws[1..];
      assert us[1..] == ws[1..];
      assert s[0] == ws[0][0] && s[1..] == Joined(us);
      JoinedSplits(us);
      assert [ws[0][0]] + us[0] == ws[0];
    } else if |ws| > 1 {
      assert s[1..] == Joined(ws[1..]);
      JoinedSplits(ws[1..]);
    }
  }

  /** Splitting a name gives the only spaceless words that join to it. */
  lemma SplitIff(s: seq<Byte>, ws: seq<seq<Byte>>)
    requires ws != []
    ensures ws == Split(s) <==> NoSpaces(ws) && Joined(ws) == s
  {
    SplitJoins(s);
    if NoSpaces(ws) && Joined(ws) == s {
      JoinedSplits(ws);
    }
  }

  /** The words that a command sends: a name of several words counts as several. */
  function Words(c: Command): seq<seq<Byte>> {
    Split(c.name) + c.args
  }

  function AllWords(cs: seq<Command>): (r: seq<seq<seq<Byte>>>)
    ensures |r| == |cs| && forall k :: 0 <= k < |r| ==> r[k] == Words(cs[k])
  {
    if cs == [] then [] else [Words(cs[0])] + AllWords(cs[1..])
  }

  function Concat(chunks: seq<seq<Byte>>): seq<Byte> {
    if chunks == [] then [] else Concat(chunks[..|chunks| - 1]) + chunks[|chunks| - 1]
  }

  lemma {:induction false} SplitOneWord(s: seq<Byte>)
    requires SPACE !in s
    ensures Split(s) == [s]
  {
    assert NoSpaces([s]) && Joined([s]) == s;
    JoinedSplits([s]);
  }

  /** pack_command. */
  method PackCommand(c: Command) returns (output: seq<seq<Byte>>)
    ensures output == [Encode(CommandReply(Words(c)))]
  {
    hide Encode, EncodeAll;
    var words;
    if SPACE in c.name {
      words := Split(c.name) + c.args;
    } else {
      SplitOneWord(c.name);
      words := [c.name] + c.args;
    }
    var buff := [STAR] + Decimal(|words|) + CRLF;
    ghost var head := buff;
    PrintedNone(words);
    assert head + [] == head;
    for i := 0 to |words|
      invariant buff == head + EncodeAll(Bulks(words)[..i])
    {
      PrintedOneMore(words, i, head);
      buff := Append(buff, words[i]);
    }
    PrintedWhole(words, []);
    assert [] + head == head && [] + Encode(CommandReply(words)) == Encode(CommandReply(words));
    output := [buff];
  }

  /** One join of pack_command: length, argument and both line ends. */
  method Append(buff: seq<Byte>, arg: seq<Byte>) returns (r: seq<Byte>)
    ensures r == buff + Encode(Bulk(arg))
  {
    r := buff + [DOLLAR] + Decimal(|arg|) + CRLF + arg + CRLF;
    assert r == buff + ([DOLLAR] + Decimal(|arg|) + CRLF + arg + CRLF);
  }

  lemma {:induction false} ConcatJoins(a: seq<seq<Byte>>, b: seq<seq<Byte>>)
    ensures Concat(a + b) == Concat(a) + Concat(b)
  {
    if b == [] {
      assert a + b == a;
    } else {
      var n := |b| - 1;
      assert (a + b)[..|a| + n] == a + b[..n];
      ConcatJoins(a, b[..n]);
    }
  }

  lemma {:induction false} EncodeCommandsSnoc(cmds: seq<seq<seq<Byte>>>, words: seq<seq<Byte>>)
    ensures EncodeCommands(cmds + [words]) == EncodeCommands(cmds) + Encode(CommandReply(words))
  {
    if cmds == [] {
      assert EncodeCommands([words]) == Encode(CommandReply(words)) + EncodeCommands([]);
    } else {
      assert (cmds + [words])[1..] == cmds[1..] + [words];
      EncodeCommandsSnoc(cmds[1..], words);
    }
  }

  lemma NothingPacked(commands: seq<Command>)
    ensures Concat([]) + Concat([]) == EncodeCommands(AllWords(commands)[..0]) && |Concat([])| == 0
  {
  }

  lemma FlushedChunk(output: seq<seq<Byte>>, pieces: seq<seq<Byte>>)
    ensures Concat(output + [Concat(pieces)]) == Concat(output) + Concat(pieces)
    ensures Concat(output) + Concat([]) == Concat(output)
  {
    assert (output + [Concat(pieces)])[..|output|] == output;
    assert Concat(output) + [] == Concat(output);
  }

  lemma OneMoreCommand(commands: seq<Command>, i: nat, output: seq<seq<Byte>>, pieces: seq<seq<Byte>>)
    requires i < |commands|
    requires Concat(output) + Concat(pieces) == EncodeCommands(AllWords(commands)[..i])
    ensures var chunk := Encode(CommandReply(Words(commands[i])));
      && Concat(pieces + [chunk]) == Concat(pieces) + chunk
      && Concat(output) + Concat(pieces + [chunk]) == EncodeCommands(AllWords(commands)[..i + 1])
  {
    hide Encode, EncodeCommands, Words;
    var chunk, all := Encode(CommandReply(Words(commands[i]))), AllWords(commands);
    assert (pieces + [chunk])[..|pieces|] == pieces;
    EncodeCommandsSnoc(all[..i], all[i]);
    assert all[..i + 1] == all[..i] + [all[i]];
    assert Concat(output) + (Concat(pieces) + chunk) == Concat(output) + Concat(pieces) + chunk;
  }

  lemma PackedParseBack(commands: seq<Command>)
    requires AllSendable(commands)
    ensures ParseMany(|commands|, EncodeCommands(AllWords(commands))) == OkAll(CommandReplies(AllWords(commands)), [])
  {
    hide ParseMany, EncodeCommands, Sendable;
    var all := AllWords(commands);
    assert EncodeCommands(all) + [] == EncodeCommands(all);
    PipelineParsesBack(all, []);
  }

  /** No argument, and no command's number of arguments, beyond 64 bits. */
  ghost predicate AllSendable(commands: seq<Command>) {
    forall k :: 0 <= k < |commands| ==> Sendable(Words(commands[k]))
  }

  lemma JustFlushed(chunk: seq<Byte>, before: seq<Byte>, commands: seq<Command>, j: nat)
    requires j < |commands| && |before| <= 6000 < |chunk| && chunk == before + Encode(CommandReply(Words(commands[j])))
    ensures FlushedInTime(chunk, commands)
  {
  }

  /** A chunk is flushed as soon as it passes 6000 bytes: without its last command it had not. */
  ghost predicate FlushedInTime(chunk: seq<Byte>, commands: seq<Command>) {
    exists j: nat, before: seq<Byte> :: j < |commands| && |before| <= 6000 < |chunk|
      && chunk == before + Encode(CommandReply(Words(commands[j])))
  }

  /** pack_commands: the chunks hold all commands in order, cut only between commands and
      only after more than 6000 bytes, and a RESP2 reader gets exactly those commands back. */
  method PackCommands(commands: seq<Command>) returns (output: seq<seq<Byte>>)
    ensures Concat(output) == EncodeCommands(AllWords(commands))
    ensures forall k :: 0 <= k < |output| - 1 ==> FlushedInTime(output[k], commands)
    ensures output != [] ==> |output[|output| - 1]| <= 6000 || FlushedInTime(output[|output| - 1], commands)
    ensures AllSendable(commands)
      ==> ParseMany(|commands|, Concat(output)) == OkAll(CommandReplies(AllWords(commands)), [])
  {
    hide *;
    output := [];
    var pieces: seq<seq<Byte>> := [];
    var bufferLength := 0;
    NothingPacked(commands);
    for i := 0 to |commands|
      invariant Concat(output) + Concat(pieces) == EncodeCommands(AllWords(commands)[..i])
      invariant |Concat(pieces)| == bufferLength <= 6000 && |Concat([])| == 0
      invariant forall k :: 0 <= k < |output| ==> FlushedInTime(output[k], commands)
    {
      var chunks := PackCommand(commands[i]);
      OneMoreCommand(commands, i, output, pieces);
      ghost var before := Concat(pieces);
      pieces := pieces + chunks;
      bufferLength := bufferLength + |chunks[0]|;
      if bufferLength > 6000 {
        FlushedChunk(output, pieces);
        JustFlushed(Concat(pieces), before, commands, i);
        output := output + [Concat(pieces)];
        FlushedChunk(output, []);
        bufferLength := 0;
        pieces := [];
      }
    }
    assert AllWords(commands)[..|commands|] == AllWords(commands);
    FlushedChunk(output, pieces);
    if pieces != [] {
      output := output + [Concat(pieces)];
    }
    if AllSendable(commands) {
      PackedParseBack(commands);
    }
  }
}
