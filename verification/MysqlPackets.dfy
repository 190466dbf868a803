/** PyMySQL's packet layer: a payload of any length is cut into packets of at most 2^24-1
    bytes, numbered modulo 256, of which only the last is shorter (MySQL Client/Server
    Protocol, "Sending More Than 16Mb"). */
module MysqlPackets {
  import opened Decimals

  const MAX_PACKET_LEN := 0xff_ffff

  /** A packet header: 24-bit little-endian length and the sequence number. */
  function Header(n: nat, number: Byte): seq<Byte>
    requires n <= MAX_PACKET_LEN
  {
    [n % 0x100, n / 0x100 % 0x100, n / 0x1_0000, number]
  }

  /** struct.pack('<i', n) for a non-negative n. */
  function PackInt32(n: nat): seq<Byte>
    requires n < 0x8000_0000
  {
    [n % 0x100, n / 0x100 % 0x100, n / 0x1_0000 % 0x100, n / 0x100_0000]
  }

  /** The packets that carry a payload, numbered from `number`. */
  function Packets(payload: seq<Byte>, number: Byte): seq<Byte>
    decreases |payload|
  {
    if |payload| < MAX_PACKET_LEN then Header(|payload|, number) + payload
    else Header(MAX_PACKET_LEN, number) + payload[..MAX_PACKET_LEN]
         + Packets(payload[MAX_PACKET_LEN..], (number + 1) % 0x100)
  }

  /** The sequence number after those packets. */
  function NextNumber(payload: seq<Byte>, number: Byte): Byte
    decreases |payload|
  {
    if |payload| < MAX_PACKET_LEN then (number + 1) % 0x100
    else NextNumber(payload[MAX_PACKET_LEN..], (number + 1) % 0x100)
  }

  /** How many packets: one for each full length, and always a shorter one after them. */
  function PacketCount(payload: seq<Byte>): nat { |payload| / MAX_PACKET_LEN + 1 }

  lemma {:induction false} NumbersCountPackets(payload: seq<Byte>, number: Byte)
    ensures NextNumber(payload, number) == (number + PacketCount(payload)) % 0x100
    ensures |Packets(payload, number)| == |payload| + 4 * PacketCount(payload)
    ensures PacketCount(payload) == |payload| / 0xff_ffff + 1
    decreases |payload|
  {
    if |payload| >= MAX_PACKET_LEN {
      var left := payload[MAX_PACKET_LEN..];
      NumbersCountPackets(left, (number + 1) % 0x100);
      assert PacketCount(payload) == PacketCount(left) + 1;
      NumberAfter(number, PacketCount(left));
    }
  }

  lemma NumberAfter(number: Byte, k: nat)
    ensures ((number + 1) % 0x100 + k) % 0x100 == (number + (k + 1)) % 0x100
  {
  }

  datatype Failure = LostConnection | WrongNumber(got: Byte, expected: Byte)

  datatype Read = Failed(why: Failure) | Packet(payload: seq<Byte>, rest: seq<Byte>, number: Byte)

  function HeaderLength(s: seq<Byte>): nat
    requires |s| >= 4
    ensures HeaderLength(s) <= MAX_PACKET_LEN
  {
    s[0] as int + 0x100 * s[1] as int + 0x1_0000 * s[2] as int
  }

  /** One round of _read_packet's loop: a single packet. */
  function OneFrom(s: seq<Byte>, number: Byte): (r: Read)
    ensures r.Packet? ==> |r.rest| < |s| && |r.payload| <= MAX_PACKET_LEN
  {
    if |s| < 4 then Failed(LostConnection)
    else if s[3] != number then Failed(if s[3] == 0 then LostConnection else WrongNumber(s[3], number))
    else if |s| < 4 + HeaderLength(s) then Failed(LostConnection)
    else Packet(s[4..4 + HeaderLength(s)], s[4 + HeaderLength(s)..], (number + 1) % 0x100)
  }

  /** _read_packet on a stream that holds s and then ends. */
  function ReadFrom(s: seq<Byte>, number: Byte): Read
    decreases |s|
  {
    match OneFrom(s, number)
    case Failed(why) => Failed(why)
    case Packet(data, rest, next) =>
      if |data| < MAX_PACKET_LEN then Packet(data, rest, next) else After(data, ReadFrom(rest, next))
  }

  /** The outcome of a read that had already collected buff. */
  function After(buff: seq<Byte>, r: Read): Read {
    match r
    case Failed(why) => Failed(why)
    case Packet(payload, rest, next) => Packet(buff + payload, rest, next)
  }

  lemma AfterAfter(a: seq<Byte>, b: seq<Byte>, r: Read)
    ensures After(a, After(b, r)) == After(a + b, r)
  {
    if r.Packet? {
      assert a + (b + r.payload) == a + b + r.payload;
    }
  }

  lemma HeaderBack(n: nat, number: Byte, rest: seq<Byte>)
    requires n <= MAX_PACKET_LEN
    ensures HeaderLength(Header(n, number) + rest) == n && (Header(n, number) + rest)[3] == number
  {
  }

  /** Three little-endian bytes are the header of the length they stand for. */
  lemma HeaderOnly(s: seq<Byte>)
    requires |s| >= 4
    ensures HeaderLength(s) <= MAX_PACKET_LEN && s[..4] == Header(HeaderLength(s), s[3])
  {
    var n := HeaderLength(s);
    assert n / 0x100 == s[1] as int + 0x100 * s[2] as int;
  }

  /** A reader recovers the payload from its packets, whatever its length. */
  lemma {:induction false} ReadBack(payload: seq<Byte>, number: Byte, rest: seq<Byte>)
    ensures ReadFrom(Packets(payload, number) + rest, number) == Packet(payload, rest, NextNumber(payload, number))
    decreases |payload|
  {
    var s := Packets(payload, number) + rest;
    if |payload| < MAX_PACKET_LEN {
      assert s == Header(|payload|, number) + (payload + rest);
      HeaderBack(|payload|, number, payload + rest);
      assert s[4..4 + |payload|] == payload && s[4 + |payload|..] == rest;
    } else {
      var first, left := payload[..MAX_PACKET_LEN], payload[MAX_PACKET_LEN..];
      var tail := Packets(left, (number + 1) % 0x100) + rest;
      assert s == Header(MAX_PACKET_LEN, number) + (first + tail);
      HeaderBack(MAX_PACKET_LEN, number, first + tail);
      assert s[4..4 + MAX_PACKET_LEN] == first && s[4 + MAX_PACKET_LEN..] == tail;
      ReadBack(left, (number + 1) % 0x100, rest);
      assert first + left == payload;
    }
  }

  lemma OneOnly(s: seq<Byte>, number: Byte)
    requires OneFrom(s, number).Packet?
    ensures var one := OneFrom(s, number);
      s == Header(|one.payload|, number) + one.payload + one.rest && one.number == (number + 1) % 0x100
  {
    var n := HeaderLength(s);
    HeaderOnly(s);
    assert s == s[..4] + s[4..4 + n] + s[4 + n..];
  }

  lemma PacketsJoin(data: seq<Byte>, left: seq<Byte>, number: Byte, rest: seq<Byte>)
    requires |data| == MAX_PACKET_LEN
    ensures Packets(data + left, number) + rest
         == Header(MAX_PACKET_LEN, number) + data + (Packets(left, (number + 1) % 0x100) + rest)
    ensures NextNumber(data + left, number) == NextNumber(left, (number + 1) % 0x100)
  {
    assert (data + left)[..MAX_PACKET_LEN] == data && (data + left)[MAX_PACKET_LEN..] == left;
  }

  /** And it accepts nothing else: what it returns was sent as exactly these packets. */
  lemma {:induction false} ReadOnly(s: seq<Byte>, number: Byte)
    requires ReadFrom(s, number).Packet?
    ensures var r := ReadFrom(s, number);
      s == Packets(r.payload, number) + r.rest && r.number == NextNumber(r.payload, number)
    decreases |s|
  {
    var one := OneFrom(s, number);
    OneOnly(s, number);
    if |one.payload| == MAX_PACKET_LEN {
      ReadOnly(one.rest, one.number);
      var r := ReadFrom(one.rest, one.number);
      PacketsJoin(one.payload, r.payload, number, r.rest);
    }
  }

  // ---- when reading fails, and how ----

  /** One packet cannot be read: the stream ends in it, or it has another number than the
      reader expects; number 0 then counts as a lost connection. */
  lemma OneFailsIff(s: seq<Byte>, number: Byte)
    ensures OneFrom(s, number) == Failed(LostConnection) <==>
      |s| < 4 || (s[3] == 0 && number != 0)
      || (s[3] == number && |s| < 4 + s[0] as int + 0x100 * s[1] as int + 0x1_0000 * s[2] as int)
    ensures forall got: Byte, expected: Byte :: OneFrom(s, number) == Failed(WrongNumber(got, expected)) <==>
      |s| >= 4 && got == s[3] && expected == number && got != expected && got != 0
  {
  }

  /** Full packets, numbered from `number`, that carry the payload so far. */
  function FullPackets(chunks: seq<seq<Byte>>, number: Byte): seq<Byte>
    requires forall k :: 0 <= k < |chunks| ==> |chunks[k]| == MAX_PACKET_LEN
  {
    if chunks == [] then []
    else Header(MAX_PACKET_LEN, number) + chunks[0] + FullPackets(chunks[1..], (number + 1) % 0x100)
  }

  function NumberAfterFull(number: Byte, k: nat): Byte { (number + k) % 0x100 }

  /** A read fails exactly as the first packet does that follows some full ones. */
  lemma {:induction false} ReadFails(chunks: seq<seq<Byte>>, number: Byte, left: seq<Byte>)
    requires forall k :: 0 <= k < |chunks| ==> |chunks[k]| == MAX_PACKET_LEN
    ensures var s := FullPackets(chunks, number) + left;
      var one := OneFrom(left, NumberAfterFull(number, |chunks|));
      one.Failed? ==> ReadFrom(s, number) == one
    decreases |chunks|
  {
    hide ReadFrom, OneFrom, Header;
    if chunks == [] {
      assert [] + left == left && NumberAfterFull(number, 0) == number;
      FailsAtOnce(left, number);
    } else {
      var next: Byte := (number + 1) % 0x100;
      var more := FullPackets(chunks[1..], next);
      JoinRight(Header(MAX_PACKET_LEN, number) + chunks[0], more, left);
      FullPacketRead(chunks[0], number, more + left);
      ReadFails(chunks[1..], next, left);
      NumberAfter(number, |chunks| - 1);
    }
  }

  lemma JoinRight(a: seq<Byte>, b: seq<Byte>, c: seq<Byte>)
    ensures a + b + c == a + (b + c)
  {
  }

  lemma FailsAtOnce(s: seq<Byte>, number: Byte)
    ensures OneFrom(s, number).Failed? ==> ReadFrom(s, number) == OneFrom(s, number)
  {
  }

  lemma FullPacketRead(data: seq<Byte>, number: Byte, more: seq<Byte>)
    requires |data| == MAX_PACKET_LEN
    ensures ReadFrom(Header(MAX_PACKET_LEN, number) + data + more, number)
         == After(data, ReadFrom(more, (number + 1) % 0x100))
  {
    var s := Header(MAX_PACKET_LEN, number) + data + more;
    assert s == Header(MAX_PACKET_LEN, number) + (data + more);
    HeaderBack(MAX_PACKET_LEN, number, data + more);
    assert s[4..4 + MAX_PACKET_LEN] == data && s[4 + MAX_PACKET_LEN..] == more;
  }

  lemma {:induction false} FailsAfterFull(s: seq<Byte>, number: Byte) returns (chunks: seq<seq<Byte>>, left: seq<Byte>)
    requires ReadFrom(s, number).Failed?
    ensures forall k :: 0 <= k < |chunks| ==> |chunks[k]| == MAX_PACKET_LEN
    ensures s == FullPackets(chunks, number) + left
    ensures OneFrom(left, NumberAfterFull(number, |chunks|)) == ReadFrom(s, number)
    decreases |s|
  {
    var one := OneFrom(s, number);
    hide OneFrom, Header;
    if one.Failed? {
      chunks, left := [], s;
      assert [] + s == s && NumberAfterFull(number, 0) == number;
    } else {
      OneOnly(s, number);
      var more;
      more, left := FailsAfterFull(one.rest, one.number);
      chunks := [one.payload] + more;
      assert chunks[1..] == more;
      hide ReadFrom;
      NumberAfter(number, |more|);
      JoinRight(Header(MAX_PACKET_LEN, number) + one.payload, FullPackets(more, one.number), left);
    }
  }

  /** _read_packet fails with an error if and only if the stream is some full packets, in
      sequence, and then bytes at which one packet fails with that error. */
  lemma ReadFailsIff(s: seq<Byte>, number: Byte, why: Failure)
    ensures ReadFrom(s, number) == Failed(why) <==>
      exists chunks: seq<seq<Byte>>, left: seq<Byte> :: FailsAt(s, number, why, chunks, left)
  {
    if ReadFrom(s, number) == Failed(why) {
      var chunks, left := FailsAfterFull(s, number);
      assert FailsAt(s, number, why, chunks, left);
    }
    if chunks: seq<seq<Byte>>, left: seq<Byte> :| FailsAt(s, number, why, chunks, left) {
      ReadFails(chunks, number, left);
    }
  }

  predicate FailsAt(s: seq<Byte>, number: Byte, why: Failure, chunks: seq<seq<Byte>>, left: seq<Byte>) {
    && (forall k :: 0 <= k < |chunks| ==> |chunks[k]| == MAX_PACKET_LEN)
    && s == FullPackets(chunks, number) + left
    && OneFrom(left, NumberAfterFull(number, |chunks|)) == Failed(why)
  }

  /** Reading is exactly the inverse of sending. */
  lemma ReadIffSent(s: seq<Byte>, number: Byte, payload: seq<Byte>, rest: seq<Byte>, next: Byte)
    ensures ReadFrom(s, number) == Packet(payload, rest, next)
       <==> s == Packets(payload, number) + rest && next == NextNumber(payload, number)
  {
    if ReadFrom(s, number) == Packet(payload, rest, next) {
      ReadOnly(s, number);
    }
    if s == Packets(payload, number) + rest {
      ReadBack(payload, number, rest);
    }
  }

  /** The packet that _execute_command builds by hand. */
  lemma FirstPacket(command: Byte, sql: seq<Byte>, size: nat)
    requires 0 < size <= |sql| + 1 && size <= MAX_PACKET_LEN
    ensures PackInt32(size) + [command] + sql[..size - 1] == Header(size, 0) + ([command] + sql)[..size]
  {
    assert PackInt32(size) == Header(size, 0);
    assert ([command] + sql)[..size] == [command] + sql[..size - 1];
  }

  class Connection {
    var sent: seq<Byte>     // through the socket, so far
    var rfile: seq<Byte>    // arrived, not yet read
    var nextSeqId: Byte

    constructor (rfile: seq<Byte>)
      ensures sent == [] && this.rfile == rfile && nextSeqId == 0
    {
      sent, this.rfile, nextSeqId := [], rfile, 0;
    }

    method WritePacket(payload: seq<Byte>)
      requires |payload| <= MAX_PACKET_LEN
      modifies this`sent, this`nextSeqId
      ensures sent == old(sent) + Header(|payload|, old(nextSeqId)) + payload
      ensures nextSeqId == (old(nextSeqId) + 1) % 0x100
    {
      var data := PackInt32(|payload|)[..3] + [nextSeqId] + payload;
      assert PackInt32(|payload|)[..3] + [nextSeqId] == Header(|payload|, nextSeqId);
      sent := sent + data;
      assert sent == old(sent) + Header(|payload|, old(nextSeqId)) + payload;
      nextSeqId := (nextSeqId + 1) % 0x100;
    }

    /** _execute_command: the first packet is built by hand, the others by write_packet. */
    method ExecuteCommand(command: Byte, sql: seq<Byte>)
      modifies this`sent, this`nextSeqId
      ensures sent == old(sent) + Packets([command] + sql, 0)
      ensures nextSeqId == NextNumber([command] + sql, 0)
    {
      var payload := [command] + sql;
      var packetSize := if MAX_PACKET_LEN <= |sql| + 1 then MAX_PACKET_LEN else |sql| + 1;
      var prelude := PackInt32(packetSize) + [command];
      var packet := prelude + sql[..packetSize - 1];
      FirstPacket(command, sql, packetSize);
      sent := sent + packet;
      nextSeqId := 1;
      if packetSize < MAX_PACKET_LEN {
        assert payload[..packetSize] == payload;
        return;
      }
      var left := sql[packetSize - 1..];
      assert left == payload[MAX_PACKET_LEN..];
      SendRest(left);
    }

    /** _execute_command's loop: it stops only after a packet that is not full. */
    method SendRest(sql: seq<Byte>)
      modifies this`sent, this`nextSeqId
      ensures sent == old(sent) + Packets(sql, old(nextSeqId)) && nextSeqId == NextNumber(sql, old(nextSeqId))
    {
      var left := sql;
      while true
        invariant sent + Packets(left, nextSeqId) == old(sent) + Packets(sql, old(nextSeqId))
        invariant NextNumber(left, nextSeqId) == NextNumber(sql, old(nextSeqId))
        decreases |left|
      {
        ghost var was := left;
        var packetSize := if MAX_PACKET_LEN <= |left| then MAX_PACKET_LEN else |left|;
        WritePacket(left[..packetSize]);
        left := left[packetSize..];
        if |left| == 0 && packetSize < MAX_PACKET_LEN {
          assert was[..packetSize] == was;
          break;
        }
      }
    }

    /** _read_bytes; short data means that the connection is gone. */
    method ReadBytes(n: nat) returns (data: seq<Byte>, lost: bool)
      modifies this`rfile
      ensures lost <==> |old(rfile)| < n
      ensures !lost ==> data == old(rfile)[..n] && rfile == old(rfile)[n..]
    {
      if |rfile| < n {
        return rfile, true;
      }
      data, lost := rfile[..n], false;
      rfile := rfile[n..];
    }

    /** The body of _read_packet's loop. */
    method ReadOne() returns (r: Read)
      modifies this`rfile, this`nextSeqId
      ensures r == OneFrom(old(rfile), old(nextSeqId))
      ensures r.Packet? ==> rfile == r.rest && nextSeqId == r.number
    {
      ghost var s := rfile;
      var header, lost := ReadBytes(4);
      if lost {
        return Failed(LostConnection);
      }
      var bytesToRead := HeaderLength(header);
      if header[3] != nextSeqId {
        return Failed(if header[3] == 0 then LostConnection else WrongNumber(header[3], nextSeqId));
      }
      nextSeqId := (nextSeqId + 1) % 0x100;
      var data;
      data, lost := ReadBytes(bytesToRead);
      if lost {
        return Failed(LostConnection);
      }
      assert data == s[4..4 + bytesToRead] && rfile == s[4 + bytesToRead..];
      return Packet(data, rfile, nextSeqId);
    }

    /** _read_packet, up to the interpretation of the payload. */
    method ReadPacket() returns (r: Read)
      modifies this`rfile, this`nextSeqId
      ensures r == ReadFrom(old(rfile), old(nextSeqId))
      ensures r.Packet? ==> rfile == r.rest && nextSeqId == r.number
    {
      var buff := [];
      assert After([], ReadFrom(rfile, nextSeqId)) == ReadFrom(rfile, nextSeqId);
      while true
        invariant ReadFrom(old(rfile), old(nextSeqId)) == After(buff, ReadFrom(rfile, nextSeqId))
        decreases |rfile|
      {
        var one := ReadOne();
        if one.Failed? {
          return one;
        }
        AfterAfter(buff, one.payload, ReadFrom(rfile, nextSeqId));
        buff := buff + one.payload;
        if |one.payload| < MAX_PACKET_LEN {
          return Packet(buff, rfile, nextSeqId);
        }
      }
    }
  }

  /** A server that reads what the client's _execute_command sent gets the command byte and
      the whole of sql, and both sides agree on the next sequence number. */
  method CommandArrives(command: Byte, sql: seq<Byte>) returns (client: Connection, server: Connection, r: Read)
    ensures r == Packet([command] + sql, [], NextNumber([command] + sql, 0))
    ensures server.nextSeqId == client.nextSeqId && server.rfile == []
  {
    client := new Connection([]);
    client.ExecuteCommand(command, sql);
    server := new Connection(client.sent);
    ReadBack([command] + sql, 0, []);
    assert client.sent == Packets([command] + sql, 0) + [];
    r := server.ReadPacket();
  }
}
