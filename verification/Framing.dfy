/** Packet framing: the send buffer, MakeSendBuffer's 16-bit arithmetic, the
    frames on a byte stream, and the client's reading of what it receives. */
module Framing {
  import opened Wire
  import opened Messages
  import Codec
  import opened Layout
  import Stream
  import StructPb
  import ProtocolPb

  // RxPacketHeader: protocolId then packetSize, two little-endian uint16.
  const HEADER_SIZE := 4

  function Header(protocolId: uint16, packetSize: uint16): (h: seq<byte>)
    ensures |h| == HEADER_SIZE
  {
    ToLE(protocolId, 2) + ToLE(packetSize, 2)
  }

  predicate Fits(payload: seq<byte>) { HEADER_SIZE + |payload| < TWO16 }

  function Frame(protocolId: uint16, payload: seq<byte>): seq<byte>
    requires Fits(payload)
  {
    Header(protocolId, HEADER_SIZE + |payload|) + payload
  }

  // The header byte by byte, low byte first.
  lemma HeaderBytes(protocolId: uint16, packetSize: uint16)
    ensures Header(protocolId, packetSize) == [protocolId % 256, protocolId / 256, packetSize % 256, packetSize / 256]
  {
    Word16(protocolId);
    Word16(packetSize);
  }

  // A frame is the header with the size of both, and the payload.
  lemma FrameBytes(protocolId: uint16, payload: seq<byte>)
    requires 4 + |payload| <= 65535
    ensures Fits(payload)
    ensures var n := 4 + |payload|;
            Frame(protocolId, payload) == [protocolId % 256, protocolId / 256, n % 256, n / 256] + payload
  {
    HeaderBytes(protocolId, 4 + |payload|);
  }

  //////////////////////////////////////////////////////////////////////////
  // The send buffer
  //////////////////////////////////////////////////////////////////////////

  class SendBuffer {
    var buffer: array<byte>
    var writeSize: uint32

    constructor (bufferSize: uint32)
      ensures fresh(buffer) && buffer.Length == bufferSize && writeSize == 0
      ensures forall i :: 0 <= i < bufferSize ==> buffer[i] == 0
    {
      buffer := new byte[bufferSize](_ => 0);
      writeSize := 0;
    }

    // What a send transmits: the first writeSize bytes.
    function Transmitted(): seq<byte>
      requires writeSize <= buffer.Length
      reads this, buffer
    {
      buffer[..writeSize]
    }

    method CopyBuffer(source: seq<byte>, size: uint32)
      requires size <= |source| && size <= buffer.Length
      modifies this`writeSize, buffer
      ensures writeSize <= buffer.Length && Transmitted() == source[..size]
      ensures buffer[size..] == old(buffer[size..])
    {
      forall i | 0 <= i < size {
        buffer[i] := source[i];
      }
      writeSize := size;
    }

    method SetWriteSize(size: uint32)
      modifies `writeSize
      ensures writeSize == size
    {
      writeSize := size;
    }
  }

  //////////////////////////////////////////////////////////////////////////
  // MakeSendBuffer
  //////////////////////////////////////////////////////////////////////////

  // HeaderOverrun: the 16-bit packet size wrapped to less than a header, so
  // that writing the header would leave the buffer.  AssertionFailed: the
  // truncated data size is too small for the packet, serialisation refuses.
  datatype Outcome = Made(sent: SendBuffer) | HeaderOverrun | AssertionFailed

  method WriteHeader(buf: array<byte>, protocolId: uint16, packetSize: uint16)
    requires HEADER_SIZE <= buf.Length
    modifies buf
    ensures buf[..] == Stream.Splice(old(buf[..]), 0, Header(protocolId, packetSize))
    ensures buf[..4] == [protocolId % 256, protocolId / 256, packetSize % 256, packetSize / 256]
    ensures buf[4..] == old(buf[4..])
  {
    ghost var was := buf[..];
    Stream.SpliceNothing(was, 0);
    var _ := Stream.WriteRaw(buf, 0, Header(protocolId, packetSize), was, 0, []);
    assert [] + Header(protocolId, packetSize) == Header(protocolId, packetSize);
    HeaderBytes(protocolId, packetSize);
  }

  // The uint16 variables of MakeSendBuffer.
  function DataSize16(byteSize: nat): uint16 { byteSize % TWO16 }

  function PacketSize16(byteSize: nat): uint16 { (HEADER_SIZE + DataSize16(byteSize)) % TWO16 }

  // The stored packet size is the true one exactly when that is below 65536;
  // otherwise it is short of a header, or the data size is short of the data.
  lemma SixteenBits(n: nat)
    ensures PacketSize16(n) == HEADER_SIZE + n <==> HEADER_SIZE + n < TWO16
    ensures PacketSize16(n) < HEADER_SIZE <==> TWO16 <= HEADER_SIZE + DataSize16(n)
    ensures HEADER_SIZE <= PacketSize16(n) ==> PacketSize16(n) == HEADER_SIZE + DataSize16(n)
    ensures HEADER_SIZE <= PacketSize16(n) ==> (HEADER_SIZE + n < TWO16 <==> n <= DataSize16(n))
  {
  }

  // The frame comes out whole exactly when header and payload together fit
  // 16 bits; then capacity, write size and the size in the header agree and
  // the payload fills the rest of the buffer.
  method MakeSendBuffer(packet: ProtocolPb.STest, protocolId: uint16) returns (r: Outcome)
    requires packet.Valid()
    modifies packet`cachedSize, packet.buffs`victimsCachedByteSize, packet.buffs`cachedSize
    ensures packet.Value() == old(packet.Value())
    ensures r.Made? <==> Fits(TestSerialize(packet.Value()))
    ensures r.Made? ==>
              && fresh(r.sent) && fresh(r.sent.buffer)
              && r.sent.buffer[..] == Frame(protocolId, TestSerialize(packet.Value()))
              && r.sent.writeSize == r.sent.buffer.Length
    ensures r.HeaderOverrun? <==> TWO16 <= HEADER_SIZE + |TestSerialize(packet.Value())| % TWO16
  {
    ghost var payload := TestSerialize(packet.Value());
    SixteenBits(|payload|);
    var byteSize := packet.ByteSizeLong();
    var dataSize := DataSize16(byteSize);
    var packetSize := PacketSize16(byteSize);
    var spSendBuffer := new SendBuffer(packetSize);
    if packetSize < HEADER_SIZE { return HeaderOverrun; }
    var ok := FillFrame(packet, protocolId, spSendBuffer.buffer, dataSize);
    if !ok { return AssertionFailed; }
    spSendBuffer.SetWriteSize(packetSize);
    r := Made(spSendBuffer);
  }

  // Header first, then the payload right behind it.
  method FillFrame(packet: ProtocolPb.STest, protocolId: uint16, buf: array<byte>, dataSize: uint16) returns (ok: bool)
    requires packet.Valid()
    requires HEADER_SIZE + dataSize == buf.Length < TWO16
    modifies buf, packet`cachedSize, packet.buffs`victimsCachedByteSize, packet.buffs`cachedSize
    ensures packet.Value() == old(packet.Value())
    ensures ok == (|TestSerialize(packet.Value())| <= dataSize)
    ensures ok && dataSize == |TestSerialize(packet.Value())| ==>
              buf[..] == Frame(protocolId, TestSerialize(packet.Value()))
  {
    ghost var payload := TestSerialize(packet.Value());
    WriteHeader(buf, protocolId, buf.Length);
    ghost var headed := buf[..];
    ok := packet.SerializeToArray(buf, HEADER_SIZE, dataSize);
    if ok && dataSize == |payload| { FillsBuffer(headed, protocolId, payload); }
  }

  lemma FillsBuffer(headed: seq<byte>, protocolId: uint16, payload: seq<byte>)
    requires Fits(payload) && |headed| == HEADER_SIZE + |payload|
    requires headed[..HEADER_SIZE] == Header(protocolId, HEADER_SIZE + |payload|)
    ensures Stream.Splice(headed, HEADER_SIZE, payload) == Frame(protocolId, payload)
  {
  }

  //////////////////////////////////////////////////////////////////////////
  // Frames on a stream
  //////////////////////////////////////////////////////////////////////////

  datatype Packet = Packet(protocolId: uint16, payload: seq<byte>)

  predicate AllFit(ps: seq<Packet>) { forall p <- ps :: Fits(p.payload) }

  function Frames(ps: seq<Packet>): seq<byte>
    requires AllFit(ps)
  {
    if ps == [] then [] else Frame(ps[0].protocolId, ps[0].payload) + Frames(ps[1..])
  }

  // Splits a stream by length prefix; every byte must belong to a frame.
  function Split(s: seq<byte>): Option<seq<Packet>>
    decreases |s|
  {
    if s == [] then Some([])
    else if |s| < HEADER_SIZE then None
    else
      var protocolId, packetSize := Fixed16(s[..2]), Fixed16(s[2..4]);
      if packetSize < HEADER_SIZE || packetSize > |s| then None
      else
        match Split(s[packetSize..])
        case None => None
        case Some(ps) => Some([Packet(protocolId, s[HEADER_SIZE..packetSize])] + ps)
  }

  lemma Fixed16RoundTrip(v: uint16)
    ensures Fixed16(ToLE(v, 2)) == v
  {
    assert Pow256(2) == TWO16;
    LERoundTrip(v, 2);
  }

  lemma ReadsHeader(protocolId: uint16, packetSize: uint16, rest: seq<byte>)
    ensures var s := Header(protocolId, packetSize) + rest;
            && Fixed16(s[..2]) == protocolId && Fixed16(s[2..4]) == packetSize && s[4..] == rest
  {
    var s := Header(protocolId, packetSize) + rest;
    Fixed16RoundTrip(protocolId);
    Fixed16RoundTrip(packetSize);
    assert s[..2] == ToLE(protocolId, 2) && s[2..4] == ToLE(packetSize, 2);
  }

  lemma ReadsFrame(p: Packet, rest: seq<byte>)
    requires Fits(p.payload)
    ensures var s := Frame(p.protocolId, p.payload) + rest; var n := HEADER_SIZE + |p.payload|;
            && Fixed16(s[..2]) == p.protocolId && Fixed16(s[2..4]) == n
            && s[HEADER_SIZE..n] == p.payload && s[n..] == rest
  {
    var n := HEADER_SIZE + |p.payload|;
    var s := Frame(p.protocolId, p.payload) + rest;
    ReadsHeader(p.protocolId, n, p.payload + rest);
    Assoc(Header(p.protocolId, n), p.payload, rest);
    assert s[HEADER_SIZE..] == p.payload + rest;
    assert s[HEADER_SIZE..n] == s[HEADER_SIZE..][..|p.payload|];
    assert s[n..] == s[HEADER_SIZE..][|p.payload|..];
  }

  lemma {:induction false} SplitFrames(ps: seq<Packet>)
    requires AllFit(ps)
    ensures Split(Frames(ps)) == Some(ps)
  {
    if ps != [] {
      var rest := Frames(ps[1..]);
      assert Fits(ps[0].payload);
      ReadsFrame(ps[0], rest);
      SplitFrames(ps[1..]);
      assert [ps[0]] + ps[1..] == ps;
    }
  }

  lemma HeaderUnique(s: seq<byte>)
    requires |s| == HEADER_SIZE
    ensures Header(Fixed16(s[..2]), Fixed16(s[2..4])) == s
  {
    LEUnique(s[..2]);
    LEUnique(s[2..4]);
  }

  lemma {:induction false} SplitSound(s: seq<byte>)
    requires Split(s).Some?
    ensures AllFit(Split(s).value) && Frames(Split(s).value) == s
    decreases |s|
  {
    if s != [] {
      var n := Fixed16(s[2..4]);
      var p := Packet(Fixed16(s[..2]), s[HEADER_SIZE..n]);
      var tail := s[n..];
      SplitSound(tail);
      var ps := Split(s).value;
      assert ps[0] == p && ps[1..] == Split(tail).value;
      assert ps == [p] + ps[1..];
      var h := s[..HEADER_SIZE];
      assert h[..2] == s[..2] && h[2..4] == s[2..4];
      HeaderUnique(h);
      assert s == h + p.payload + tail;
    }
  }

  // The splitter is the exact inverse of framing: a stream splits into these
  // packets precisely when it is their frames in a row.  In particular it
  // splits in at most one way.
  lemma SplitIff(s: seq<byte>, ps: seq<Packet>)
    ensures Split(s) == Some(ps) <==> AllFit(ps) && Frames(ps) == s
  {
    if AllFit(ps) { SplitFrames(ps); }
    if Split(s).Some? { SplitSound(s); }
  }

  //////////////////////////////////////////////////////////////////////////
  // Messages on a stream
  //////////////////////////////////////////////////////////////////////////

  datatype Message = Message(protocolId: uint16, test: TestMsg)

  predicate Sendable(m: Message) { Codec.TestOk(m.test) && Fits(TestSerialize(m.test)) }

  function ToPackets(ms: seq<Message>): (ps: seq<Packet>)
    ensures |ps| == |ms|
  {
    if ms == [] then [] else [Packet(ms[0].protocolId, TestSerialize(ms[0].test))] + ToPackets(ms[1..])
  }

  function FromPackets(ps: seq<Packet>): Option<seq<Message>>
  {
    if ps == [] then Some([])
    else
      match TestParse(ps[0].payload)
      case None => None
      case Some(t) =>
        match FromPackets(ps[1..])
        case None => None
        case Some(ms) => Some([Message(ps[0].protocolId, t)] + ms)
  }

  function Receive(s: seq<byte>): Option<seq<Message>>
  {
    match Split(s)
    case None => None
    case Some(ps) => FromPackets(ps)
  }

  // Packets built from messages give the messages back exactly when no
  // unknown field in them poses as a field of the schema.
  lemma {:induction false} PacketsRoundTrip(ms: seq<Message>)
    requires forall m <- ms :: Fits(TestSerialize(m.test))
    ensures AllFit(ToPackets(ms))
    ensures FromPackets(ToPackets(ms)) == Some(ms) <==> forall m <- ms :: Codec.TestOk(m.test)
  {
    if ms != [] {
      var m, rest := ms[0], ToPackets(ms[1..]);
      var p := Packet(m.protocolId, TestSerialize(m.test));
      assert ms == [m] + ms[1..];
      PacketsRoundTrip(ms[1..]);
      Codec.TestRoundTrip(m.test);
      var ps := ToPackets(ms);
      assert ps[0] == p && ps[1..] == rest && ps == [p] + rest;
      FirstMessage(ps, ms);
    }
  }

  lemma FirstMessage(ps: seq<Packet>, ms: seq<Message>)
    requires ps != [] && ms != []
    ensures FromPackets(ps) == Some(ms) <==>
            && ms[0].protocolId == ps[0].protocolId && TestParse(ps[0].payload) == Some(ms[0].test)
            && FromPackets(ps[1..]) == Some(ms[1..])
  {
    assert ms == [ms[0]] + ms[1..];
    if FromPackets(ps).Some? {
      var got := FromPackets(ps).value;
      assert got[1..] == FromPackets(ps[1..]).value;
    }
  }

  // The frames of messages that fit are received as those messages - same
  // protocol ids, same order - exactly when every message is TestOk.
  lemma StreamRoundTrip(ms: seq<Message>)
    requires forall m <- ms :: Fits(TestSerialize(m.test))
    ensures AllFit(ToPackets(ms))
    ensures Receive(Frames(ToPackets(ms))) == Some(ms) <==> forall m <- ms :: Codec.TestOk(m.test)
  {
    PacketsRoundTrip(ms);
    SplitFrames(ToPackets(ms));
  }

  //////////////////////////////////////////////////////////////////////////
  // The client
  //////////////////////////////////////////////////////////////////////////

  const TEST_PROTOCOL: uint16 := 1

  // What the client does with the bytes it is handed.  Misframed: the size in
  // the header does not lie between a header and what was received.  Unparsed:
  // parsing failed, which the client does not look at; it shows at least what
  // was read before the fault.
  datatype ClientResult = Ignored | Misframed | Unparsed(read: TestMsg) | Shown(test: TestMsg)

  // HandlePacket and PasingTestPacket.  A header that could not be read stays
  // all zeros, and protocol 0 is ignored.
  function ClientReceive(s: seq<byte>): ClientResult
  {
    if |s| < HEADER_SIZE then Ignored
    else
      var protocolId, packetSize := Fixed16(s[..2]), Fixed16(s[2..4]);
      if protocolId != TEST_PROTOCOL then Ignored
      else if packetSize < HEADER_SIZE || packetSize > |s| then Misframed
      else
        match TestParse(s[HEADER_SIZE..packetSize])
        case None => Unparsed(TestReadable(EMPTY_TEST, s[HEADER_SIZE..packetSize]))
        case Some(t) => Shown(t)
  }

  // The same from the bytes: protocol 1 and a size that covers the header and
  // lies within what was received, both low byte first.
  lemma ClientReceiveBytes(s: seq<byte>)
    ensures |s| < 4 ==> ClientReceive(s) == Ignored
    ensures |s| >= 4 && !(s[0] == 1 && s[1] == 0) ==> ClientReceive(s) == Ignored
    ensures |s| >= 4 && s[0] == 1 && s[1] == 0 ==>
              var n := s[2] as int + 256 * (s[3] as int);
              ClientReceive(s) ==
              if n < 4 || n > |s| then Misframed
              else if TestParse(s[4..n]).Some? then Shown(TestParse(s[4..n]).value)
              else Unparsed(TestReadable(EMPTY_TEST, s[4..n]))
  {
    if |s| >= 4 {
      Fixed16Bytes(s[..2]);
      Fixed16Bytes(s[2..4]);
    }
  }

  lemma ClientReadsFirst(m: Message, rest: seq<byte>)
    requires Sendable(m)
    ensures ClientReceive(Frame(m.protocolId, TestSerialize(m.test)) + rest) ==
            if m.protocolId == TEST_PROTOCOL then Shown(m.test) else Ignored
  {
    ReadsFrame(Packet(m.protocolId, TestSerialize(m.test)), rest);
    Codec.TestRoundTrip(m.test);
  }

  // The client does not look at the refusal of a payload that breaks off after
  // some good records: it shows what those records say.
  lemma ClientShowsBroken(good: seq<byte>, bad: seq<byte>, rest: seq<byte>)
    requires Fits(good + bad) && TestParse(good).Some?
    requires bad != [] && ReadRecord(bad).None?
    ensures ClientReceive(Frame(TEST_PROTOCOL, good + bad) + rest) == Unparsed(TestParse(good).value)
  {
    ReadsFrame(Packet(TEST_PROTOCOL, good + bad), rest);
    DecodeRecordsConcat(good, bad);
    TestReadableConcat(EMPTY_TEST, good, bad);
  }

  function ShownMessages(s: seq<byte>): seq<TestMsg>
  {
    match ClientReceive(s)
    case Shown(t) => [t]
    case Ignored => []
    case Misframed => []
    case Unparsed(_) => []
  }

  // The test packets among ms.
  function Tests(ms: seq<Message>): seq<TestMsg>
  {
    if ms == [] then []
    else (if ms[0].protocolId == TEST_PROTOCOL then [ms[0].test] else []) + Tests(ms[1..])
  }

  lemma {:induction false} NoTests(ms: seq<Message>)
    ensures Tests(ms) == [] <==> forall m <- ms :: m.protocolId != TEST_PROTOCOL
  {
    if ms != [] {
      assert ms == [ms[0]] + ms[1..];
      NoTests(ms[1..]);
    }
  }

  // One call of HandlePacket looks at one packet: of the messages it is handed
  // back to back it shows at most the first, and so shows every test packet
  // exactly when none comes after the first message.
  lemma ClientShowsAllIff(ms: seq<Message>)
    requires forall m <- ms :: Sendable(m)
    ensures AllFit(ToPackets(ms))
    ensures ShownMessages(Frames(ToPackets(ms))) ==
            if ms != [] && ms[0].protocolId == TEST_PROTOCOL then [ms[0].test] else []
    ensures ShownMessages(Frames(ToPackets(ms))) == Tests(ms) <==>
            ms == [] || forall m <- ms[1..] :: m.protocolId != TEST_PROTOCOL
  {
    PacketsRoundTrip(ms);
    if ms != [] {
      ClientReadsFirst(ms[0], Frames(ToPackets(ms)[1..]));
      NoTests(ms[1..]);
    }
  }

  //////////////////////////////////////////////////////////////////////////
  // The packet the server sends
  //////////////////////////////////////////////////////////////////////////

  // 1.2f and 2.2f by their bits.
  const FIRST_BUFF := BuffMsg(100, 0x3F99_999A, [10], [])
  const SECOND_BUFF := BuffMsg(200, 0x400C_CCCD, [], [])
  const TEST_PACKET := TestMsg(10, 100, 10, [FIRST_BUFF, SECOND_BUFF], [])

  // The frame of that packet, byte by byte.
  const TEST_HEAD: seq<byte> := [0x08, 0x0A, 0x10, 0x64, 0x18, 0x0A]
  const FIRST_BODY: seq<byte> := [0x08, 0x64] + [0x15, 0x9A, 0x99, 0x99, 0x3F] + [0x1A, 0x01, 0x0A]
  const SECOND_BODY: seq<byte> := [0x08, 0xC8, 0x01] + [0x15, 0xCD, 0xCC, 0x0C, 0x40]
  const TEST_FRAME: seq<byte> :=
    [0x01, 0x00, 0x20, 0x00] + (TEST_HEAD + (([0x22, 0x0A] + FIRST_BODY) + ([0x22, 0x08] + SECOND_BODY)))

  lemma Pieces()
    ensures ScalarBytes(8, 100) == [0x08, 0x64] && ScalarBytes(8, 200) == [0x08, 0xC8, 0x01]
    ensures FloatBytes(0x3F99_999A) == [0x15, 0x9A, 0x99, 0x99, 0x3F]
    ensures FloatBytes(0x400C_CCCD) == [0x15, 0xCD, 0xCC, 0x0C, 0x40]
    ensures PackedBytes([10], DataSize([10])) == [0x1A, 0x01, 0x0A]
    ensures TestHeadBytes(10, 100, 10) == TEST_HEAD
  {
    assert EncodeVarint(200) == [0xC8, 0x01];
    assert ToLE(0x3F99_999A, 4) == [0x9A, 0x99, 0x99, 0x3F];
    assert ToLE(0x400C_CCCD, 4) == [0xCD, 0xCC, 0x0C, 0x40];
    var vs: seq<uint64> := [10];
    assert vs[1..] == [];
  }

  lemma BuffBytes()
    ensures BuffSerialize(FIRST_BUFF) == FIRST_BODY && BuffSerialize(SECOND_BUFF) == SECOND_BODY
  {
    Pieces();
    BuffLayout(FIRST_BUFF);
    BuffLayout(SECOND_BUFF);
    assert EncodeRecords([]) == [] && FIRST_BODY + [] == FIRST_BODY && SECOND_BODY + [] + [] == SECOND_BODY;
  }

  lemma ShortEntry(body: seq<byte>)
    requires |body| < 128
    ensures LenRec(4, body).Encode() == [0x22, |body|] + body
  {
  }

  lemma EntriesOfTwo(a: BuffMsg, b: BuffMsg)
    requires |BuffSerialize(a)| < 128 && |BuffSerialize(b)| < 128
    ensures var x, y := BuffSerialize(a), BuffSerialize(b);
            EncodeRecords(BuffEntries([a, b])) == ([0x22, |x|] + x) + ([0x22, |y|] + y)
  {
    var ab, rest := [a, b], [b];
    assert ab[1..] == rest && rest[1..] == [] && EncodeRecords(BuffEntries([])) == [];
    EntriesStep(ab);
    EntriesStep(rest);
    ShortEntry(BuffSerialize(a));
    ShortEntry(BuffSerialize(b));
  }

  lemma TestPacketBytes()
    ensures TestSerialize(TEST_PACKET) == TEST_HEAD + (([0x22, 0x0A] + FIRST_BODY) + ([0x22, 0x08] + SECOND_BODY))
  {
    Pieces();
    BuffBytes();
    EntriesOfTwo(FIRST_BUFF, SECOND_BUFF);
    TestRecordsLayout(TEST_PACKET);
    assert |FIRST_BODY| == 10 && |SECOND_BODY| == 8;
    assert EncodeRecords([]) == [];
  }

  lemma TestFrameBytes()
    ensures Fits(TestSerialize(TEST_PACKET))
    ensures Frame(TEST_PROTOCOL, TestSerialize(TEST_PACKET)) == TEST_FRAME
  {
    TestPacketBytes();
    assert |TestSerialize(TEST_PACKET)| == 28;
    assert Header(1, 32) == [0x01, 0x00, 0x20, 0x00] by {
      assert ToLE(1, 2) == [0x01, 0x00] && ToLE(32, 2) == [0x20, 0x00];
    }
  }

  lemma TestPacketSendable()
    ensures Sendable(Message(TEST_PROTOCOL, TEST_PACKET))
  {
    TestFrameBytes();
  }

  method FillFirst(pBuffData: StructPb.BuffData)
    requires pBuffData.Value() == EMPTY_BUFF
    modifies pBuffData`buffId, pBuffData`remainTime, pBuffData`victims
    ensures pBuffData.Value() == FIRST_BUFF
  {
    pBuffData.SetBuffId(100);
    pBuffData.SetRemainTime(0x3F99_999A);
    pBuffData.AddVictims(10);
    assert [] + [10] == [10];
  }

  method FillSecond(pBuffData: StructPb.BuffData)
    requires pBuffData.Value() == EMPTY_BUFF
    modifies pBuffData`buffId, pBuffData`remainTime
    ensures pBuffData.Value() == SECOND_BUFF
  {
    pBuffData.SetBuffId(200);
    pBuffData.SetRemainTime(0x400C_CCCD);
  }

  lemma ValuesOfTwo(first: StructPb.BuffData, second: StructPb.BuffData)
    ensures ProtocolPb.Values([first, second]) == [first.Value(), second.Value()]
  {
  }

  method AddTestBuffs(packet: ProtocolPb.STest)
    requires packet.Valid() && packet.buffs == []
    modifies packet`buffs
    ensures packet.Valid() && fresh(packet.buffs)
    ensures ProtocolPb.Values(packet.buffs) == [FIRST_BUFF, SECOND_BUFF]
  {
    var first := packet.AddBuffs();
    FillFirst(first);
    var second := packet.AddBuffs();
    assert packet.buffs == [first, second];
    FillSecond(second);
    ValuesOfTwo(first, second);
  }

  method BuildTestPacket() returns (packet: ProtocolPb.STest)
    ensures fresh(packet) && fresh(packet.buffs) && packet.Valid()
    ensures packet.Value() == TEST_PACKET
  {
    packet := new ProtocolPb.STest();
    packet.SetId(10);
    packet.SetHp(100);
    packet.SetAttack(10);
    assert packet.buffs == [];
    AddTestBuffs(packet);
  }

  // MakeTestPacket sends a fixed message and ignores all of its arguments;
  // the client shows that message.
  method MakeTestPacket(id: uint64, hp: uint32, attack: uint16, buffs: seq<BuffMsg>) returns (r: Outcome)
    ensures r.Made? && fresh(r.sent) && fresh(r.sent.buffer)
    ensures r.sent.writeSize == r.sent.buffer.Length && r.sent.Transmitted() == TEST_FRAME
    ensures ClientReceive(r.sent.Transmitted()) == Shown(TEST_PACKET)
  {
    var packet := BuildTestPacket();
    TestPacketSendable();
    r := MakeSendBuffer(packet, TEST_PROTOCOL);
    TestFrameBytes();
    ClientReadsFirst(Message(TEST_PROTOCOL, TEST_PACKET), []);
    assert TEST_FRAME + [] == TEST_FRAME;
    assert r.sent.Transmitted() == r.sent.buffer[..];
  }
}
