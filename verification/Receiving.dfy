/** The client's side of a stream: RxReceiveBuffer, and the receives of a
    RxServerSession, each of which handles everything received so far. */
module Receiving {
  import opened Wire
  import Framing
  import Messages

  const MAX_BUFFER_BLOCK_COUNT := 10
  const MAX_BLOCK_SIZE := 0x10000
  const CAPACITY := MAX_BUFFER_BLOCK_COUNT * MAX_BLOCK_SIZE

  // What the client has received and not dropped, whether it still receives,
  // and what it did at every receive.
  datatype Receiver = Receiver(data: seq<byte>, open: bool, results: seq<Framing.ClientResult>)

  const NEW_RECEIVER := Receiver([], true, [])

  // One receive.  Nothing received disconnects, and so would more than there
  // is room for.  Nothing handled is ever taken off the front: only when less
  // than a block is left is everything dropped.  A buffer filled to the last
  // byte fails an assertion.
  function Received(r: Receiver, bytes: seq<byte>): Receiver
  {
    if !r.open then r
    else if bytes == [] || |r.data| + |bytes| > CAPACITY then r.(open := false)
    else
      var data := r.data + bytes;
      var results := r.results + [Framing.ClientReceive(data)];
      if |data| == CAPACITY then Receiver(data, false, results)
      else if CAPACITY - |data| < MAX_BLOCK_SIZE then Receiver([], true, results)
      else Receiver(data, true, results)
  }

  function ReceivedAll(r: Receiver, chunks: seq<seq<byte>>): Receiver
  {
    if chunks == [] then r else Received(ReceivedAll(r, chunks[..|chunks| - 1]), chunks[|chunks| - 1])
  }

  function Concat(chunks: seq<seq<byte>>): seq<byte>
  {
    if chunks == [] then [] else Concat(chunks[..|chunks| - 1]) + chunks[|chunks| - 1]
  }

  //////////////////////////////////////////////////////////////////////////
  // The objects
  //////////////////////////////////////////////////////////////////////////

  class ReceiveBuffer {
    const eachBlockSize: nat
    const blockBuffers: array<byte>
    var readPos: nat
    var writePos: nat

    ghost predicate Valid()
      reads this
    {
      readPos <= writePos <= blockBuffers.Length
    }

    function Data(): seq<byte>
      requires Valid()
      reads this, blockBuffers
    {
      blockBuffers[readPos..writePos]
    }

    constructor (eachBlockSize: uint32)
      ensures Valid() && fresh(blockBuffers) && readPos == writePos == 0
      ensures this.eachBlockSize == eachBlockSize
      ensures blockBuffers.Length == eachBlockSize * MAX_BUFFER_BLOCK_COUNT % TWO32
    {
      this.eachBlockSize := eachBlockSize;
      blockBuffers := new byte[eachBlockSize * MAX_BUFFER_BLOCK_COUNT % TWO32](_ => 0);
      readPos, writePos := 0, 0;
    }

    // What WSARecv does: it puts bytes at the write position.
    method Fill(bytes: seq<byte>)
      requires Valid() && writePos + |bytes| <= blockBuffers.Length
      modifies blockBuffers
      ensures Data() == old(Data()) && blockBuffers[writePos..writePos + |bytes|] == bytes
    {
      forall i | 0 <= i < |bytes| {
        blockBuffers[writePos + i] := bytes[i];
      }
    }

    method ProcessWrite(numOfBytes: nat) returns (ok: bool)
      requires Valid() && writePos < blockBuffers.Length
      modifies `writePos
      ensures Valid() && ok == (old(writePos) + numOfBytes <= blockBuffers.Length)
      ensures writePos == if ok then old(writePos) + numOfBytes else old(writePos)
    {
      if numOfBytes > blockBuffers.Length - writePos { return false; }
      writePos := writePos + numOfBytes;
      ok := true;
    }

    // With less than a block left the data is moved to the front, but then
    // both positions are reset, so that it is dropped.
    method Cleanup()
      requires Valid() && readPos < writePos < blockBuffers.Length
      modifies `readPos, `writePos, blockBuffers
      ensures Valid()
      ensures Data() == if blockBuffers.Length - old(writePos) < eachBlockSize then [] else old(Data())
      ensures blockBuffers.Length - old(writePos) < eachBlockSize ==>
                readPos == writePos == 0 && blockBuffers[..|old(Data())|] == old(Data())
      ensures blockBuffers.Length - old(writePos) >= eachBlockSize ==>
                readPos == old(readPos) && writePos == old(writePos)
    {
      var dataSize := writePos - readPos;
      if blockBuffers.Length - writePos < eachBlockSize {
        forall i | 0 <= i < dataSize {
          blockBuffers[i] := blockBuffers[readPos + i];
        }
        readPos, writePos := 0, 0;
      }
    }
  }

  class ServerSession {
    const receiveBuffer: ReceiveBuffer
    var open: bool
    var results: seq<Framing.ClientResult>

    ghost predicate Valid()
      reads this, receiveBuffer
    {
      && receiveBuffer.Valid() && receiveBuffer.readPos == 0
      && receiveBuffer.eachBlockSize == MAX_BLOCK_SIZE && receiveBuffer.blockBuffers.Length == CAPACITY
      && (open ==> receiveBuffer.writePos < CAPACITY)
    }

    ghost function State(): Receiver
      requires Valid()
      reads this, receiveBuffer, receiveBuffer.blockBuffers
    {
      Receiver(receiveBuffer.Data(), open, results)
    }

    constructor ()
      ensures Valid() && fresh(receiveBuffer) && fresh(receiveBuffer.blockBuffers) && State() == NEW_RECEIVER
    {
      receiveBuffer := new ReceiveBuffer(MAX_BLOCK_SIZE);
      open, results := true, [];
    }

    // The completion of a receive that brought these bytes.
    method ProcessReceive(bytes: seq<byte>)
      requires Valid() && open
      modifies this, receiveBuffer, receiveBuffer.blockBuffers
      ensures Valid() && State() == Received(old(State()), bytes)
    {
      if |bytes| == 0 || receiveBuffer.writePos + |bytes| > CAPACITY {
        open := false;
        return;
      }
      ghost var before := receiveBuffer.Data();
      receiveBuffer.Fill(bytes);
      var _ := receiveBuffer.ProcessWrite(|bytes|);
      assert receiveBuffer.Data() == before + bytes;
      results := results + [Framing.ClientReceive(receiveBuffer.Data())];
      if receiveBuffer.writePos == CAPACITY {
        open := false;
      } else {
        receiveBuffer.Cleanup();
      }
    }
  }

  //////////////////////////////////////////////////////////////////////////
  // What the client shows of a stream
  //////////////////////////////////////////////////////////////////////////

  // Receiving nothing disconnects, and so would more than there is room for;
  // what is held stays, nothing is shown, and nothing is received any more.
  lemma {:induction false} ClosesForGood(r: Receiver, bytes: seq<byte>, later: seq<seq<byte>>)
    requires bytes == [] || |r.data| + |bytes| > 655360
    ensures var r' := ReceivedAll(Received(r, bytes), later); !r'.open && r'.data == r.data && r'.results == r.results
  {
    if later != [] { ClosesForGood(r, bytes, later[..|later| - 1]); }
  }

  // A receive that leaves room for at least a block keeps everything; one that
  // leaves less, but some, drops everything and goes on; one that leaves none
  // is the last.  Each is handled once, together with what was held.
  lemma ReceiveOne(r: Receiver, bytes: seq<byte>)
    requires r.open && bytes != [] && |r.data| + |bytes| <= 655360
    ensures var r', room := Received(r, bytes), 655360 - |r.data| - |bytes|;
            && r'.results == r.results + [Framing.ClientReceive(r.data + bytes)]
            && (room >= 65536 ==> r'.open && r'.data == r.data + bytes)
            && (0 < room < 65536 ==> r'.open && r'.data == [])
            && (room == 0 ==> !r'.open)
  {
  }

  predicate NoneEmpty(chunks: seq<seq<byte>>, j: nat, k: nat)
    requires k <= |chunks|
  {
    forall i :: j <= i < k ==> chunks[i] != []
  }

  // The receives after which everything has just been dropped, or none was
  // yet: the next one starts from nothing.
  predicate StartsAt(chunks: seq<seq<byte>>, j: nat)
    requires j <= |chunks|
  {
    var r := ReceivedAll(NEW_RECEIVER, chunks[..j]);
    r.open && r.data == [] && |r.results| == j
  }

  // As long as nothing is dropped, the client holds what came since the start.
  lemma {:induction false} HeldSince(chunks: seq<seq<byte>>, j: nat, k: nat)
    requires j <= k <= |chunks| && StartsAt(chunks, j) && NoneEmpty(chunks, j, k)
    requires |Concat(chunks[j..k])| <= CAPACITY - MAX_BLOCK_SIZE
    ensures ReceivedAll(NEW_RECEIVER, chunks[..k]).open
    ensures ReceivedAll(NEW_RECEIVER, chunks[..k]).data == Concat(chunks[j..k])
    ensures |ReceivedAll(NEW_RECEIVER, chunks[..k]).results| == k
    decreases k
  {
    if j < k {
      ConcatLast(chunks, j, k);
      HeldSince(chunks, j, k - 1);
      ReceivedLast(chunks, k);
    }
  }

  lemma ConcatLast(chunks: seq<seq<byte>>, j: nat, k: nat)
    requires j < k <= |chunks|
    ensures Concat(chunks[j..k]) == Concat(chunks[j..k - 1]) + chunks[k - 1]
  {
    var part := chunks[j..k];
    assert part[..|part| - 1] == chunks[j..k - 1];
  }

  lemma ReceivedLast(chunks: seq<seq<byte>>, k: nat)
    requires 0 < k <= |chunks|
    ensures ReceivedAll(NEW_RECEIVER, chunks[..k]) ==
            Received(ReceivedAll(NEW_RECEIVER, chunks[..k - 1]), chunks[k - 1])
  {
    assert chunks[..k][..k - 1] == chunks[..k - 1];
  }

  lemma {:induction false} ResultsGrow(chunks: seq<seq<byte>>, n: nat)
    requires n <= |chunks|
    ensures ReceivedAll(NEW_RECEIVER, chunks[..n]).results <= ReceivedAll(NEW_RECEIVER, chunks).results
  {
    if n == |chunks| {
      assert chunks[..n] == chunks;
    } else {
      var init := chunks[..|chunks| - 1];
      assert init[..n] == chunks[..n];
      ResultsGrow(init, n);
    }
  }

  lemma ReceivesOnTop(chunks: seq<seq<byte>>, j: nat, k: nat)
    requires j <= k < |chunks| && StartsAt(chunks, j) && NoneEmpty(chunks, j, k + 1)
    requires |Concat(chunks[j..k])| <= CAPACITY - MAX_BLOCK_SIZE
    ensures var before := ReceivedAll(NEW_RECEIVER, chunks[..k]);
            && before.open && before.data == Concat(chunks[j..k]) && |before.results| == k
            && ReceivedAll(NEW_RECEIVER, chunks[..k + 1]) == Received(before, chunks[k])
    ensures chunks[k] != [] && Concat(chunks[j..k + 1]) == Concat(chunks[j..k]) + chunks[k]
  {
    HeldSince(chunks, j, k);
    ConcatLast(chunks, j, k + 1);
    ReceivedLast(chunks, k + 1);
  }

  // So every receive handles all that came since the last start, and nothing
  // older, whatever comes later.
  lemma HandlesSinceStart(chunks: seq<seq<byte>>, j: nat, k: nat)
    requires j <= k < |chunks| && StartsAt(chunks, j) && NoneEmpty(chunks, j, k + 1)
    requires |Concat(chunks[j..k])| <= CAPACITY - MAX_BLOCK_SIZE && |Concat(chunks[j..k + 1])| <= CAPACITY
    ensures k < |ReceivedAll(NEW_RECEIVER, chunks).results|
    ensures ReceivedAll(NEW_RECEIVER, chunks).results[k] == Framing.ClientReceive(Concat(chunks[j..k + 1]))
    ensures CAPACITY - MAX_BLOCK_SIZE < |Concat(chunks[j..k + 1])| < CAPACITY ==> StartsAt(chunks, k + 1)
  {
    ReceivesOnTop(chunks, j, k);
    ReceiveOne(ReceivedAll(NEW_RECEIVER, chunks[..k]), chunks[k]);
    ResultsGrow(chunks, k + 1);
  }

  // The first start is the beginning of the stream.
  lemma HandlesFromStart(chunks: seq<seq<byte>>, k: nat)
    requires k < |chunks| && NoneEmpty(chunks, 0, k + 1)
    requires |Concat(chunks[..k])| <= CAPACITY - MAX_BLOCK_SIZE && |Concat(chunks[..k + 1])| <= CAPACITY
    ensures k < |ReceivedAll(NEW_RECEIVER, chunks).results|
    ensures ReceivedAll(NEW_RECEIVER, chunks).results[k] == Framing.ClientReceive(Concat(chunks[..k + 1]))
  {
    assert chunks[0..k] == chunks[..k] && chunks[0..k + 1] == chunks[..k + 1] && chunks[..0] == [];
    HandlesSinceStart(chunks, 0, k);
  }

  // What the client makes of the first bytes of a stream.
  lemma StartOfStream(m: Framing.Message, rest: seq<byte>, got: seq<byte>)
    requires Framing.Sendable(m)
    requires got <= Framing.Frame(m.protocolId, Messages.TestSerialize(m.test)) + rest
    ensures Framing.ClientReceive(got) ==
            if |got| < Framing.HEADER_SIZE || m.protocolId != Framing.TEST_PROTOCOL then Framing.Ignored
            else if |got| < Framing.HEADER_SIZE + |Messages.TestSerialize(m.test)| then Framing.Misframed
            else Framing.Shown(m.test)
  {
    var frame := Framing.Frame(m.protocolId, Messages.TestSerialize(m.test));
    if |got| >= |frame| {
      assert got == frame + got[|frame|..];
      Framing.ClientReadsFirst(m, got[|frame|..]);
    } else if |got| >= Framing.HEADER_SIZE {
      Framing.ReadsFrame(Framing.Packet(m.protocolId, Messages.TestSerialize(m.test)), rest);
      assert got[..2] == (frame + rest)[..2] && got[2..4] == (frame + rest)[2..4];
    }
  }

  // A stream of messages arrives cut into any chunks.  Whatever the cut, the
  // client ignores or misreads the beginning until the first packet is
  // complete, and from then on shows that packet again at every receive; it
  // gets to see no other before everything is dropped.
  lemma FirstAgainAndAgain(ms: seq<Framing.Message>, chunks: seq<seq<byte>>, k: nat)
    requires ms != [] && forall m <- ms :: Framing.Sendable(m)
    requires k < |chunks| && NoneEmpty(chunks, 0, k + 1)
    requires |Concat(chunks[..k])| <= CAPACITY - MAX_BLOCK_SIZE && |Concat(chunks[..k + 1])| <= CAPACITY
    requires Framing.AllFit(Framing.ToPackets(ms)) && Concat(chunks[..k + 1]) <= Framing.Frames(Framing.ToPackets(ms))
    ensures k < |ReceivedAll(NEW_RECEIVER, chunks).results|
    ensures ReceivedAll(NEW_RECEIVER, chunks).results[k] ==
            var got := |Concat(chunks[..k + 1])|;
            if got < Framing.HEADER_SIZE || ms[0].protocolId != Framing.TEST_PROTOCOL then Framing.Ignored
            else if got < Framing.HEADER_SIZE + |Messages.TestSerialize(ms[0].test)| then Framing.Misframed
            else Framing.Shown(ms[0].test)
  {
    HandlesFromStart(chunks, k);
    StartOfStream(ms[0], Framing.Frames(Framing.ToPackets(ms)[1..]), Concat(chunks[..k + 1]));
  }
}
