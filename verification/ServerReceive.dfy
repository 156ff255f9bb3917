/**
 The server's side of receiving: a buffer of ten times the size that one read may bring, compacted only when room runs
 out, and a loop that waits for the whole header where the client's waits for its size field.
 */
module ServerReceive {
  import opened Bytes
  import opened Framing

  const BUFFER_SIZE := 0x10000
  const BUFFER_COUNT := 10

  // ---------------------------------------------------------------------------------------------
  // What the loop delivers
  // ---------------------------------------------------------------------------------------------

  /** The loop finds a header and the frame that it announces. */
  predicate Whole(b: bytes) {
    |b| >= MESSAGE_HEADER && SizeField(b) <= |b|
  }

  /** The loop meets a header that announces no byte at all. */
  predicate MeetsZero(b: bytes)
    decreases |b|
  {
    Whole(b) && (SizeField(b) == 0 || MeetsZero(b[SizeField(b)..]))
  }

  /** The frames that the loop hands over, shorter ones than a header included, and what it leaves. */
  function Cut(b: bytes): Parsed
    requires !MeetsZero(b)
    decreases |b|
  {
    if !Whole(b) then Parsed([], b)
    else
      var tail := Cut(b[SizeField(b)..]);
      Parsed([b[..SizeField(b)]] + tail.packets, tail.rest)
  }

  /** The loop breaks after at most n frames. */
  predicate BreaksWithin(b: bytes, n: nat) {
    Whole(b) ==> n > 0 && BreaksWithin(b[SizeField(b)..], n - 1)
  }

  lemma {:induction false} ZeroNeverBreaks(b: bytes, n: nat)
    requires MeetsZero(b)
    ensures !BreaksWithin(b, n)
    decreases n
  {
    if n > 0 {
      if SizeField(b) == 0 {
        assert b[0..] == b;
      }
      ZeroNeverBreaks(b[SizeField(b)..], n - 1);
    }
  }

  lemma {:induction false} BreaksAfterCut(b: bytes, n: nat)
    requires !MeetsZero(b)
    ensures BreaksWithin(b, n) <==> |Cut(b).packets| <= n
    decreases |b|
  {
    if Whole(b) && n > 0 {
      BreaksAfterCut(b[SizeField(b)..], n - 1);
    }
  }

  /** The server's loop ends on exactly the buffers in which no reached size field is zero. */
  lemma {:induction false} ServerLoopEndsIff(b: bytes)
    ensures (exists n: nat :: BreaksWithin(b, n)) <==> !MeetsZero(b)
  {
    if MeetsZero(b) {
      forall n: nat ensures !BreaksWithin(b, n) { ZeroNeverBreaks(b, n); }
    } else {
      BreaksAfterCut(b, |Cut(b).packets|);
    }
  }

  /** On the streams that a sender makes, the loops of the two languages deliver the same. */
  lemma {:induction false} CutIsFrames(b: bytes)
    requires WellFormed(b)
    ensures !MeetsZero(b) && Cut(b) == Frames(b)
    decreases |b|
  {
    if Complete(b) {
      CutIsFrames(b[SizeField(b)..]);
    }
  }

  /** Cutting commutes with appending to the residue, so it does not matter how reads split the stream. */
  lemma {:induction false} CutConcat(a: bytes, b: bytes)
    requires !MeetsZero(a)
    ensures MeetsZero(a + b) <==> MeetsZero(Cut(a).rest + b)
    ensures !MeetsZero(a + b) ==>
              var tail := Cut(Cut(a).rest + b);
              Cut(a + b) == Parsed(Cut(a).packets + tail.packets, tail.rest)
    decreases |a|
  {
    if Whole(a) {
      var n := SizeField(a);
      assert SizeField(a + b) == n;
      assert (a + b)[n..] == a[n..] + b;
      assert (a + b)[..n] == a[..n];
      CutConcat(a[n..], b);
      if !MeetsZero(a + b) {
        var tail := Cut(Cut(a).rest + b);
        assert Cut(a + b).packets == [a[..n]] + (Cut(a[n..]).packets + tail.packets);
        assert Cut(a).packets + tail.packets == [a[..n]] + (Cut(a[n..]).packets + tail.packets);
      }
    } else {
      assert Cut(a).packets == [];
    }
  }

  lemma {:induction false} ZeroStays(a: bytes, b: bytes)
    requires MeetsZero(a)
    ensures MeetsZero(a + b)
    decreases |a|
  {
    assert SizeField(a + b) == SizeField(a);
    if SizeField(a) != 0 {
      assert (a + b)[SizeField(a)..] == a[SizeField(a)..] + b;
      ZeroStays(a[SizeField(a)..], b);
    }
  }

  /** No byte is lost, and what is left is less than one frame. */
  lemma {:induction false} CutKeepsAll(b: bytes)
    requires !MeetsZero(b)
    ensures Flatten(Cut(b).packets) + Cut(b).rest == b
    ensures !Whole(Cut(b).rest) && |Cut(b).rest| < MAX_FRAME
    decreases |b|
  {
    if Whole(b) {
      var head, after := b[..SizeField(b)], b[SizeField(b)..];
      assert Cut(b) == Parsed([head] + Cut(after).packets, Cut(after).rest) && !MeetsZero(after);
      assert head + after == b;
      hide Cut, MeetsZero;
      CutKeepsAll(after);
      FlattenCons(head, Cut(after).packets);
      Assoc3(head, Flatten(Cut(after).packets), Cut(after).rest);
    }
  }

  lemma FlattenCons(head: bytes, tail: seq<bytes>)
    ensures Flatten([head] + tail) == head + Flatten(tail)
  {
    assert ([head] + tail)[1..] == tail;
  }

  /** The loop hands over no empty frame. */
  lemma {:induction false} CutNonEmpty(b: bytes)
    requires !MeetsZero(b)
    ensures NonEmpty(Cut(b).packets) == Cut(b).packets
    decreases |b|
  {
    if Whole(b) {
      CutNonEmpty(b[SizeField(b)..]);
      assert Cut(b).packets[1..] == Cut(b[SizeField(b)..]).packets;
    }
  }

  /** The queue's packets with content: the others tell that a session ended. */
  function NonEmpty(packets: seq<bytes>): seq<bytes> {
    if packets == [] then []
    else (if packets[0] == [] then [] else [packets[0]]) + NonEmpty(packets[1..])
  }

  lemma {:induction false} NonEmptyAll(packets: seq<bytes>)
    ensures |NonEmpty(packets)| <= |packets|
    ensures |NonEmpty(packets)| == |packets| ==> NonEmpty(packets) == packets
  {
    if packets != [] {
      NonEmptyAll(packets[1..]);
    }
  }

  lemma {:induction false} NonEmptyAppend(a: seq<bytes>, b: seq<bytes>)
    ensures NonEmpty(a + b) == NonEmpty(a) + NonEmpty(b)
  {
    if a == [] {
      assert a + b == b;
    } else {
      assert (a + b)[1..] == a[1..] + b;
      NonEmptyAppend(a[1..], b);
    }
  }

  // ---------------------------------------------------------------------------------------------
  // The buffer
  // ---------------------------------------------------------------------------------------------

  class RecvBuffer {
    const buffer: array<byte>
    const bufferSize: nat
    var readPos: nat
    var writePos: nat

    ghost predicate Valid()
      reads this
    {
      readPos <= writePos <= buffer.Length && buffer.Length == bufferSize * BUFFER_COUNT
    }

    ghost function Unread(): bytes
      requires Valid()
      reads this, buffer
    {
      buffer[readPos..writePos]
    }

    function DataSize(): nat
      requires Valid()
      reads this
    {
      writePos - readPos
    }

    function FreeSize(): nat
      requires Valid()
      reads this
    {
      buffer.Length - writePos
    }

    constructor (bufferSize: nat)
      ensures Valid() && Unread() == [] && fresh(buffer) && this.bufferSize == bufferSize
      ensures FreeSize() == bufferSize * BUFFER_COUNT
    {
      buffer := new byte[bufferSize * BUFFER_COUNT];
      this.bufferSize := bufferSize;
      readPos, writePos := 0, 0;
    }

    /** memcpy must not be given overlapping ranges; afterwards a short residue leaves room for a whole read. */
    method Clean()
      requires Valid()
      requires FreeSize() < bufferSize ==> DataSize() <= readPos
      modifies this, buffer
      ensures Valid() && Unread() == old(Unread())
      ensures |Unread()| <= bufferSize * (BUFFER_COUNT - 1) ==> FreeSize() >= bufferSize
      ensures old(DataSize() > 0 && FreeSize() >= bufferSize) ==>
                readPos == old(readPos) && writePos == old(writePos) && buffer[..] == old(buffer[..])
    {
      var dataSize := DataSize();
      if dataSize == 0 {
        readPos, writePos := 0, 0;
      } else if FreeSize() < bufferSize {
        forall i | 0 <= i < dataSize {
          buffer[i] := buffer[readPos + i];
        }
        readPos := 0;
        writePos := dataSize;
      }
    }

    method OnRead(numOfBytes: nat) returns (ok: bool)
      requires Valid()
      modifies this`readPos
      ensures Valid() && (ok <==> numOfBytes <= old(DataSize()))
      ensures Unread() == if ok then old(Unread())[numOfBytes..] else old(Unread())
      ensures readPos == old(readPos) + if ok then numOfBytes else 0
    {
      if numOfBytes > DataSize() {
        return false;
      }
      readPos := readPos + numOfBytes;
      return true;
    }

    method OnWrite(numOfBytes: nat) returns (ok: bool)
      requires Valid()
      modifies this`writePos
      ensures Valid() && (ok <==> numOfBytes <= old(FreeSize()))
      ensures ok ==> Unread() == old(Unread()) + buffer[old(writePos)..old(writePos) + numOfBytes]
      ensures !ok ==> Unread() == old(Unread())
      ensures writePos == old(writePos) + if ok then numOfBytes else 0
    {
      if numOfBytes > FreeSize() {
        return false;
      }
      writePos := writePos + numOfBytes;
      return true;
    }
  }

  // ---------------------------------------------------------------------------------------------
  // The session
  // ---------------------------------------------------------------------------------------------

  /**
   A session's receiving half. `queue` is its part of the server's packet queue, `posted` says whether a read is
   outstanding, and the ghost field is every byte that arrived. At most one read is outstanding, so ProcessRecv is
   never entered twice; a Disconnect by another thread meanwhile is one before it, since it looks at the flag only when
   it posts the next read.
   */
  class Session {
    const recvBuffer: RecvBuffer
    var connected: bool
    var posted: bool
    var queue: seq<bytes>
    ghost var got: bytes

    /** What holds between any two events, for every stream and every cutting of it into reads. */
    ghost predicate Ready()
      reads this, recvBuffer, recvBuffer.buffer
    {
      && recvBuffer.Valid() && recvBuffer.bufferSize == BUFFER_SIZE && recvBuffer.FreeSize() >= 0x1_0000
      && !MeetsZero(got) && recvBuffer.Unread() == Cut(got).rest
      && NonEmpty(queue) == Cut(got).packets
      && |queue| == |Cut(got).packets| + (if connected then 0 else 1)
    }

    constructor ()
      ensures Ready() && connected && !posted && got == [] && queue == []
      ensures fresh(recvBuffer) && fresh(recvBuffer.buffer) && recvBuffer.FreeSize() == 0xA_0000
    {
      recvBuffer := new RecvBuffer(BUFFER_SIZE);
      connected, posted, queue, got := true, false, [], [];
    }

    /** The content's two answers: a copy of the frame is queued, or an empty packet that tells the game. */
    method OnRecvPacket(at: nat, len: nat)
      requires at + len <= recvBuffer.buffer.Length
      modifies this`queue
      ensures queue == old(queue) + [recvBuffer.buffer[at..at + len]]
    {
      queue := queue + [recvBuffer.buffer[at..at + len]];
    }

    method Disconnect()
      requires Ready()
      modifies this`connected, this`queue
      ensures Ready() && !connected && queue == if old(connected) then old(queue) + [[]] else old(queue)
    {
      if !connected {
        return;
      }
      connected := false;
      queue := queue + [[]];
      NonEmptyAppend(old(queue), [[]]);
      assert NonEmpty([[]]) == [] + NonEmpty([]);
    }

    /** The loop over the frames at the front of the data. */
    method OnRecv(at: nat, len: nat) returns (processLen: nat)
      requires at + len <= recvBuffer.buffer.Length && !MeetsZero(recvBuffer.buffer[at..at + len])
      modifies this`queue
      ensures queue == old(queue) + Cut(recvBuffer.buffer[at..at + len]).packets
      ensures processLen <= len
      ensures Cut(recvBuffer.buffer[at..at + len]).rest == recvBuffer.buffer[at + processLen..at + len]
    {
      hide Cut, MeetsZero;
      ghost var data := recvBuffer.buffer[at..at + len];
      processLen := 0;
      assert data[0..] == data;
      while true
        invariant processLen <= len && !MeetsZero(data[processLen..])
        invariant queue + Cut(data[processLen..]).packets == old(queue) + Cut(data).packets
        invariant Cut(data[processLen..]).rest == Cut(data).rest
        decreases len - processLen
      {
        label Turn:
        var dataSize := len - processLen;
        CutStep(data, processLen);
        if dataSize < MESSAGE_HEADER {
          break;
        }
        var size := U16(recvBuffer.buffer[at + processLen], recvBuffer.buffer[at + processLen + 1]);
        assert |data[processLen..]| == dataSize && size == SizeField(data[processLen..]);
        if dataSize < size {
          break;
        }
        SliceOfSlice(recvBuffer.buffer, at, len, processLen, processLen + size);
        OnRecvPacket(at + processLen, size);
        Assoc(old@Turn(queue), [data[processLen..processLen + size]], Cut(data[processLen + size..]).packets);
        processLen := processLen + size;
      }
      SliceOfSlice(recvBuffer.buffer, at, len, processLen, len);
      assert data[processLen..len] == data[processLen..];
    }

    /** Posts the next read, unless disconnected. WSARecv may refuse; only two of its errors disconnect. */
    method RegisterRecv(refusal: Option<bool>)
      requires Ready() && !posted
      modifies this`connected, this`posted, this`queue
      ensures Ready() && (posted <==> old(connected) && refusal.None?)
      ensures connected <==> old(connected) && refusal != Some(true)
      ensures queue == old(queue) + Farewell(old(connected) && !connected)
    {
      assert queue + [] == queue;
      if !connected {
        return;
      }
      if refusal.None? {
        posted := true;
      } else if refusal.value {
        Disconnect();
      }
    }

    /** What the read brought, if it brought that much. */
    ghost function Chunk(numOfBytes: nat): bytes
      requires recvBuffer.Valid() && numOfBytes <= recvBuffer.FreeSize()
      reads this, recvBuffer, recvBuffer.buffer
    {
      recvBuffer.buffer[recvBuffer.writePos..recvBuffer.writePos + numOfBytes]
    }

    /** Hands the frames over and moves the read cursor behind them. */
    method Consume() returns (ok: bool)
      requires recvBuffer.Valid() && !MeetsZero(recvBuffer.Unread())
      modifies this`queue, recvBuffer`readPos
      ensures ok && recvBuffer.Valid() && recvBuffer.Unread() == Cut(old(recvBuffer.Unread())).rest
      ensures queue == old(queue) + Cut(old(recvBuffer.Unread())).packets
    {
      hide Cut, MeetsZero;
      var dataSize := recvBuffer.DataSize();
      var processLen := OnRecv(recvBuffer.readPos, dataSize);
      ok := processLen <= dataSize;
      if ok {
        ok := recvBuffer.OnRead(processLen);
      }
    }

    /** A read is over. For what a read can bring, neither overflow branch is taken, and there is room for the next. */
    method ProcessRecv(numOfBytes: nat, refusal: Option<bool>)
      requires Ready() && posted
      requires numOfBytes <= recvBuffer.FreeSize() ==> !MeetsZero(recvBuffer.Unread() + Chunk(numOfBytes))
      modifies this`connected, this`posted, this`queue, this`got, recvBuffer, recvBuffer.buffer
      ensures Ready()
      ensures old(0 < numOfBytes <= recvBuffer.FreeSize()) ==>
                && got == old(got + Chunk(numOfBytes))
                && (connected <==> old(connected) && refusal != Some(true))
                && (posted <==> old(connected) && refusal.None?)
                && queue == old(queue + Cut(recvBuffer.Unread() + Chunk(numOfBytes)).packets)
                            + Farewell(old(connected) && !connected)
      ensures old(numOfBytes == 0 || numOfBytes > recvBuffer.FreeSize()) ==>
                !connected && !posted && got == old(got) && queue == old(queue) + Farewell(old(connected))
    {
      hide Cut, MeetsZero, NonEmpty;
      posted := false;
      assert queue + [] == queue;
      if numOfBytes == 0 {
        Disconnect();
        return;
      }
      ghost var before, chunk := queue, if numOfBytes <= recvBuffer.FreeSize() then Chunk(numOfBytes) else [];
      var ok := recvBuffer.OnWrite(numOfBytes);
      if !ok {
        Disconnect();
        return;
      }
      GotGrows(got, chunk, before);
      ok := Consume();
      assert ok;  // so the third Disconnect is never reached
      got := got + chunk;
      recvBuffer.Clean();
      RegisterRecv(refusal);
    }

    /** The kernel puts a chunk behind the write cursor, then a thread of the pool gets the completion. */
    method Arrive(chunk: bytes, refusal: Option<bool>)
      requires Ready() && posted && 0 < |chunk| <= recvBuffer.FreeSize() && !MeetsZero(got + chunk)
      modifies this`connected, this`posted, this`queue, this`got, recvBuffer, recvBuffer.buffer
      ensures Ready() && got == old(got) + chunk
      ensures (connected <==> old(connected) && refusal != Some(true)) && (posted <==> old(connected) && refusal.None?)
    {
      hide Cut, MeetsZero, NonEmpty;
      CutConcat(got, chunk);
      ghost var unread := recvBuffer.Unread();
      forall i | 0 <= i < |chunk| {
        recvBuffer.buffer[recvBuffer.writePos + i] := chunk[i];
      }
      assert Chunk(|chunk|) == chunk && recvBuffer.Unread() == unread;
      ProcessRecv(|chunk|, refusal);
    }

    /** However a stream is cut into reads of at most 64 KB, and unless WSARecv refuses one, all of it is received. */
    method ReceiveAll(chunks: seq<bytes>)
      requires Ready() && posted && connected && !MeetsZero(got + Flatten(chunks))
      requires forall c | c in chunks :: 0 < |c| <= 0x1_0000
      modifies this`connected, this`posted, this`queue, this`got, recvBuffer, recvBuffer.buffer
      ensures Ready() && posted && connected && got == old(got) + Flatten(chunks)
      ensures queue == Cut(got).packets
    {
      hide Cut, MeetsZero, NonEmpty;
      assert chunks[0..] == chunks;
      for i := 0 to |chunks|
        invariant Ready() && posted && connected
        invariant got + Flatten(chunks[i..]) == old(got) + Flatten(chunks)
      {
        assert Flatten(chunks[i..]) == chunks[i] + Flatten(chunks[i + 1..]) by {
          assert chunks[i..] == [chunks[i]] + chunks[i + 1..];
          FlattenCons(chunks[i], chunks[i + 1..]);
        }
        assert got + chunks[i] + Flatten(chunks[i + 1..]) == old(got) + Flatten(chunks);
        if MeetsZero(got + chunks[i]) { ZeroStays(got + chunks[i], Flatten(chunks[i + 1..])); }
        Arrive(chunks[i], None);
      }
      assert got + [] == got;
      NonEmptyAll(queue);
    }
  }

  /** One read more, seen from all bytes that arrived and all packets that were queued. */
  lemma {:induction false} GotGrows(got: bytes, chunk: bytes, queue: seq<bytes>)
    requires !MeetsZero(got) && !MeetsZero(Cut(got).rest + chunk) && NonEmpty(queue) == Cut(got).packets
    ensures !MeetsZero(got + chunk)
    ensures var now := Cut(Cut(got).rest + chunk);
            && Cut(got + chunk).rest == now.rest && |now.rest| < MAX_FRAME
            && Cut(got + chunk).packets == NonEmpty(queue + now.packets)
            && |Cut(got + chunk).packets| == |Cut(got).packets| + |now.packets|
  {
    hide Cut, MeetsZero, NonEmpty;
    CutConcat(got, chunk);
    var now := Cut(Cut(got).rest + chunk);
    CutKeepsAll(Cut(got).rest + chunk);
    NonEmptyAppend(queue, now.packets);
    CutNonEmpty(Cut(got).rest + chunk);
  }

  /** The packet that a Disconnect leaves in the queue. */
  function Farewell(disconnects: bool): seq<bytes> {
    if disconnects then [[]] else []
  }

  lemma SliceOfSlice(a: array<byte>, at: nat, len: nat, i: nat, j: nat)
    requires at + len <= a.Length && i <= j <= len
    ensures a[at..at + len][i..j] == a[at + i..at + j]
  {
    var all := a[..];
    assert a[at..at + len] == all[at..at + len] && a[at + i..at + j] == all[at + i..at + j];
    assert all[at..at + len][i..j] == all[at + i..at + j];
  }

  /** One turn of the loop. */
  lemma CutStep(data: bytes, at: nat)
    requires at <= |data| && !MeetsZero(data[at..])
    ensures !Whole(data[at..]) ==> Cut(data[at..]) == Parsed([], data[at..])
    ensures Whole(data[at..]) ==>
              var size := SizeField(data[at..]);
              && size > 0 && at + size <= |data| && !MeetsZero(data[at + size..])
              && Cut(data[at..]).packets == [data[at..at + size]] + Cut(data[at + size..]).packets
              && Cut(data[at..]).rest == Cut(data[at + size..]).rest
  {
    if Whole(data[at..]) {
      var size := SizeField(data[at..]);
      assert data[at..][size..] == data[at + size..] && data[at..][..size] == data[at..at + size];
    }
  }

  lemma Assoc(a: seq<bytes>, b: seq<bytes>, c: seq<bytes>)
    ensures a + (b + c) == a + b + c
  {
  }
}
