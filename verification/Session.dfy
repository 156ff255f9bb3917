/**
 A PacketSession: the receive path that refills, parses and compacts its buffer, and the send path that queues
 segments and hands batches to the socket. The socket is the environment: each method takes what the socket does as
 an argument.
 */
module Sessions {
  import opened Bytes
  import opened Framing
  import opened RecvBuffers
  import opened Packets
  import opened SendBuffers
  import opened SendPath
  import opened Reads

  /** The segments still hold the bytes they held when they were handed to Send. */
  ghost predicate Hold(segs: seq<Segment>, contents: seq<bytes>)
    reads set s | s in segs :: s.buf
  {
    && |segs| == |contents|
    && forall i | 0 <= i < |segs| :: segs[i].InArray() && segs[i].Contents() == contents[i]
  }

  class Session {
    const recvBuffer: RecvBuffer
    const manager: PacketManager
    const queue: PacketQueue
    var disconnected: bool
    var sendQueue: seq<Segment>
    var pendingList: seq<Segment>

    ghost var received: seq<bytes>  // the frames handed to OnRecvPacket
    ghost var posted: bool          // the socket holds a read that it will complete
    ghost var core: Core            // the contents of the two lists, and the history of sends

    ghost predicate Valid()
      reads this, recvBuffer, set s | s in sendQueue :: s.buf, set s | s in pendingList :: s.buf
    {
      && recvBuffer.Valid() && recvBuffer.buffer.Length == CAPACITY
      && core.disconnected == disconnected
      && Hold(sendQueue, core.queue) && Hold(pendingList, core.pending)
      && (forall s | s in sendQueue + pendingList :: s.buf != recvBuffer.buffer)
    }

    constructor (manager: PacketManager, queue: PacketQueue)
      ensures Valid() && core == INITIAL && received == [] && !posted && fresh(recvBuffer) && fresh(recvBuffer.buffer)
      ensures recvBuffer.FreeSize() == 65535
      ensures recvBuffer.Unread() == [] && recvBuffer.readPos == 0 && this.manager == manager && this.queue == queue
    {
      recvBuffer := new RecvBuffer(CAPACITY);
      this.manager, this.queue := manager, queue;
      disconnected, sendQueue, pendingList := false, [], [];
      core, received, posted := INITIAL, [], false;
    }

    // Receiving

    /**
     The framing loop: hands complete frames to OnRecvPacket and reports how far it got. An exception from a message
     parser leaves the loop at once, and the caller with no length.
     */
    method OnRecv(buf: array<byte>, start: nat, size: nat)
        returns (processLength: nat, threw: bool, ghost parsed: Parsed)
      requires start + size <= buf.Length && WellFormed(buf[start..start + size])
      modifies this`received, queue
      ensures parsed == Frames(buf[start..start + size])
      ensures AllPackets(parsed.packets) && Within(parsed.packets, buf.Length)
      ensures var types, offered := manager.makeFunc, AllMade(manager.makeFunc.Keys, buf[..], parsed.packets);
              && (threw <==> !AllParse(types, offered))
              && queue.items == old(queue.items) + Taken(types, offered)
              && received == old(received) + HandedOut(types, buf[..], parsed.packets)
      ensures !threw ==> processLength == size - |parsed.rest|
    {
      hide *;
      ghost var types, arr := manager.makeFunc, buf[..];
      ghost var loop := Loop([], buf[start..start + size], []);
      parsed := Frames(loop.left);
      LoopStarts(types, arr, loop.left);
      processLength, threw := 0, false;
      var offset, count := start, size;
      while true
        invariant 0 <= count && offset == start + processLength && offset + count == start + size
        invariant buf[..] == arr && loop.left == arr[offset..offset + count] && Progress(types, arr, parsed, loop)
        invariant received == old(received) + loop.done && queue.items == old(queue.items) + loop.made
        decreases count
      {
        var complete, dataSize := FrameAt(buf, offset, count);
        if !complete {
          break;
        }
        ghost var next := Advance(types, arr, parsed, loop, offset, count, old(received), old(queue.items));
        threw := OnRecvPacket(buf, offset, dataSize);
        if threw {
          return;
        }
        loop := next;
        processLength := processLength + dataSize;
        offset, count := offset + dataSize, count - dataSize;
      }
      LoopStops(types, arr, parsed, loop);
    }

    /** The two tests of the loop: a whole size field, and a whole frame. */
    method FrameAt(buf: array<byte>, offset: nat, count: nat) returns (complete: bool, dataSize: nat)
      requires offset + count <= buf.Length
      ensures complete <==> Complete(buf[offset..offset + count])
      ensures complete ==> dataSize == SizeField(buf[offset..offset + count]) && dataSize <= count
    {
      complete, dataSize := false, 0;
      if count >= HEADER_SIZE {
        dataSize := U16(buf[offset], buf[offset + 1]);
        complete := count >= dataSize;
      }
    }

    /** ServerSession.OnRecvPacket: the packet manager makes a packet and pushes it onto the queue. */
    method OnRecvPacket(buf: array<byte>, offset: nat, count: nat) returns (threw: bool)
      requires offset + count <= buf.Length && IsPacket(buf[offset..offset + count])
      modifies this`received, queue
      ensures received == old(received) + [buf[offset..offset + count]]
      ensures var made := Made(manager.makeFunc.Keys, buf[..], buf[offset..offset + count]);
              && queue.items == old(queue.items) + Taken(manager.makeFunc, made)
              && (threw <==> !AllParse(manager.makeFunc, made))
    {
      received := received + [buf[offset..offset + count]];
      threw := manager.OnRecvPacket(buf, offset, count, queue);
    }

    /** The socket can fill the chunks in, one read each, as long as a read is posted. */
    ghost predicate CanRead(chunks: seq<bytes>)
      requires recvBuffer.Valid()
      reads manager, recvBuffer, recvBuffer.buffer
    {
      Readable(manager.makeFunc, recvBuffer.Unread(), chunks)
    }

    /** What the reads of `chunks`, starting from the unread bytes, add to the received frames and packets. */
    twostate predicate Took(r: Inbox)
      requires recvBuffer.Valid()
      reads this, recvBuffer, recvBuffer.buffer, queue
    {
      && received == old(received) + r.frames
      && recvBuffer.Unread() == r.unread
      && queue.items == old(queue.items) + r.queued
    }

    /**
     Posts the next read. The socket completes it at once with each of `chunks` in turn, then either closes or
     lets the last read wait.
     */
    method RegisterRecv(chunks: seq<bytes>, closes: bool)
      requires Valid() && !posted && CanRead(chunks)
      modifies this, recvBuffer, recvBuffer.buffer, queue
      ensures Valid()
      ensures var r := ReadAll(manager.makeFunc, old(recvBuffer.Unread()), if old(disconnected) then [] else chunks);
              && Took(r) && posted == (r.posted && !old(disconnected) && !closes)
              && core == if r.posted && closes then DisconnectNow(old(core)) else old(core)
      ensures !old(disconnected) ==> recvBuffer.readPos == 0
      decreases |chunks|, 1
    {
      hide HandleRead;
      if disconnected {
        return;
      }
      recvBuffer.Clean();
      posted := true;
      if chunks != [] {
        ReceiveInto(chunks[0]);
        assert chunks == [chunks[0]] + chunks[1..];
        OnRecvCompleted(|chunks[0]|, true, chunks[0], chunks[1..], closes);
      } else if closes {
        OnRecvCompleted(0, true, [], [], closes);
      }
    }

    /** The socket's part of a read: it fills the front of the write segment. */
    method ReceiveInto(chunk: bytes)
      requires Valid() && |chunk| <= recvBuffer.FreeSize()
      modifies recvBuffer.buffer
      ensures Valid() && recvBuffer.Unread() == old(recvBuffer.Unread())
      ensures recvBuffer.buffer[recvBuffer.writePos..recvBuffer.writePos + |chunk|] == chunk
    {
      var at := recvBuffer.writePos;
      forall i | 0 <= i < |chunk| {
        recvBuffer.buffer[at + i] := chunk[i];
      }
    }

    /**
     The completion of the posted read; `chunk` is what the socket says it filled in, `later` what the next reads
     bring. The catch clause around OnRecv only logs: after an exception no read is posted.
     */
    method OnRecvCompleted(transferred: int, success: bool, chunk: bytes, later: seq<bytes>, closes: bool)
      requires Valid() && posted && recvBuffer.readPos == 0
      requires 0 < transferred <= recvBuffer.FreeSize() && success ==>
                 |chunk| == transferred && CanRead([chunk] + later) &&
                 recvBuffer.buffer[recvBuffer.writePos..recvBuffer.writePos + transferred] == chunk
      modifies this, recvBuffer, recvBuffer.buffer, queue
      ensures Valid()
      ensures 0 < transferred <= old(recvBuffer.FreeSize()) && success ==>
                && Readable(manager.makeFunc, old(recvBuffer.Unread()), [chunk])
                && (!old(disconnected) ==> recvBuffer.readPos == 0)
                && var parts := if old(disconnected) then [chunk] else [chunk] + later;
                   var r := ReadAll(manager.makeFunc, old(recvBuffer.Unread()), parts);
                   && Took(r) && posted == (r.posted && !old(disconnected) && !closes)
                   && core == if r.posted && closes then DisconnectNow(old(core)) else old(core)
      ensures !(0 < transferred <= old(recvBuffer.FreeSize()) && success) ==>
                && Took(Inbox([], [], old(recvBuffer.Unread()), false)) && !posted
                && core == DisconnectNow(old(core)) && recvBuffer.readPos == 0
      decreases |later|, if transferred > 0 then 2 else 0
    {
      hide Readable, ReadAll, HandleRead, WellFormed, Hold;
      ghost var types, rest := manager.makeFunc, recvBuffer.Unread();
      posted := false;
      if transferred > 0 && success {
        if transferred <= recvBuffer.FreeSize() {
          ReadAllCons(types, rest, chunk, later, received, queue.items);
          LastRead(types, rest, chunk, later);
        }
        var ok, threw := Consume(transferred, chunk);
        if !ok {
          Disconnect();
          return;
        }
        if threw {
          return;
        }
        NoReads(types, recvBuffer.Unread());
        RegisterRecv(later, closes);
      } else {
        Disconnect();
      }
    }

    /** Moves the write cursor, hands the data over, moves the read cursor; not ok where the source disconnects. */
    method Consume(transferred: int, chunk: bytes) returns (ok: bool, threw: bool)
      requires Valid() && recvBuffer.readPos == 0 && transferred > 0
      requires transferred <= recvBuffer.FreeSize() ==>
                 && |chunk| == transferred && WellFormed(recvBuffer.Unread() + chunk)
                 && recvBuffer.buffer[recvBuffer.writePos..recvBuffer.writePos + transferred] == chunk
      modifies this`received, recvBuffer, queue
      ensures Valid() && ok == (transferred <= old(recvBuffer.FreeSize()))
      ensures ok ==> var now := HandleRead(manager.makeFunc, old(recvBuffer.Unread()) + chunk);
                     Took(now) && (threw <==> !now.posted) && (threw ==> recvBuffer.readPos == 0)
      ensures !ok ==> Took(Inbox([], [], old(recvBuffer.Unread()), false)) && recvBuffer.readPos == 0
    {
      hide Frames, WellFormed, AllMade, AllPackets, Within, Hold, HandedOut, AllParse, Taken;
      threw := false;
      ok := recvBuffer.OnWrite(transferred);
      if !ok {
        return;
      }
      ghost var data := old(recvBuffer.Unread()) + chunk;
      ghost var types, arr := manager.makeFunc, recvBuffer.buffer[..];
      var n := recvBuffer.DataSize();
      assert recvBuffer.buffer[0..0 + n] == arr[..n] == data;
      var processLength, failed, parsed := OnRecv(recvBuffer.buffer, 0, n);
      FramesInside(data);
      MadeLocal(types, arr, data, parsed.packets);
      TakenIff(types, AllMade(types.Keys, data, parsed.packets));
      HandedOutPrefix(types, data, parsed.packets);
      threw := failed;
      if threw {
        return;
      }
      RestIsSuffix(data);
      ok := recvBuffer.OnRead(processLength);
    }

    // Sending

    /** Every segment in the two lists was there before or is one of `segs`. */
    twostate predicate NoOthers(segs: seq<Segment>)
      reads this
    {
      forall s | s in sendQueue + pendingList :: s in old(sendQueue) + old(pendingList) + segs
    }

    /** Both overloads of Send: one segment is a list of one. `contents` is what the segments hold at this moment. */
    method Send(segs: seq<Segment>, o: Outcome) returns (ghost contents: seq<bytes>)
      requires Valid() && forall i | 0 <= i < |segs| :: segs[i].InArray() && segs[i].buf != recvBuffer.buffer
      modifies this`sendQueue, this`pendingList, this`disconnected, this`core
      ensures Valid() && Hold(segs, contents) && core == SendNow(old(core), contents, o)
      ensures NoOthers(segs)
    {
      contents := [];
      if |segs| == 0 {
        return;
      }
      var i := 0;
      while i < |segs|
        invariant 0 <= i <= |segs| && |contents| == i
        invariant Hold(segs[..i], contents)
        invariant core == Enqueue(old(core), contents)
        invariant Valid() && pendingList == old(pendingList) && sendQueue == old(sendQueue) + segs[..i]
      {
        EnqueueTwice(old(core), contents, segs[i].Contents());
        Assoc(old(sendQueue), segs[..i], [segs[i]]);
        assert segs[..i] + [segs[i]] == segs[..i + 1];
        EnqueueOne(segs[i]);
        contents := contents + [segs[i].Contents()];
        i := i + 1;
      }
      assert segs[..i] == segs;
      if |pendingList| == 0 {
        RegisterSend(o);
      }
    }

    method EnqueueOne(seg: Segment)
      requires Valid() && seg.InArray() && seg.buf != recvBuffer.buffer
      modifies this`sendQueue, this`core
      ensures Valid() && sendQueue == old(sendQueue) + [seg] && core == Enqueue(old(core), [seg.Contents()])
    {
      sendQueue := sendQueue + [seg];
      core := Enqueue(core, [seg.Contents()]);
    }

    method RegisterSend(o: Outcome)
      requires Valid() && sendQueue != []
      modifies this`sendQueue, this`pendingList, this`disconnected, this`core
      ensures Valid() && core == RegisterSendNow(old(core), o) && NoOthers([])
      decreases |sendQueue|, 0
    {
      if disconnected {
        return;
      }
      DrainQueue();
      if o.Now? {
        OnSendCompleted(o.ok, o);
      }
    }

    /** The loop of RegisterSend; what it leaves in the pending list is what the socket is given. */
    method DrainQueue()
      requires Valid()
      modifies this`sendQueue, this`pendingList, this`core
      ensures Valid() && core == SubmitAll(old(core)) && sendQueue == []
      ensures pendingList == old(pendingList) + old(sendQueue)
    {
      ghost var c := core;
      while |sendQueue| > 0
        invariant pendingList + sendQueue == old(pendingList) + old(sendQueue)
        invariant core == c.(pending := core.pending, queue := core.queue)
        invariant core.pending + core.queue == c.pending + c.queue
        invariant Valid()
        decreases |sendQueue|
      {
        MoveOne();
      }
      core := core.(submitted := core.submitted + core.pending);
    }

    method MoveOne()
      requires Valid() && sendQueue != []
      modifies this`sendQueue, this`pendingList, this`core
      ensures Valid() && core == old(core).(pending := core.pending, queue := core.queue)
      ensures pendingList + sendQueue == old(pendingList) + old(sendQueue) && |sendQueue| == |old(sendQueue)| - 1
      ensures core.pending + core.queue == old(core).pending + old(core).queue
    {
      var buff := sendQueue[0];
      sendQueue := sendQueue[1..];
      pendingList := pendingList + [buff];
      core := core.(pending := core.pending + [core.queue[0]], queue := core.queue[1..]);
    }

    method OnSendCompleted(success: bool, o: Outcome)
      requires Valid()
      modifies this`sendQueue, this`pendingList, this`disconnected, this`core
      ensures Valid() && core == OnSendCompletedNow(old(core), success, o) && NoOthers([])
      decreases |sendQueue|, 1
    {
      if success {
        pendingList := [];
        core := Acknowledge(core);
        if |sendQueue| > 0 {
          RegisterSend(o);
        }
      } else {
        Disconnect();
      }
    }

    method Disconnect()
      requires Valid()
      modifies this`sendQueue, this`pendingList, this`disconnected, this`core
      ensures Valid() && core == DisconnectNow(old(core)) && NoOthers([])
    {
      if !disconnected {
        disconnected := true;
        core := SetFlag(core);
        core := Notified(core);
        Clear();
      }
    }

    method Clear()
      requires Valid()
      modifies this`sendQueue, this`pendingList, this`core
      ensures Valid() && core == Wipe(old(core)) && sendQueue == [] && pendingList == []
    {
      sendQueue := [];
      pendingList := [];
      core := Wipe(core);
    }
  }

  lemma EnqueueTwice(c: Core, segs: seq<bytes>, x: bytes)
    ensures Enqueue(Enqueue(c, segs), [x]) == Enqueue(c, segs + [x])
  {
    Assoc(c.queue, segs, [x]);
    Assoc(c.accepted, segs, [x]);
  }

  /** The single read of a session that was disconnected meanwhile, and no read at all. */
  lemma {:induction false} LastRead(types: map<nat, Parser>, unread: bytes, chunk: bytes, later: seq<bytes>)
    requires Readable(types, unread, [chunk] + later)
    ensures WellFormed(unread + chunk) && Readable(types, unread, [chunk])
    ensures ReadAll(types, unread, [chunk]) == HandleRead(types, unread + chunk)
  {
    var now := HandleRead(types, unread + chunk);
    assert [chunk][1..] == [];
    assert now.frames + [] == now.frames && now.queued + [] == now.queued;
  }

  lemma NoReads(types: map<nat, Parser>, unread: bytes)
    ensures Readable(types, unread, []) && ReadAll(types, unread, []) == Inbox([], [], unread, true)
  {
  }

  /** The framing loop: the frames delivered, the bytes still to look at, the packets made. */
  datatype Loop = Loop(done: seq<bytes>, left: bytes, made: seq<Packet>)

  ghost predicate Progress(types: map<nat, Parser>, arr: bytes, whole: Parsed, l: Loop) {
    && WellFormed(l.left) && |l.left| <= |arr|
    && whole == Parsed(l.done + Frames(l.left).packets, Frames(l.left).rest)
    && AllPackets(l.done) && Within(l.done, |arr|)
    && l.made == AllMade(types.Keys, arr, l.done) && AllParse(types, l.made)
  }

  lemma {:induction false} LoopStarts(types: map<nat, Parser>, arr: bytes, data: bytes)
    requires WellFormed(data) && |data| <= |arr|
    ensures Progress(types, arr, Frames(data), Loop([], data, []))
    ensures AllPackets(Frames(data).packets) && Within(Frames(data).packets, |arr|)
  {
    FramesInside(data);
    assert [] + Frames(data).packets == Frames(data).packets;
  }

  /** The loop breaks: everything was handed over, and every packet was made. */
  lemma {:induction false} LoopStops(types: map<nat, Parser>, arr: bytes, whole: Parsed, l: Loop)
    requires Progress(types, arr, whole, l) && !Complete(l.left)
    ensures whole == Parsed(l.done, l.left) && AllPackets(l.done) && Within(l.done, |arr|)
    ensures var offered := AllMade(types.Keys, arr, l.done);
            AllParse(types, offered) && l.made == Taken(types, offered) && l.done == HandedOut(types, arr, l.done)
  {
    assert l.done + [] == l.done;
    TakenIff(types, l.made);
    HandedOutPrefix(types, arr, l.done);
  }

  /** One turn of the loop that does not throw. */
  lemma {:induction false} Turn(types: map<nat, Parser>, arr: bytes, whole: Parsed, l: Loop, frame: bytes)
      returns (next: Loop)
    requires Progress(types, arr, whole, l) && Complete(l.left) && frame == l.left[..SizeField(l.left)]
    ensures IsPacket(frame) && |frame| <= |arr|
    ensures next == Loop(l.done + [frame], l.left[SizeField(l.left)..], l.made + Made(types.Keys, arr, frame))
    ensures AllParse(types, Made(types.Keys, arr, frame)) ==> Progress(types, arr, whole, next)
  {
    hide AllParse, Made, AllMade;
    var tail := Frames(l.left[|frame|..]);
    next := Loop(l.done + [frame], l.left[|frame|..], l.made + Made(types.Keys, arr, frame));
    assert l.done + ([frame] + tail.packets) == l.done + [frame] + tail.packets;
    AllMadeAppend(types.Keys, arr, l.done, [frame]);
    AllMadeOne(types.Keys, arr, frame);
    TakenAppend(types, l.made, Made(types.Keys, arr, frame));
  }

  /** The turn that throws: what was handed over and made until then is all that ever will be. */
  lemma {:induction false} LastTurn(types: map<nat, Parser>, arr: bytes, whole: Parsed, l: Loop, frame: bytes)
    requires Progress(types, arr, whole, l) && Complete(l.left) && frame == l.left[..SizeField(l.left)]
    requires IsPacket(frame) && |frame| <= |arr| && !AllParse(types, Made(types.Keys, arr, frame))
    ensures AllPackets(whole.packets) && Within(whole.packets, |arr|)
    ensures var offered := AllMade(types.Keys, arr, whole.packets);
            && !AllParse(types, offered)
            && Taken(types, offered) == l.made + Taken(types, Made(types.Keys, arr, frame))
            && HandedOut(types, arr, whole.packets) == l.done + [frame]
  {
    hide AllParse, Made;
    var tail := Frames(l.left[|frame|..]);
    var later := [frame] + tail.packets;
    FramesInside(l.left);
    assert later == Frames(l.left).packets;
    AllMadeAppend(types.Keys, arr, l.done, later);
    TakenAppend(types, l.made, AllMade(types.Keys, arr, later));
    TakenAppend(types, Made(types.Keys, arr, frame), AllMade(types.Keys, arr, tail.packets));
    HandedOutAppend(types, arr, l.done, later);
  }

  /** One turn, in terms of the array and of what was received and queued before the loop. */
  lemma {:induction false} Advance(types: map<nat, Parser>, arr: bytes, whole: Parsed, l: Loop, offset: nat,
                                   count: nat, r: seq<bytes>, q: seq<Packet>)
      returns (next: Loop)
    requires offset + count <= |arr| && l.left == arr[offset..offset + count]
    requires Progress(types, arr, whole, l) && Complete(l.left)
    requires AllPackets(whole.packets) && Within(whole.packets, |arr|)
    ensures var n := SizeField(l.left);
            var frame := arr[offset..offset + n];
            && n > 0 && IsPacket(frame)
            && var made, offered := Made(types.Keys, arr, frame), AllMade(types.Keys, arr, whole.packets);
               if AllParse(types, made) then
                 && next.left == arr[offset + n..offset + count] && Progress(types, arr, whole, next)
                 && r + l.done + [frame] == r + next.done && q + l.made + Taken(types, made) == q + next.made
               else
                 && !AllParse(types, offered) && r + l.done + [frame] == r + HandedOut(types, arr, whole.packets)
                 && q + l.made + Taken(types, made) == q + Taken(types, offered)
  {
    hide AllParse, Made, Progress, AllMade, HandedOut, Taken;
    var n := SizeField(l.left);
    var frame := arr[offset..offset + n];
    assert frame == l.left[..n] && l.left[n..] == arr[offset + n..offset + count];
    next := Turn(types, arr, whole, l, frame);
    var made := Made(types.Keys, arr, frame);
    TakenIff(types, made);
    Assoc(r, l.done, [frame]);
    Assoc(q, l.made, Taken(types, made));
    if !AllParse(types, made) {
      LastTurn(types, arr, whole, l, frame);
    }
  }

  lemma {:induction false} AllMadeAppend(ids: set<nat>, arr: bytes, a: seq<bytes>, b: seq<bytes>)
    requires AllPackets(a) && Within(a, |arr|) && AllPackets(b) && Within(b, |arr|)
    ensures AllPackets(a + b) && Within(a + b, |arr|)
    ensures AllMade(ids, arr, a + b) == AllMade(ids, arr, a) + AllMade(ids, arr, b)
    decreases |a|
  {
    hide Made;
    if a == [] {
      assert a + b == b;
    } else {
      assert (a + b)[1..] == a[1..] + b;
      AllMadeAppend(ids, arr, a[1..], b);
      Assoc(Made(ids, arr, a[0]), AllMade(ids, arr, a[1..]), AllMade(ids, arr, b));
    }
  }

  lemma AllMadeOne(ids: set<nat>, arr: bytes, frame: bytes)
    requires IsPacket(frame) && |frame| <= |arr|
    ensures AllMade(ids, arr, [frame]) == Made(ids, arr, frame)
  {
    assert AllMade(ids, arr, [frame]) == Made(ids, arr, frame) + AllMade(ids, arr, []);
  }

  lemma HandedOutCons(types: map<nat, Parser>, arr: bytes, f: bytes, rest: seq<bytes>)
    requires IsPacket(f) && |f| <= |arr| && AllPackets(rest) && Within(rest, |arr|)
    ensures AllPackets([f] + rest) && Within([f] + rest, |arr|)
    ensures AllMade(types.Keys, arr, [f] + rest) == Made(types.Keys, arr, f) + AllMade(types.Keys, arr, rest)
    ensures HandedOut(types, arr, [f] + rest) ==
            [f] + if AllParse(types, Made(types.Keys, arr, f)) then HandedOut(types, arr, rest) else []
  {
    hide AllParse, Made;
    assert ([f] + rest)[1..] == rest;
  }

  lemma {:induction false} HandedOutAppend(types: map<nat, Parser>, arr: bytes, a: seq<bytes>, b: seq<bytes>)
    requires AllPackets(a) && Within(a, |arr|) && AllPackets(b) && Within(b, |arr|)
    requires AllParse(types, AllMade(types.Keys, arr, a))
    ensures AllPackets(a + b) && Within(a + b, |arr|)
    ensures HandedOut(types, arr, a + b) == a + HandedOut(types, arr, b)
    decreases |a|
  {
    hide AllParse, Made, AllMade, HandedOut;
    if a == [] {
      assert a + b == b;
    } else {
      var f, rest := a[0], a[1..];
      assert a == [f] + rest && a + b == [f] + (rest + b);
      HandedOutCons(types, arr, f, rest);
      TakenAppend(types, Made(types.Keys, arr, f), AllMade(types.Keys, arr, rest));
      HandedOutAppend(types, arr, rest, b);
      HandedOutCons(types, arr, f, rest + b);
    }
  }

  /** What is made from frames depends only on the front of the array that holds them. */
  lemma {:induction false} MadeLocal(types: map<nat, Parser>, arr: bytes, data: bytes, frames: seq<bytes>)
    requires AllPackets(frames) && Within(frames, |data|) && data <= arr
    ensures Within(frames, |arr|) && AllMade(types.Keys, arr, frames) == AllMade(types.Keys, data, frames)
    ensures HandedOut(types, arr, frames) == HandedOut(types, data, frames)
    decreases |frames|
  {
    hide AllParse;
    if frames != [] {
      assert IsPacket(frames[0]) && |frames[0]| <= |data|;
      assert arr[MESSAGE_HEADER..|frames[0]|] == data[MESSAGE_HEADER..|frames[0]|];
      MadeLocal(types, arr, data, frames[1..]);
    }
  }
}
