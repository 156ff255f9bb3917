/**
 What a series of reads does, on values: the frames, the packets made from them, the parser that may throw, and the
 state of the receiving side over any run of events.
 */
module Reads {
  import opened Bytes
  import opened Varint
  import opened Wire
  import opened Framing
  import opened Packets
  import M = Messages
  import P = Parsers

  const CAPACITY := 65535

  // ---------------------------------------------------------------------------------------------
  // What a series of reads delivers
  // ---------------------------------------------------------------------------------------------

  /** The socket fills at least one byte and at most the segment it was given, at every read. */
  ghost predicate Fits(rest: bytes, chunks: seq<bytes>)
    decreases |chunks|
  {
    chunks != [] ==>
      && chunks[0] != [] && |rest| + |chunks[0]| <= CAPACITY && WellFormed(rest + chunks[0])
      && Fits(Frames(rest + chunks[0]).rest, chunks[1..])
  }

  /** Frames and residue after the reads, one read at a time. */
  ghost function Delivered(rest: bytes, chunks: seq<bytes>): Parsed
    requires WellFormed(rest) && Fits(rest, chunks)
    decreases |chunks|
  {
    if chunks == [] then Parsed([], rest)
    else
      var now := Frames(rest + chunks[0]);
      Residual(rest + chunks[0]);
      var later := Delivered(now.rest, chunks[1..]);
      Parsed(now.packets + later.packets, later.rest)
  }

  /** A residue is itself well formed: it holds no complete frame. */
  lemma Residual(b: bytes)
    requires WellFormed(b)
    ensures WellFormed(Frames(b).rest) && Frames(Frames(b).rest) == Parsed([], Frames(b).rest)
  {
    FramesDecompose(b);
  }

  /** The packets made over the reads, each from the front of the array as it was during its read. */
  ghost function MadeOver(ids: set<nat>, rest: bytes, chunks: seq<bytes>): seq<Packet>
    requires WellFormed(rest) && Fits(rest, chunks)
    decreases |chunks|
  {
    if chunks == [] then []
    else
      var data := rest + chunks[0];
      Residual(data);
      FramesInside(data);
      AllMade(ids, data, Frames(data).packets) + MadeOver(ids, Frames(data).rest, chunks[1..])
  }

  lemma {:induction false} FramesInside(data: bytes)
    requires WellFormed(data)
    ensures AllPackets(Frames(data).packets) && Flatten(Frames(data).packets) <= data
    ensures Within(Frames(data).packets, |data|)
  {
    FramesDecompose(data);
    PartsAreShort(Frames(data).packets);
  }

  lemma RestIsSuffix(data: bytes)
    requires WellFormed(data)
    ensures |Frames(data).rest| <= |data| && Frames(data).rest == data[|data| - |Frames(data).rest|..]
  {
    FramesDecompose(data);
  }

  lemma {:induction false} PartsAreShort(parts: seq<bytes>)
    ensures Within(parts, |Flatten(parts)|)
  {
    if parts != [] {
      PartsAreShort(parts[1..]);
      forall i | 0 <= i < |parts| ensures |parts[i]| <= |Flatten(parts)| {
        if i > 0 { assert parts[i] == parts[1..][i - 1]; }
      }
    }
  }

  /** Chunk independence: however the stream is cut, the frames are those of parsing it in one go. */
  lemma {:induction false} ChunkIndependence(rest: bytes, chunks: seq<bytes>)
    requires WellFormed(rest) && !Complete(rest) && WellFormed(rest + Flatten(chunks)) && Fits(rest, chunks)
    ensures Delivered(rest, chunks) == Frames(rest + Flatten(chunks))
    decreases |chunks|
  {
    if chunks == [] {
      assert rest + [] == rest;
    } else {
      var data := rest + chunks[0];
      Assoc3(rest, chunks[0], Flatten(chunks[1..]));
      FramesConcat(data, Flatten(chunks[1..]));
      FramesDecompose(data);
      Residual(data);
      ChunkIndependence(Frames(data).rest, chunks[1..]);
    }
  }

  /** Receiving never stalls: any well-formed stream can still be read to its end, one byte at a time if need be. */
  lemma {:induction false} NeverStalls(rest: bytes, stream: bytes) returns (chunks: seq<bytes>)
    requires |rest| < CAPACITY && WellFormed(rest + stream)
    ensures Flatten(chunks) == stream && Fits(rest, chunks)
    decreases |stream|
  {
    if stream == [] {
      chunks := [];
    } else {
      var c := stream[..1];
      Assoc3(rest, c, stream[1..]);
      assert c + stream[1..] == stream;
      FramesConcat(rest + c, stream[1..]);
      ResidueIsShort(rest + c);
      var later := NeverStalls(Frames(rest + c).rest, stream[1..]);
      chunks := [c] + later;
      assert chunks[1..] == later;
    }
  }

  /** After any reads the residue leaves room for at least one more byte. */
  lemma {:induction false} AlwaysRoom(rest: bytes, chunks: seq<bytes>)
    requires |rest| < CAPACITY && WellFormed(rest) && Fits(rest, chunks)
    ensures |Delivered(rest, chunks).rest| < CAPACITY
    decreases |chunks|
  {
    if chunks != [] {
      Residual(rest + chunks[0]);
      ResidueIsShort(rest + chunks[0]);
      AlwaysRoom(Frames(rest + chunks[0]).rest, chunks[1..]);
    }
  }

  /** A read never completes more than one frame. */
  ghost predicate OneFramePerRead(rest: bytes, chunks: seq<bytes>)
    requires WellFormed(rest) && Fits(rest, chunks)
    decreases |chunks|
  {
    chunks != [] ==>
      && |Frames(rest + chunks[0]).packets| <= 1
      && (Residual(rest + chunks[0]); OneFramePerRead(Frames(rest + chunks[0]).rest, chunks[1..]))
  }

  lemma {:induction false} IntendedAppend(ids: set<nat>, a: seq<bytes>, b: seq<bytes>)
    requires AllPackets(a) && AllPackets(b)
    ensures AllPackets(a + b) && AllIntended(ids, a + b) == AllIntended(ids, a) + AllIntended(ids, b)
    decreases |a|
  {
    hide Intended;
    if a == [] {
      assert a + b == b;
    } else {
      assert (a + b)[1..] == a[1..] + b;
      IntendedAppend(ids, a[1..], b);
      Assoc(Intended(ids, a[0]), AllIntended(ids, a[1..]), AllIntended(ids, b));
    }
  }

  lemma {:induction false} DeliveredArePackets(rest: bytes, chunks: seq<bytes>)
    requires WellFormed(rest) && Fits(rest, chunks)
    ensures AllPackets(Delivered(rest, chunks).packets)
    decreases |chunks|
  {
    if chunks != [] {
      Residual(rest + chunks[0]);
      FramesInside(rest + chunks[0]);
      DeliveredArePackets(Frames(rest + chunks[0]).rest, chunks[1..]);
    }
  }

  /** In every read, the payloads of the registered frames agree with the array from index 4 on. */
  ghost predicate PayloadsRepeat(ids: set<nat>, rest: bytes, chunks: seq<bytes>)
    requires WellFormed(rest) && Fits(rest, chunks)
    decreases |chunks|
  {
    chunks != [] ==>
      var data := rest + chunks[0];
      && (FramesInside(data); RepeatFront(ids, data, Frames(data).packets))
      && (Residual(data); PayloadsRepeat(ids, Frames(data).rest, chunks[1..]))
  }

  /** The packets are made from their own frames' payloads exactly when the payloads of each read repeat its first. */
  lemma {:induction false} MadeRightIff(ids: set<nat>, rest: bytes, chunks: seq<bytes>)
    requires WellFormed(rest) && Fits(rest, chunks)
    ensures AllPackets(Delivered(rest, chunks).packets)
    ensures PayloadsRepeat(ids, rest, chunks) <==>
            MadeOver(ids, rest, chunks) == AllIntended(ids, Delivered(rest, chunks).packets)
    decreases |chunks|
  {
    DeliveredArePackets(rest, chunks);
    if chunks != [] {
      var data := rest + chunks[0];
      Residual(data);
      FramesInside(data);
      var now, later := Frames(data), chunks[1..];
      DeliveredArePackets(now.rest, later);
      MadeRightIff(ids, now.rest, later);
      BatchRightIff(ids, data, now.packets);
      IntendedAppend(ids, now.packets, Delivered(now.rest, later).packets);
      SameHeadSize(AllMade(ids, data, now.packets), MadeOver(ids, now.rest, later),
                   AllIntended(ids, now.packets), AllIntended(ids, Delivered(now.rest, later).packets));
    }
  }

  // ---------------------------------------------------------------------------------------------
  // Reading with parsers that may throw
  // ---------------------------------------------------------------------------------------------

  /** What reads come to: frames handed over, packets queued, bytes unread, and whether another read is posted. */
  datatype Inbox = Inbox(frames: seq<bytes>, queued: seq<Packet>, unread: bytes, posted: bool)

  /** One OnRecv over the unread data: an exception leaves the data unread and posts no further read. */
  ghost function HandleRead(types: map<nat, Parser>, data: bytes): Inbox
    requires WellFormed(data)
  {
    FramesInside(data);
    var parsed := Frames(data);
    var offered := AllMade(types.Keys, data, parsed.packets);
    if AllParse(types, offered) then Inbox(parsed.packets, offered, parsed.rest, true)
    else Inbox(HandedOut(types, data, parsed.packets), Taken(types, offered), data, false)
  }

  /** As long as a read is posted, it brings at least one byte, at most what there is room for, and whole headers. */
  ghost predicate Readable(types: map<nat, Parser>, unread: bytes, chunks: seq<bytes>)
    decreases |chunks|
  {
    chunks != [] ==>
      && chunks[0] != [] && |unread| + |chunks[0]| <= CAPACITY && WellFormed(unread + chunks[0])
      && (HandleRead(types, unread + chunks[0]).posted ==>
            Readable(types, HandleRead(types, unread + chunks[0]).unread, chunks[1..]))
  }

  /** The reads of the chunks, up to the one that throws. */
  ghost function ReadAll(types: map<nat, Parser>, unread: bytes, chunks: seq<bytes>): Inbox
    requires Readable(types, unread, chunks)
    decreases |chunks|
  {
    if chunks == [] then Inbox([], [], unread, true)
    else
      var now := HandleRead(types, unread + chunks[0]);
      if !now.posted then now
      else
        var later := ReadAll(types, now.unread, chunks[1..]);
        Inbox(now.frames + later.frames, now.queued + later.queued, later.unread, later.posted)
  }

  /** One read, then the others, added to what there was before. */
  lemma {:induction false} ReadAllCons(types: map<nat, Parser>, unread: bytes, chunk: bytes, later: seq<bytes>,
                                       r: seq<bytes>, q: seq<Packet>)
    requires Readable(types, unread, [chunk] + later)
    ensures WellFormed(unread + chunk)
    ensures var now, all := HandleRead(types, unread + chunk), ReadAll(types, unread, [chunk] + later);
            if !now.posted then all == now
            else
              && Readable(types, now.unread, later)
              && var rest := ReadAll(types, now.unread, later);
                 && r + now.frames + rest.frames == r + all.frames
                 && q + now.queued + rest.queued == q + all.queued
                 && rest.unread == all.unread && rest.posted == all.posted
  {
    assert ([chunk] + later)[1..] == later;
    var now := HandleRead(types, unread + chunk);
    if now.posted {
      var rest := ReadAll(types, now.unread, later);
      Assoc(r, now.frames, rest.frames);
      Assoc(q, now.queued, rest.queued);
    }
  }

  /**
   A run of reads goes on to the end exactly when every registered body, made from the front of its read's array,
   parses; otherwise it stops at the first that does not, with the packets made before it.
   */
  lemma {:induction false} ReadsOnIff(types: map<nat, Parser>, rest: bytes, chunks: seq<bytes>)
    requires WellFormed(rest) && Fits(rest, chunks)
    ensures Readable(types, rest, chunks)
    ensures var r, offered := ReadAll(types, rest, chunks), MadeOver(types.Keys, rest, chunks);
            && (r.posted <==> AllParse(types, offered)) && r.queued == Taken(types, offered)
            && r.frames <= Delivered(rest, chunks).packets
            && (r.posted ==> Parsed(r.frames, r.unread) == Delivered(rest, chunks))
    decreases |chunks|
  {
    hide AllParse, Made, Parses, WellFormed, Frames, AllMade, HandedOut;
    if chunks == [] {
      TakenIff(types, []);
    } else {
      var data := rest + chunks[0];
      Residual(data);
      FramesInside(data);
      var now, offered := Frames(data), AllMade(types.Keys, data, Frames(data).packets);
      HandedOutPrefix(types, data, now.packets);
      TakenIff(types, offered);
      TakenAppend(types, offered, MadeOver(types.Keys, now.rest, chunks[1..]));
      ReadsOnIff(types, now.rest, chunks[1..]);
    }
  }

  /** Reads of a well-formed stream that fit the write segments, with no further assumption on the bytes. */
  ghost predicate FitSegments(types: map<nat, Parser>, unread: bytes, chunks: seq<bytes>)
    decreases |chunks|
  {
    chunks != [] ==>
      && chunks[0] != [] && |unread| + |chunks[0]| <= CAPACITY
      && (WellFormed(unread + chunks[0]) && HandleRead(types, unread + chunks[0]).posted ==>
            FitSegments(types, HandleRead(types, unread + chunks[0]).unread, chunks[1..]))
  }

  /** They hand over the first frames of the stream; as long as no parser throws, all of them. */
  lemma {:induction false} StreamRead(types: map<nat, Parser>, rest: bytes, chunks: seq<bytes>)
    requires WellFormed(rest + Flatten(chunks)) && !Complete(rest) && FitSegments(types, rest, chunks)
    ensures Readable(types, rest, chunks)
    ensures var r := ReadAll(types, rest, chunks);
            && r.frames <= Frames(rest + Flatten(chunks)).packets
            && (r.posted ==> Fits(rest, chunks) && Parsed(r.frames, r.unread) == Frames(rest + Flatten(chunks)))
    decreases |chunks|
  {
    hide AllParse, AllMade, HandedOut, Taken;
    if chunks == [] {
      assert rest + [] == rest;
    } else {
      var data, later := rest + chunks[0], Flatten(chunks[1..]);
      Assoc3(rest, chunks[0], later);
      FramesConcat(data, later);
      FramesDecompose(data);
      FramesInside(data);
      HandedOutPrefix(types, data, Frames(data).packets);
      if HandleRead(types, data).posted {
        StreamRead(types, Frames(data).rest, chunks[1..]);
      }
    }
  }

  // ---------------------------------------------------------------------------------------------
  // The receiving side as a machine: completions of the posted read, and other threads' Disconnect
  // ---------------------------------------------------------------------------------------------

  datatype Recv = Recv(unread: bytes, received: seq<bytes>, queued: seq<Packet>, posted: bool, disconnected: bool)

  datatype RecvEvent =
    | Arrives(chunk: bytes)  // the posted read completes
    | Fails                  // the posted read completes with no bytes or an error
    | FlagSet                // some thread sets the disconnect flag

  ghost predicate CanArrive(s: Recv, chunk: bytes) {
    s.posted && chunk != [] && |s.unread| + |chunk| <= CAPACITY && WellFormed(s.unread + chunk)
  }

  /** None when the socket cannot do this: only a posted read completes. */
  ghost function RecvStep(types: map<nat, Parser>, s: Recv, e: RecvEvent): Option<Recv> {
    match e
    case Arrives(chunk) =>
      if !CanArrive(s, chunk) then None
      else
        var now := HandleRead(types, s.unread + chunk);
        Some(Recv(now.unread, s.received + now.frames, s.queued + now.queued, now.posted && !s.disconnected,
                  s.disconnected))
    case Fails => if s.posted then Some(s.(posted := false, disconnected := true)) else None
    case FlagSet => Some(s.(disconnected := true))
  }

  ghost function RecvRun(types: map<nat, Parser>, s: Recv, events: seq<RecvEvent>): Option<Recv>
    decreases |events|
  {
    if events == [] then Some(s)
    else
      match RecvStep(types, s, events[0])
      case None => None
      case Some(n) => RecvRun(types, n, events[1..])
  }

  /** Without a posted read nothing is received, whatever happens; all that can happen is that the flag is set. */
  lemma {:induction false} NothingWithoutRead(types: map<nat, Parser>, s: Recv, events: seq<RecvEvent>)
    requires !s.posted && RecvRun(types, s, events).Some?
    ensures RecvRun(types, s, events) == Some(s.(disconnected := s.disconnected || events != []))
    ensures forall i | 0 <= i < |events| :: events[i] == FlagSet
    decreases |events|
  {
    hide HandleRead;
    if events != [] {
      assert forall i | 1 <= i < |events| :: events[i] == events[1..][i - 1];
      NothingWithoutRead(types, RecvStep(types, s, events[0]).value, events[1..]);
    }
  }

  /** The session is disconnected once a read failed or some thread set the flag, and never otherwise. */
  lemma {:induction false} DisconnectedIff(types: map<nat, Parser>, s: Recv, events: seq<RecvEvent>)
    requires RecvRun(types, s, events).Some?
    ensures RecvRun(types, s, events).value.disconnected <==>
            s.disconnected || exists i :: 0 <= i < |events| && !events[i].Arrives?
    decreases |events|
  {
    hide HandleRead;
    if events != [] {
      assert forall i | 1 <= i < |events| :: events[i] == events[1..][i - 1];
      assert forall i | 0 <= i < |events| - 1 :: events[1..][i] == events[i + 1];
      DisconnectedIff(types, RecvStep(types, s, events[0]).value, events[1..]);
    }
  }

  /** Once the flag is set, only the read that was already posted can still bring something. */
  lemma {:induction false} OneReadAfterDisconnect(types: map<nat, Parser>, s: Recv, events: seq<RecvEvent>)
    requires s.disconnected && RecvRun(types, s, events).Some?
    ensures forall i, j | 0 <= i < j < |events| && !events[i].FlagSet? :: events[j].FlagSet?
    ensures (exists i :: 0 <= i < |events| && !events[i].FlagSet?) ==> !RecvRun(types, s, events).value.posted
    decreases |events|
  {
    hide HandleRead;
    if events != [] {
      var n := RecvStep(types, s, events[0]).value;
      assert forall i | 1 <= i < |events| :: events[i] == events[1..][i - 1];
      if events[0].FlagSet? {
        OneReadAfterDisconnect(types, n, events[1..]);
        assert forall i | 0 <= i < |events| - 1 :: events[1..][i] == events[i + 1];
      } else {
        NothingWithoutRead(types, n, events[1..]);
      }
    }
  }

  /**
   A read in which some registered body does not parse is the last: the frames behind the throwing one are never
   handed over, and in every run nothing more is received; the session stays connected until some thread
   disconnects it.
   */
  lemma {:induction false} ThrowDeafens(types: map<nat, Parser>, s: Recv, chunk: bytes, events: seq<RecvEvent>)
    requires CanArrive(s, chunk) && RecvRun(types, s, [Arrives(chunk)] + events).Some?
    ensures Within(Frames(s.unread + chunk).packets, |s.unread + chunk|) && AllPackets(Frames(s.unread + chunk).packets)
    ensures var data := s.unread + chunk;
            var offered := AllMade(types.Keys, data, Frames(data).packets);
            var after := RecvRun(types, s, [Arrives(chunk)] + events).value;
            !AllParse(types, offered) ==>
              && !after.posted && after.unread == data
              && after.received == s.received + HandedOut(types, data, Frames(data).packets)
              && after.queued == s.queued + Taken(types, offered)
              && (after.disconnected <==> s.disconnected || events != [])
              && forall i | 0 <= i < |events| :: events[i] == FlagSet
  {
    FramesInside(s.unread + chunk);
    assert ([Arrives(chunk)] + events)[1..] == events;
    var n := RecvStep(types, s, Arrives(chunk)).value;
    if !n.posted {
      NothingWithoutRead(types, n, events);
    }
  }

  /** The reads of a session are a run of this machine, up to the read that throws. */
  lemma {:induction false} ReadAllIsARun(types: map<nat, Parser>, s: Recv, chunks: seq<bytes>) returns (k: nat)
    requires s.posted && !s.disconnected && Readable(types, s.unread, chunks)
    ensures k <= |chunks|
    ensures var r := ReadAll(types, s.unread, chunks);
            && RecvRun(types, s, Arrivals(chunks[..k])) ==
               Some(Recv(r.unread, s.received + r.frames, s.queued + r.queued, r.posted, false))
            && (r.posted ==> k == |chunks|)
    decreases |chunks|
  {
    if chunks == [] {
      k := 0;
      assert s.received + [] == s.received && s.queued + [] == s.queued;
    } else {
      assert chunks == [chunks[0]] + chunks[1..];
      ReadAllCons(types, s.unread, chunks[0], chunks[1..], s.received, s.queued);
      var n := RecvStep(types, s, Arrives(chunks[0])).value;
      if n.posted {
        var more := ReadAllIsARun(types, n, chunks[1..]);
        k := more + 1;
        assert chunks[..k][1..] == chunks[1..][..more];
      } else {
        k := 1;
        assert chunks[..1][1..] == [];
        assert Arrivals(chunks[..1])[1..] == [];
      }
    }
  }

  function Arrivals(chunks: seq<bytes>): seq<RecvEvent> {
    if chunks == [] then [] else [Arrives(chunks[0])] + Arrivals(chunks[1..])
  }


  // ---------------------------------------------------------------------------------------------
  // Which cuts give the right packets whatever the payloads
  // ---------------------------------------------------------------------------------------------

  /** In every read, each registered frame after the first is nothing but a header. */
  ghost predicate FrontOnlyReads(ids: set<nat>, rest: bytes, chunks: seq<bytes>)
    requires WellFormed(rest) && Fits(rest, chunks)
    decreases |chunks|
  {
    chunks != [] ==>
      var data := rest + chunks[0];
      && (FramesInside(data); FrontOnly(ids, Frames(data).packets))
      && (Residual(data); FrontOnlyReads(ids, Frames(data).rest, chunks[1..]))
  }

  /** One frame per read is enough. */
  lemma {:induction false} OneFrameIsFrontOnly(ids: set<nat>, rest: bytes, chunks: seq<bytes>)
    requires WellFormed(rest) && Fits(rest, chunks) && OneFramePerRead(rest, chunks)
    ensures FrontOnlyReads(ids, rest, chunks)
    decreases |chunks|
  {
    if chunks != [] {
      FramesInside(rest + chunks[0]);
      Residual(rest + chunks[0]);
      OneFrameIsFrontOnly(ids, Frames(rest + chunks[0]).rest, chunks[1..]);
    }
  }

  lemma {:induction false} FrontOnlyRepeats(ids: set<nat>, rest: bytes, chunks: seq<bytes>)
    requires WellFormed(rest) && Fits(rest, chunks) && FrontOnlyReads(ids, rest, chunks)
    ensures PayloadsRepeat(ids, rest, chunks)
    decreases |chunks|
  {
    if chunks != [] {
      var data := rest + chunks[0];
      FramesInside(data);
      Residual(data);
      FrontOnlyIsRight(ids, data, Frames(data).packets);
      FrontOnlyRepeats(ids, Frames(data).rest, chunks[1..]);
    }
  }

  lemma {:induction false} OneFrameRepeats(ids: set<nat>, rest: bytes, chunks: seq<bytes>)
    requires WellFormed(rest) && Fits(rest, chunks) && OneFramePerRead(rest, chunks)
    ensures PayloadsRepeat(ids, rest, chunks)
  {
    OneFrameIsFrontOnly(ids, rest, chunks);
    FrontOnlyRepeats(ids, rest, chunks);
  }

  /** Frame by frame the same id and the same size. */
  predicate HeadsAgree(a: seq<bytes>, b: seq<bytes>)
    requires AllPackets(a) && AllPackets(b)
  {
    |a| == |b| && forall i | 0 <= i < |a| :: IdField(a[i]) == IdField(b[i]) && |a[i]| == |b[i]|
  }

  predicate SameLengths(a: seq<bytes>, b: seq<bytes>) {
    |a| == |b| && forall i | 0 <= i < |a| :: |a[i]| == |b[i]|
  }

  /** Two runs of reads with the same cut, delivering frames of the same ids and sizes. */
  ghost predicate SameShape(rest: bytes, chunks: seq<bytes>, rest': bytes, chunks': seq<bytes>) {
    && WellFormed(rest) && Fits(rest, chunks) && WellFormed(rest') && Fits(rest', chunks')
    && |rest| == |rest'| && !Complete(rest) && !Complete(rest') && SameLengths(chunks, chunks')
    && (DeliveredArePackets(rest, chunks); DeliveredArePackets(rest', chunks');
        HeadsAgree(Delivered(rest, chunks).packets, Delivered(rest', chunks').packets))
  }

  lemma {:induction false} SameLengthFlatten(a: seq<bytes>, b: seq<bytes>)
    requires SameLengths(a, b)
    ensures |Flatten(a)| == |Flatten(b)|
  {
    if a != [] {
      assert SameLengths(a[1..], b[1..]);
      SameLengthFlatten(a[1..], b[1..]);
    }
  }

  /** Reads that fit make a well-formed stream. */
  lemma {:induction false} FitsWellFormed(rest: bytes, chunks: seq<bytes>)
    requires WellFormed(rest) && Fits(rest, chunks)
    ensures WellFormed(rest + Flatten(chunks))
    decreases |chunks|
  {
    if chunks == [] {
      assert rest + [] == rest;
    } else {
      var data, later := rest + chunks[0], Flatten(chunks[1..]);
      Residual(data);
      FitsWellFormed(Frames(data).rest, chunks[1..]);
      Assoc3(rest, chunks[0], later);
      WellFormedJoin(data, later);
    }
  }

  lemma {:induction false} WellFormedJoin(a: bytes, b: bytes)
    requires WellFormed(a) && WellFormed(Frames(a).rest + b)
    ensures WellFormed(a + b)
    decreases |a|
  {
    if Complete(a) {
      var n := SizeField(a);
      assert SizeField(a + b) == n && (a + b)[n..] == a[n..] + b;
      WellFormedJoin(a[n..], b);
    }
  }

  /** What the next reads complete first starts with the residue, which is shorter than it. */
  lemma {:induction false} ResidueStartsNext(rest: bytes, chunks: seq<bytes>)
    requires WellFormed(rest) && Fits(rest, chunks) && !Complete(rest) && Delivered(rest, chunks).packets != []
    ensures |rest| < |Delivered(rest, chunks).packets[0]|
  {
    FitsWellFormed(rest, chunks);
    ChunkIndependence(rest, chunks);
    var all := rest + Flatten(chunks);
    if |rest| >= HEADER_SIZE {
      assert SizeField(all) == SizeField(rest);
    }
  }

  /** In two runs of the same shape, the first reads complete equally many frames. */
  lemma {:induction false} SameFirstCount(rest: bytes, chunks: seq<bytes>, rest': bytes, chunks': seq<bytes>)
    requires chunks != [] && SameShape(rest, chunks, rest', chunks')
    ensures |Frames(rest' + chunks'[0]).packets| <= |Frames(rest + chunks[0]).packets|
  {
    var data, data' := rest + chunks[0], rest' + chunks'[0];
    FramesDecompose(data); FramesDecompose(data');
    Residual(data); Residual(data');
    var now, now' := Frames(data), Frames(data');
    var later := Delivered(now.rest, chunks[1..]).packets;
    DeliveredArePackets(rest, chunks); DeliveredArePackets(rest', chunks');
    var all, all' := Delivered(rest, chunks).packets, Delivered(rest', chunks').packets;
    var k := |now.packets|;
    if k < |now'.packets| {
      assert all[k] == later[0] && all'[k] == now'.packets[k];
      ResidueStartsNext(now.rest, chunks[1..]);
      assert SameLengths(now.packets, now'.packets[..k]) by {
        assert forall i | 0 <= i < k :: all[i] == now.packets[i] && all'[i] == now'.packets[i];
      }
      SameLengthFlatten(now.packets, now'.packets[..k]);
      FlattenAt(now'.packets, k);
    }
  }

  /** The concatenation, split around its k-th part. */
  lemma FlattenAt(parts: seq<bytes>, k: nat)
    requires k < |parts|
    ensures Flatten(parts) == Flatten(parts[..k]) + parts[k] + Flatten(parts[k + 1..])
  {
    assert parts == parts[..k] + parts[k..];
    FlattenAppend(parts[..k], parts[k..]);
    Assoc3(Flatten(parts[..k]), parts[k], Flatten(parts[k + 1..]));
  }

  /** So the reads of two runs of the same shape complete frames of the same ids and sizes, read by read. */
  lemma {:induction false} ShapeFixesReads(rest: bytes, chunks: seq<bytes>, rest': bytes, chunks': seq<bytes>)
    requires chunks != [] && SameShape(rest, chunks, rest', chunks')
    ensures AllPackets(Frames(rest + chunks[0]).packets) && AllPackets(Frames(rest' + chunks'[0]).packets)
    ensures HeadsAgree(Frames(rest + chunks[0]).packets, Frames(rest' + chunks'[0]).packets)
    ensures SameShape(Frames(rest + chunks[0]).rest, chunks[1..], Frames(rest' + chunks'[0]).rest, chunks'[1..])
  {
    var data, data' := rest + chunks[0], rest' + chunks'[0];
    FramesDecompose(data); FramesDecompose(data');
    Residual(data); Residual(data');
    var now, now' := Frames(data), Frames(data');
    DeliveredArePackets(rest, chunks); DeliveredArePackets(rest', chunks');
    DeliveredArePackets(now.rest, chunks[1..]); DeliveredArePackets(now'.rest, chunks'[1..]);
    SameFirstCount(rest, chunks, rest', chunks');
    SameFirstCount(rest', chunks', rest, chunks);
    HeadsSplit(now.packets, Delivered(now.rest, chunks[1..]).packets,
               now'.packets, Delivered(now'.rest, chunks'[1..]).packets);
    SameLengthFlatten(now.packets, now'.packets);
  }

  lemma {:induction false} HeadsSplit(a: seq<bytes>, b: seq<bytes>, a': seq<bytes>, b': seq<bytes>)
    requires AllPackets(a) && AllPackets(b) && AllPackets(a') && AllPackets(b') && |a| == |a'|
    requires AllPackets(a + b) && AllPackets(a' + b')
    ensures HeadsAgree(a + b, a' + b') <==> HeadsAgree(a, a') && HeadsAgree(b, b')
  {
    assert forall i | 0 <= i < |a| :: (a + b)[i] == a[i] && (a' + b')[i] == a'[i];
    assert forall i | 0 <= i < |b| :: (a + b)[|a| + i] == b[i];
    assert forall i | 0 <= i < |b'| :: (a' + b')[|a| + i] == b'[i];
  }

  lemma {:induction false} ShapeKeepsFrontOnly(ids: set<nat>, rest: bytes, chunks: seq<bytes>, rest': bytes,
                                               chunks': seq<bytes>)
    requires SameShape(rest, chunks, rest', chunks') && FrontOnlyReads(ids, rest, chunks)
    ensures FrontOnlyReads(ids, rest', chunks')
    decreases |chunks|
  {
    if chunks != [] {
      ShapeFixesReads(rest, chunks, rest', chunks');
      var now, now' := Frames(rest + chunks[0]), Frames(rest' + chunks'[0]);
      ShapeKeepsFrontOnly(ids, now.rest, chunks[1..], now'.rest, chunks'[1..]);
    }
  }

  // The other direction: a registered frame with a payload behind another frame can be given a payload that comes
  // out wrong. It may have begun in an earlier read, so the change is carried back through the residues.

  /** The same bytes, except behind the header of a frame. */
  predicate SameHeader(a: bytes, b: bytes) {
    |a| == |b| && forall i | 0 <= i < |a| && i < MESSAGE_HEADER :: a[i] == b[i]
  }

  lemma SameHeaderPrefix(a: bytes, b: bytes, n: nat)
    requires SameHeader(a, b) && n <= |a|
    ensures SameHeader(a[..n], b[..n]) && (Complete(a[..n]) <==> Complete(b[..n]))
  {
  }

  lemma {:induction false} SameHeaderFlatten(packets: seq<bytes>, rest: bytes, packets': seq<bytes>, rest': bytes)
    requires |packets| == |packets'| && |Flatten(packets)| == |Flatten(packets')| && SameHeader(rest, rest')
    requires packets != [] ==> SameHeader(packets[0], packets'[0]) && |packets[0]| >= MESSAGE_HEADER
    ensures SameHeader(Flatten(packets) + rest, Flatten(packets') + rest')
  {
    var a, b := Flatten(packets) + rest, Flatten(packets') + rest';
    if packets != [] {
      assert forall i | 0 <= i < MESSAGE_HEADER :: a[i] == packets[0][i] && b[i] == packets'[0][i];
    }
  }

  /** The data that has these frames and this residue instead. */
  lemma {:induction false} OtherData(data: bytes, packets': seq<bytes>, rest2: bytes)
    requires WellFormed(data) && AllPackets(packets') && AllPackets(Frames(data).packets)
    requires HeadsAgree(Frames(data).packets, packets') && SameHeader(Frames(data).rest, rest2)
    requires forall i | 0 <= i < |packets'| :: SameHeader(Frames(data).packets[i], packets'[i])
    ensures var data' := Flatten(packets') + rest2;
            WellFormed(data') && Frames(data') == Parsed(packets', rest2) && SameHeader(data, data')
  {
    var now, data' := Frames(data), Flatten(packets') + rest2;
    FramesDecompose(data);
    SameLengthFlatten(now.packets, packets');
    SameHeaderPrefix(now.rest, rest2, |rest2|);
    assert now.rest[..|rest2|] == now.rest && rest2[..|rest2|] == rest2;
    FramesUnique(data', packets', rest2);
    hide Frames, WellFormed;
    SameHeaderFlatten(now.packets, now.rest, packets', rest2);
  }

  /** Other data for one read, in terms of the bytes of the read before it. */
  lemma {:induction false} CarryBack(rest: bytes, chunk: bytes, packets': seq<bytes>, rest2: bytes)
      returns (rest': bytes, chunk': bytes)
    requires WellFormed(rest) && !Complete(rest) && WellFormed(rest + chunk)
    requires AllPackets(packets') && AllPackets(Frames(rest + chunk).packets)
    requires HeadsAgree(Frames(rest + chunk).packets, packets') && SameHeader(Frames(rest + chunk).rest, rest2)
    requires forall i | 0 <= i < |packets'| :: SameHeader(Frames(rest + chunk).packets[i], packets'[i])
    ensures SameHeader(rest, rest') && |chunk'| == |chunk| && !Complete(rest') && WellFormed(rest')
    ensures WellFormed(rest' + chunk') && Frames(rest' + chunk') == Parsed(packets', rest2)
  {
    hide Frames, HeadsAgree, AllPackets;
    var data, data' := rest + chunk, Flatten(packets') + rest2;
    OtherData(data, packets', rest2);
    rest', chunk' := data'[..|rest|], data'[|rest|..];
    assert rest' + chunk' == data';
    SameHeaderPrefix(data, data', |rest|);
    assert rest == data[..|rest|] && chunk == data[|rest|..];
  }

  /** A frame behind another one is given a first payload byte that differs from the one its parser will be shown. */
  lemma {:induction false} SpoilBatch(ids: set<nat>, packets: seq<bytes>, rest: bytes, i: nat)
      returns (packets': seq<bytes>)
    requires AllPackets(packets) && 1 <= i < |packets|
    requires IdField(packets[i]) in ids && |packets[i]| > MESSAGE_HEADER
    ensures AllPackets(packets') && HeadsAgree(packets, packets')
    ensures forall j | 0 <= j < |packets'| :: SameHeader(packets[j], packets'[j])
    ensures Within(packets', |Flatten(packets') + rest|)
    ensures !RepeatFront(ids, Flatten(packets') + rest, packets')
  {
    var front, data := Flatten(packets[..i]), Flatten(packets) + rest;
    FlattenAt(packets, i);
    assert packets[..i] != [] && |front| >= |packets[0]|;
    var q := packets[i][MESSAGE_HEADER := if data[MESSAGE_HEADER] == 0 then 1 else 0];
    packets' := packets[i := q];
    FlattenAt(packets', i);
    assert packets'[..i] == packets[..i] && packets'[i + 1..] == packets[i + 1..];
    var data' := Flatten(packets') + rest;
    PartsAreShort(packets');
    assert data'[MESSAGE_HEADER] == data[MESSAGE_HEADER] by {
      if |front| == MESSAGE_HEADER {
        assert data'[MESSAGE_HEADER] == q[0] && data[MESSAGE_HEADER] == packets[i][0];
      } else {
        assert data'[MESSAGE_HEADER] == front[MESSAGE_HEADER] && data[MESSAGE_HEADER] == front[MESSAGE_HEADER];
      }
    }
    assert packets'[i][MESSAGE_HEADER..][0] != data'[MESSAGE_HEADER..|packets'[i]|][0];
  }

  /** When some read completes a registered frame with a payload behind another frame, some payload comes out wrong. */
  lemma {:induction false} Spoil(ids: set<nat>, rest: bytes, chunks: seq<bytes>)
      returns (rest': bytes, chunks': seq<bytes>)
    requires WellFormed(rest) && !Complete(rest) && Fits(rest, chunks) && !FrontOnlyReads(ids, rest, chunks)
    ensures SameHeader(rest, rest') && SameShape(rest, chunks, rest', chunks')
    ensures !PayloadsRepeat(ids, rest', chunks')
    decreases |chunks|
  {
    var data := rest + chunks[0];
    FramesDecompose(data);
    FramesInside(data);
    Residual(data);
    var now := Frames(data);
    var packets', rest2, later := now.packets, now.rest, chunks[1..];
    if FrontOnly(ids, now.packets) {
      rest2, later := Spoil(ids, now.rest, chunks[1..]);
    } else {
      var i :| 1 <= i < |now.packets| && IdField(now.packets[i]) in ids && |now.packets[i]| != MESSAGE_HEADER;
      packets' := SpoilBatch(ids, now.packets, now.rest, i);
      SameShapeAsItself(now.rest, chunks[1..]);
    }
    hide RepeatFront, FrontOnly, Frames, WellFormed, PayloadsRepeat, FrontOnlyReads, Fits, SameShape;
    var chunk';
    rest', chunk' := CarryBack(rest, chunks[0], packets', rest2);
    FramesDecompose(rest' + chunk');
    FramesInside(rest' + chunk');
    chunks' := [chunk'] + later;
    SpoiltRun(ids, rest, chunks, rest', chunk', later);
  }

  lemma {:induction false} SameShapeAsItself(rest: bytes, chunks: seq<bytes>)
    requires WellFormed(rest) && !Complete(rest) && Fits(rest, chunks)
    ensures SameShape(rest, chunks, rest, chunks)
  {
    DeliveredArePackets(rest, chunks);
  }

  lemma {:induction false} SpoiltRun(ids: set<nat>, rest: bytes, chunks: seq<bytes>, rest': bytes, chunk': bytes,
                                     later: seq<bytes>)
    requires chunks != [] && WellFormed(rest) && !Complete(rest) && Fits(rest, chunks)
    requires WellFormed(rest') && !Complete(rest') && WellFormed(rest' + chunk')
    requires |rest| == |rest'| && |chunk'| == |chunks[0]|
    requires AllPackets(Frames(rest + chunks[0]).packets) && AllPackets(Frames(rest' + chunk').packets)
    requires HeadsAgree(Frames(rest + chunks[0]).packets, Frames(rest' + chunk').packets)
    requires SameShape(Frames(rest + chunks[0]).rest, chunks[1..], Frames(rest' + chunk').rest, later)
    requires Within(Frames(rest' + chunk').packets, |rest' + chunk'|)
    requires RepeatFront(ids, rest' + chunk', Frames(rest' + chunk').packets) ==>
               !PayloadsRepeat(ids, Frames(rest' + chunk').rest, later)
    ensures SameShape(rest, chunks, rest', [chunk'] + later) && !PayloadsRepeat(ids, rest', [chunk'] + later)
  {
    var now, now', chunks' := Frames(rest + chunks[0]), Frames(rest' + chunk'), [chunk'] + later;
    assert chunks'[1..] == later;
    assert SameLengths(chunks, chunks') by {
      assert forall i | 1 <= i < |chunks| :: chunks[i] == chunks[1..][i - 1] && chunks'[i] == later[i - 1];
    }
    DeliveredArePackets(rest, chunks); DeliveredArePackets(rest', chunks');
    DeliveredArePackets(now.rest, chunks[1..]); DeliveredArePackets(now'.rest, later);
    HeadsSplit(now.packets, Delivered(now.rest, chunks[1..]).packets,
               now'.packets, Delivered(now'.rest, later).packets);
  }

  /** For the ids, frame sizes and cut of these reads, the packets are right whatever the payloads. */
  ghost predicate RightForAllPayloads(ids: set<nat>, chunks: seq<bytes>) {
    forall chunks': seq<bytes> | SameShape([], chunks, [], chunks') ::
      (DeliveredArePackets([], chunks');
       MadeOver(ids, [], chunks') == AllIntended(ids, Delivered([], chunks').packets))
  }

  /** That is so exactly when, in every read, each registered frame after the first is nothing but a header. */
  lemma {:induction false} CutIsRightIff(ids: set<nat>, chunks: seq<bytes>)
    requires Fits([], chunks)
    ensures RightForAllPayloads(ids, chunks) <==> FrontOnlyReads(ids, [], chunks)
  {
    if FrontOnlyReads(ids, [], chunks) {
      forall chunks': seq<bytes> | SameShape([], chunks, [], chunks')
        ensures AllPackets(Delivered([], chunks').packets)
        ensures MadeOver(ids, [], chunks') == AllIntended(ids, Delivered([], chunks').packets)
      {
        ShapeKeepsFrontOnly(ids, [], chunks, [], chunks');
        FrontOnlyRepeats(ids, [], chunks');
        MadeRightIff(ids, [], chunks');
      }
    } else {
      var rest', chunks' := Spoil(ids, [], chunks);
      assert rest' == [];
      MadeRightIff(ids, [], chunks');
    }
  }

  // ---------------------------------------------------------------------------------------------
  // Inputs that deafen the client
  // ---------------------------------------------------------------------------------------------

  /** S_PlayStone has the layout of C_PlayStone, and its stone is always set. */
  function SerializePlayed(stone: M.StoneInfo): bytes {
    M.SerializePlay(M.CPlayStone(Some(stone)))
  }

  lemma SmallSize(n: nat)
    ensures VarintSize(n) >= 1 && (n < 128 ==> VarintSize(n) == 1)
  {
    if n < 128 {
      assert 128 == Pow2(7);
      Log2Bounds(OrOne(n), 7, 128);
    }
  }

  lemma ShortStone(stone: M.StoneInfo)
    requires 0 <= stone.stoneType < 128 && stone.posX < 128 && stone.posY < 128
    ensures 2 <= |SerializePlayed(stone)| <= 8
  {
    hide M.SerializePlay, VarintSize;
    SmallSize(EnumToWire(stone.stoneType)); SmallSize(stone.posX); SmallSize(stone.posY);
    SmallSize(M.ByteSizeStone(stone));
    M.PlaySize(M.CPlayStone(Some(stone)));
  }

  lemma LongStart(enemy: M.EnemyInfo)
    requires 3 <= |enemy.name| <= MAX_FRAME && enemy.playerType != 0
    ensures |P.SerializeStart(enemy)| >= 9
  {
    SmallSize(|enemy.name|); SmallSize(EnumToWire(enemy.playerType)); SmallSize(|M.SerializeEnemy(enemy)|);
    hide VarintSize, M.SerializeEnemy, Emit, EnumToWire, EmitAll;
    M.EnemySize(enemy);
    assert |M.SerializeEnemy(enemy)| >= 7;
    M.EmitWhen(true, P.StartRecord(enemy), []);
  }

  /** A name of three bytes makes a start longer than any stone with small fields. */
  lemma StartIsLonger(enemy: M.EnemyInfo, stone: M.StoneInfo)
    requires 3 <= |enemy.name| <= MAX_FRAME && enemy.playerType != 0
    requires 0 <= stone.stoneType < 128 && stone.posX < 128 && stone.posY < 128
    ensures 0 < |SerializePlayed(stone)| < |P.SerializeStart(enemy)|
  {
    hide SerializePlayed, P.SerializeStart;
    ShortStone(stone);
    LongStart(enemy);
  }

  /** Both bodies are cut from the front of the array, so the second is the beginning of the first payload. */
  lemma TwoBodies(f: nat, g: nat, first: bytes, second: bytes)
    requires f in CLIENT && g in CLIENT && f <= MAX_FRAME && g <= MAX_FRAME
    requires |second| <= |first| <= MAX_FRAME - MESSAGE_HEADER
    ensures var arr, frames := FrameOf(f, first) + FrameOf(g, second), [FrameOf(f, first), FrameOf(g, second)];
            && WellFormed(arr) && Frames(arr) == Parsed(frames, [])
            && AllPackets(frames) && Within(frames, |arr|)
            && Made(CLIENT.Keys, arr, frames[0]) == [Packet(f, first)]
            && Made(CLIENT.Keys, arr, frames[1]) == [Packet(g, first[..|second|])]
            && AllMade(CLIENT.Keys, arr, frames) == [Packet(f, first)] + [Packet(g, first[..|second|])]
  {
    FrameRoundTrip(f, first);
    FrameRoundTrip(g, second);
    var one, two := FrameOf(f, first), FrameOf(g, second);
    assert one[MESSAGE_HEADER..] == first;
    hide FrameOf;
    var arr := one + two;
    assert arr[MESSAGE_HEADER..|one|] == first && arr[MESSAGE_HEADER..|two|] == first[..|second|];
    var none: seq<bytes> := [];
    assert [one, two][1..] == [two] && [two][1..] == none;
    assert Flatten([two]) == two + Flatten([]);
    assert Flatten([one, two]) == arr;
    StreamOfPackets([one, two]);
    assert AllMade(CLIENT.Keys, arr, [two]) == Made(CLIENT.Keys, arr, two) + AllMade(CLIENT.Keys, arr, []);
  }

  lemma StartHoldsEnemy(enemy: M.EnemyInfo)
    ensures |P.SerializeStart(enemy)| > |M.SerializeEnemy(enemy)|
  {
    hide M.SerializeEnemy, Encode;
  }

  /** The second body is refused, so the first packet is the only one, and no further read is posted. */
  lemma PairDeafens(f: nat, g: nat, first: bytes, second: bytes)
    requires f in CLIENT && g in CLIENT && f <= MAX_FRAME && g <= MAX_FRAME
    requires |second| <= |first| <= MAX_FRAME - MESSAGE_HEADER
    requires CLIENT[f](first) && !CLIENT[g](first[..|second|])
    ensures var frames := [FrameOf(f, first), FrameOf(g, second)];
            && WellFormed(frames[0] + frames[1])
            && HandleRead(CLIENT, frames[0] + frames[1]) ==
               Inbox(frames, [Packet(f, first)], frames[0] + frames[1], false)
  {
    TwoBodies(f, g, first, second);
    hide AllMade, Frames, WellFormed, HandedOut, FrameOf, Made;
    TakenAppend(CLIENT, [Packet(f, first)], [Packet(g, first[..|second|])]);
    SecondThrows(CLIENT, FrameOf(f, first) + FrameOf(g, second), FrameOf(f, first), FrameOf(g, second));
  }

  /**
   Two registered frames in one read, the first a single record that its parser takes, the second with a shorter
   payload: the first packet is made, the second frame's parser is shown a record that was cut off, throws, and no
   further read is posted. This holds whatever the second message is.
   */
  lemma {:induction false} CutPairDeafens(f: nat, g: nat, r: Record, second: bytes)
    requires f in CLIENT && g in CLIENT && Emittable(r) && CLIENT[f](Emit(r))
    requires 0 < |second| < |Emit(r)| <= MAX_FRAME - MESSAGE_HEADER
    ensures var frames := [FrameOf(f, Emit(r)), FrameOf(g, second)];
            && WellFormed(frames[0] + frames[1])
            && HandleRead(CLIENT, frames[0] + frames[1]) ==
               Inbox(frames, [Packet(f, Emit(r))], frames[0] + frames[1], false)
  {
    hide FrameOf, HandleRead, WellFormed, Emit, ReadRecord, SLogin, SStartGame, SPlayStone, SThrowResult, SScalar;
    P.ClientRefusesCuts(g, r, Emit(r)[..|second|]);
    P.ClientTakesIff([]);
    assert f in {1, 3, 5, 6, 8, 9, 10} && g in {1, 3, 5, 6, 8, 9, 10};
    PairDeafens(f, g, Emit(r), second);
  }

  /** A game starts and a stone with the shorter payload is played. */
  lemma StartThenStoneDeafens(enemy: M.EnemyInfo, stone: M.StoneInfo)
    requires M.EnemyFits(enemy) && ValidUtf8(enemy.name) && |P.SerializeStart(enemy)| <= MAX_FRAME - MESSAGE_HEADER
    requires 0 < |SerializePlayed(stone)| < |P.SerializeStart(enemy)|
    ensures var start := P.SerializeStart(enemy);
            var frames := [FrameOf(5, start), FrameOf(8, SerializePlayed(stone))];
            && WellFormed(frames[0] + frames[1])
            && HandleRead(CLIENT, frames[0] + frames[1]) ==
               Inbox(frames, [Packet(5, start)], frames[0] + frames[1], false)
  {
    hide SStartGame, SerializePlayed, Emit, FrameOf, HandleRead, WellFormed, M.SerializeEnemy;
    StartHoldsEnemy(enemy);
    P.StartIsTaken(enemy);
    CutPairDeafens(5, 8, P.StartRecord(enemy), SerializePlayed(stone));
  }

  /** S_LeaveGame(true). */
  const LEAVE: bytes := [8, 1]

  lemma PlayedIsRecord(stone: M.StoneInfo)
    ensures SerializePlayed(stone) == Emit(Record(10, Block(M.SerializeStone(stone))))
    ensures |M.SerializeStone(stone)| <= 23 && 2 <= |SerializePlayed(stone)| <= 25
    ensures |SerializePlayed(stone)| > 2 <==> stone != M.NO_STONE
  {
    hide M.SerializeStone, M.SerializePlay, Encode;
    M.PlayLayout(stone);
    M.StoneSize(stone);
    M.EmitOneByteTag(Record(10, Block(M.SerializeStone(stone))));
    SmallEncode(|M.SerializeStone(stone)|);
    SmallSize(EnumToWire(stone.stoneType)); SmallSize(stone.posX); SmallSize(stone.posY);
  }

  lemma SmallEncode(n: nat)
    requires n < 128
    ensures Encode(n) == [n]
  {
  }

  lemma LeaveIsScalar()
    ensures P.SerializeScalar(1) == LEAVE
  {
    var r := Record(8, Number(1));
    assert EmitAll([r]) == Emit(r) + EmitAll([]);
  }

  /** The opponent plays a stone and leaves, in one read: the client reads on only if the stone has no field set. */
  lemma {:induction false} PlayThenLeaveIff(stone: M.StoneInfo)
    ensures var play := SerializePlayed(stone);
            var frames := [FrameOf(8, play), FrameOf(6, LEAVE)];
            && WellFormed(frames[0] + frames[1])
            && (HandleRead(CLIENT, frames[0] + frames[1]).posted <==> stone == M.NO_STONE)
            && (stone != M.NO_STONE ==>
                  HandleRead(CLIENT, frames[0] + frames[1]) ==
                  Inbox(frames, [Packet(8, play)], frames[0] + frames[1], false))
  {
    hide SPlayStone, SScalar, SerializePlayed, Emit, FrameOf, HandleRead, WellFormed, M.SerializeStone, Encode;
    var r, play := Record(10, Block(M.SerializeStone(stone))), SerializePlayed(stone);
    PlayedIsRecord(stone);
    P.ClientTakesIff(play);
    PlayIsTaken(stone);
    if stone != M.NO_STONE {
      CutPairDeafens(8, 6, r, LEAVE);
    } else {
      NoStoneThenLeave();
    }
  }

  lemma PlayIsTaken(stone: M.StoneInfo)
    ensures CLIENT[8](SerializePlayed(stone))
  {
    hide M.SerializePlay, M.ParsePlay;
    M.PlayRoundTrip(M.CPlayStone(Some(stone)), CSharp);
  }

  lemma NoStoneThenLeave()
    ensures var arr := FrameOf(8, SerializePlayed(M.NO_STONE)) + FrameOf(6, LEAVE);
            WellFormed(arr) && HandleRead(CLIENT, arr).posted
  {
    hide SPlayStone, SScalar, SerializePlayed, FrameOf, AllMade, Made, Frames, WellFormed, ReadRecord, Emit;
    var r, play := Record(10, Block(M.SerializeStone(M.NO_STONE))), SerializePlayed(M.NO_STONE);
    PlayedIsRecord(M.NO_STONE);
    PlayIsTaken(M.NO_STONE);
    P.OneRecord(r);
    P.ScalarTakesIff(play);
    TwoBodies(8, 6, play, LEAVE);
    assert play[..2] == play;
  }

  /** The two frames, byte by byte: the stone (1, 1, 1), and the departure. */
  lemma PlayThenLeaveBytes()
    ensures FrameOf(8, SerializePlayed(M.StoneInfo(1, 1, 1))) == [12, 0, 8, 0, 10, 6, 8, 1, 16, 1, 24, 1]
    ensures FrameOf(6, P.SerializeScalar(1)) == [6, 0, 6, 0, 8, 1]
  {
    hide SerializePlayed, P.SerializeScalar;
    LeaveIsScalar();
    StoneBytes(M.StoneInfo(1, 1, 1));
    FrameBytes(8, [10, 6, 8, 1, 16, 1, 24, 1]);
    FrameBytes(6, LEAVE);
  }

  lemma FrameBytes(id: byte, payload: bytes)
    requires |payload| + MESSAGE_HEADER < 256
    ensures FrameOf(id, payload) == [|payload| + MESSAGE_HEADER, 0, id, 0] + payload
  {
    hide FrameOf;
    SmallHeader(id, payload);
    HeaderBytes(id, payload);
    assert FrameOf(id, payload) == FrameOf(id, payload)[..4] + FrameOf(id, payload)[4..];
  }

  /** What the S_LeaveGame parser is shown is refused. */
  lemma LeaveBodyIsRefused()
    ensures !SScalar([10, 6])
  {
    var stone := M.StoneInfo(1, 1, 1);
    StoneBytes(stone);
    PlayedIsRecord(stone);
    hide SScalar, SerializePlayed, Emit, M.SerializeStone, Encode, ReadRecord;
    var cut: bytes := [10, 6];
    assert cut == SerializePlayed(stone)[..2];
    P.ClientRefusesCuts(6, Record(10, Block(M.SerializeStone(stone))), cut);
  }

  lemma StoneBytes(stone: M.StoneInfo)
    requires stone == M.StoneInfo(1, 1, 1)
    ensures SerializePlayed(stone) == [10, 6, 8, 1, 16, 1, 24, 1]
  {
    hide EmitAll, Encode, M.StoneRecords, M.PlayRecords, M.SerializeStone, M.SerializePlay;
    M.StoneLayout(stone);
    M.PlayLayout(stone);
    SmallEncode(1); SmallEncode(6);
    var fields: bytes := [8] + [1] + ([16] + [1]) + ([24] + [1]);
    assert M.SerializeStone(stone) == fields == [8, 1, 16, 1, 24, 1];
    assert [10] + [6] + fields == [10, 6, 8, 1, 16, 1, 24, 1];
  }

  lemma SecondThrows(types: map<nat, Parser>, arr: bytes, f: bytes, g: bytes)
    requires IsPacket(f) && |f| <= |arr| && IsPacket(g) && |g| <= |arr|
    requires AllParse(types, Made(types.Keys, arr, f)) && !AllParse(types, Made(types.Keys, arr, g))
    ensures HandedOut(types, arr, [f, g]) == [f, g]
  {
    hide AllParse, Made;
    assert [f, g][1..] == [g];
    assert HandedOut(types, arr, [g]) == [g];
  }

  lemma Assoc<T>(a: seq<T>, b: seq<T>, c: seq<T>)
    ensures a + b + c == a + (b + c)
  {
  }
}
