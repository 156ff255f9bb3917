/**
 Sender and receiver together: what was handed to Send on one side, under every schedule of its threads and socket,
 is what the other side makes of the bytes, however the connection cuts them up.
 */
module EndToEnd {
  import opened Bytes
  import opened Wire
  import opened Framing
  import opened Packets
  import opened Reads
  import opened SendBuffers
  import opened SendPath
  import opened Sessions
  import M = Messages
  import O = MessageObjects
  import SS = ServerSend
  import SR = ServerReceive

  /** A message on its way: its id and its serialized form. */
  datatype Message = Message(id: nat, payload: bytes)

  /** What the header's two fields can say; MakeMessage has room for less. */
  predicate Sendable(m: Message) {
    m.id <= MAX_FRAME && |m.payload| + MESSAGE_HEADER <= MAX_FRAME
  }

  predicate AllSendable(ms: seq<Message>) {
    forall m | m in ms :: Sendable(m)
  }

  function Framed(ms: seq<Message>): seq<bytes> {
    if ms == [] then [] else [FrameOf(ms[0].id, ms[0].payload)] + Framed(ms[1..])
  }

  /** What a receiver reads off whole frames. */
  function Unframed(frames: seq<bytes>): seq<Message>
    requires AllPackets(frames)
  {
    if frames == [] then []
    else [Message(IdField(frames[0]), frames[0][MESSAGE_HEADER..])] + Unframed(frames[1..])
  }

  lemma {:induction false} UnframedFramed(ms: seq<Message>)
    requires AllSendable(ms)
    ensures AllPackets(Framed(ms)) && Unframed(Framed(ms)) == ms
  {
    if ms != [] {
      assert ms[0] in ms;
      UnframedFramed(ms[1..]);
      FrameRoundTrip(ms[0].id, ms[0].payload);
      assert Framed(ms)[1..] == Framed(ms[1..]);
      assert forall i | 1 <= i < |Framed(ms)| :: Framed(ms)[i] == Framed(ms[1..])[i - 1];
    }
  }

  lemma {:induction false} UnframedPrefix(a: seq<bytes>, b: seq<bytes>)
    requires a <= b && AllPackets(b)
    ensures AllPackets(a) && Unframed(a) <= Unframed(b) && |Unframed(a)| == |a|
  {
    if a != [] {
      assert a[1..] <= b[1..];
      UnframedPrefix(a[1..], b[1..]);
    }
  }

  // ---------------------------------------------------------------------------------------------
  // The sender
  // ---------------------------------------------------------------------------------------------

  /** The segments handed to Send, in the order in which the calls got the lock. */
  function Handed(actions: seq<Action>): seq<bytes> {
    if actions == [] then []
    else (if actions[0].Send? then actions[0].segs else []) + Handed(actions[1..])
  }

  /** Nothing else enters the history, and nothing leaves it. */
  lemma {:induction false} AcceptedIsHanded(s: State, actions: seq<Action>)
    requires Run(s, actions).Some?
    ensures Run(s, actions).value.core.accepted == s.core.accepted + Handed(actions)
    decreases |actions|
  {
    if actions != [] {
      var n := Step(s, actions[0]).value;
      StepAccepts(s, actions[0]);
      AcceptedIsHanded(n, actions[1..]);
      var first := if actions[0].Send? then actions[0].segs else [];
      Assoc(s.core.accepted, first, Handed(actions[1..]));
    } else {
      assert s.core.accepted + [] == s.core.accepted;
    }
  }

  lemma StepAccepts(s: State, a: Action)
    requires Step(s, a).Some?
    ensures Step(s, a).value.core.accepted == s.core.accepted + if a.Send? then a.segs else []
  {
    assert s.core.accepted + [] == s.core.accepted;
  }

  // ---------------------------------------------------------------------------------------------
  // What the network brings
  // ---------------------------------------------------------------------------------------------

  /** The chunks are reads, of any size that fits, of the first bytes of these messages. */
  ghost predicate Brings(types: map<nat, Parser>, ms: seq<Message>, chunks: seq<bytes>) {
    AllSendable(ms) && Flatten(chunks) <= Flatten(Framed(ms)) && FitSegments(types, [], chunks)
  }

  /** Every registered body, made from the front of its read's array, parses. */
  ghost predicate BodiesParse(types: map<nat, Parser>, chunks: seq<bytes>) {
    Fits([], chunks) && AllParse(types, MadeOver(types.Keys, [], chunks))
  }

  /** The first reads of a stream of whole packets hand over some of the packets, in order, each whole. */
  lemma {:induction false} PrefixDelivered(types: map<nat, Parser>, packets: seq<bytes>, chunks: seq<bytes>)
    requires AllPackets(packets) && Flatten(chunks) <= Flatten(packets) && FitSegments(types, [], chunks)
    ensures Readable(types, [], chunks)
    ensures var r := ReadAll(types, [], chunks);
            && r.frames <= packets && (r.posted <==> BodiesParse(types, chunks))
            && (r.posted && Flatten(chunks) == Flatten(packets) ==> r.frames == packets && r.unread == [])
  {
    var read := Flatten(chunks);
    StreamOfPackets(packets);
    FramesPrefix(read, Flatten(packets));
    assert [] + read == read;
    StreamRead(types, [], chunks);
    var r := ReadAll(types, [], chunks);
    PrefixTrans(r.frames, Frames(read).packets, packets);
    if Fits([], chunks) {
      ReadsOnIff(types, [], chunks);
    }
  }

  /** The received messages are the first of those brought, and reading goes on as long as the shown bodies parse. */
  lemma {:induction false} MessagesRead(types: map<nat, Parser>, ms: seq<Message>, chunks: seq<bytes>)
    requires Brings(types, ms, chunks)
    ensures Readable(types, [], chunks)
    ensures var r := ReadAll(types, [], chunks);
            && AllPackets(r.frames) && Unframed(r.frames) <= ms && |Unframed(r.frames)| == |r.frames|
            && (r.posted <==> BodiesParse(types, chunks))
            && (r.posted && Flatten(chunks) == Flatten(Framed(ms)) ==> Unframed(r.frames) == ms && r.unread == [])
  {
    UnframedFramed(ms);
    PrefixDelivered(types, Framed(ms), chunks);
    UnframedPrefix(ReadAll(types, [], chunks).frames, Framed(ms));
  }

  /** The packets that reach the game, if every one is made from its own frame. */
  function PacketsOf(ids: set<nat>, ms: seq<Message>): seq<Packet> {
    if ms == [] then []
    else (if ms[0].id in ids then [Packet(ms[0].id, ms[0].payload)] else []) + PacketsOf(ids, ms[1..])
  }

  lemma {:induction false} IntendedIsPacketsOf(ids: set<nat>, frames: seq<bytes>)
    requires AllPackets(frames)
    ensures AllIntended(ids, frames) == PacketsOf(ids, Unframed(frames))
  {
    if frames != [] {
      assert Unframed(frames)[1..] == Unframed(frames[1..]);
      IntendedIsPacketsOf(ids, frames[1..]);
    }
  }

  /**
   When in every read each registered frame after the first is nothing but a header, and the sent payloads parse, the
   client reads on and queues the packets of the messages received.
   */
  lemma {:induction false} PacketsArrive(types: map<nat, Parser>, ms: seq<Message>, chunks: seq<bytes>)
    requires Brings(types, ms, chunks) && AllParse(types, PacketsOf(types.Keys, ms))
    requires Fits([], chunks) && FrontOnlyReads(types.Keys, [], chunks)
    ensures Readable(types, [], chunks)
    ensures var r := ReadAll(types, [], chunks);
            r.posted && |r.frames| <= |ms| && r.queued == PacketsOf(types.Keys, ms[..|r.frames|])
  {
    hide AllParse, FrontOnlyReads, Frames, FitSegments, Framed, PacketsOf, Unframed, MadeOver, AllIntended, Taken;
    ReadsOnIff(types, [], chunks);
    var ids, got := types.Keys, Delivered([], chunks).packets;
    DeliveredAreSent(types, ms, chunks);
    FrontOnlyRepeats(ids, [], chunks);
    MadeRightIff(ids, [], chunks);
    IntendedIsPacketsOf(ids, got);
    assert ms[..|got|] == Unframed(got);
    FirstPacketsParse(types, ms, |got|);
  }

  lemma {:induction false} FirstPacketsParse(types: map<nat, Parser>, ms: seq<Message>, k: nat)
    requires k <= |ms| && AllParse(types, PacketsOf(types.Keys, ms))
    ensures AllParse(types, PacketsOf(types.Keys, ms[..k]))
    ensures Taken(types, PacketsOf(types.Keys, ms[..k])) == PacketsOf(types.Keys, ms[..k])
  {
    hide AllParse;
    var first, all := PacketsOf(types.Keys, ms[..k]), PacketsOf(types.Keys, ms);
    PacketsOfPrefix(types.Keys, ms, k);
    assert all == first + all[|first|..];
    TakenAppend(types, first, all[|first|..]);
    TakenIff(types, first);
  }

  /** The same without parsers: what the reads would deliver if none threw. */
  lemma {:induction false} DeliveredAreSent(types: map<nat, Parser>, ms: seq<Message>, chunks: seq<bytes>)
    requires Brings(types, ms, chunks) && Fits([], chunks)
    ensures AllPackets(Delivered([], chunks).packets)
    ensures Unframed(Delivered([], chunks).packets) <= ms
    ensures |Unframed(Delivered([], chunks).packets)| == |Delivered([], chunks).packets|
  {
    var read := Flatten(chunks);
    UnframedFramed(ms);
    StreamOfPackets(Framed(ms));
    FramesPrefix(read, Flatten(Framed(ms)));
    assert [] + read == read;
    ChunkIndependence([], chunks);
    UnframedPrefix(Delivered([], chunks).packets, Framed(ms));
  }

  lemma {:induction false} PacketsOfPrefix(ids: set<nat>, ms: seq<Message>, k: nat)
    requires k <= |ms|
    ensures PacketsOf(ids, ms[..k]) <= PacketsOf(ids, ms)
    decreases k
  {
    if k > 0 {
      assert ms[..k][1..] == ms[1..][..k - 1];
      PacketsOfPrefix(ids, ms[1..], k - 1);
    }
  }

  /**
   Through to the game: however the network thread's pushes interleave with the game's pops, the packets popped are
   the first of those brought, and those that wait are the next; all of them, once the network brought everything.
   */
  lemma {:induction false} GameGets(types: map<nat, Parser>, ms: seq<Message>, chunks: seq<bytes>,
                                    steps: seq<QueueStep>)
    requires Brings(types, ms, chunks) && AllParse(types, PacketsOf(types.Keys, ms))
    requires Fits([], chunks) && FrontOnlyReads(types.Keys, [], chunks)
    requires Readable(types, [], chunks) && PushedIn(steps) == ReadAll(types, [], chunks).queued
    ensures var after := QueueAfter(QueueRun([], [], []), steps);
            && after.popped <= PacketsOf(types.Keys, ms) && after.popped + after.items <= PacketsOf(types.Keys, ms)
            && (Flatten(chunks) == Flatten(Framed(ms)) ==> after.popped + after.items == PacketsOf(types.Keys, ms))
  {
    hide AllParse, FrontOnlyReads, WellFormed;
    PacketsArrive(types, ms, chunks);
    MessagesRead(types, ms, chunks);
    var ids, after := types.Keys, QueueAfter(QueueRun([], [], []), steps);
    var r := ReadAll(types, [], chunks);
    PoppedThenWaiting(QueueRun([], [], []), steps);
    assert [] + PushedIn(steps) == PushedIn(steps);
    assert after.popped <= after.popped + after.items == r.queued;
    PacketsOfPrefix(ids, ms, |r.frames|);
    PrefixTrans(after.popped, r.queued, PacketsOf(ids, ms));
    if Flatten(chunks) == Flatten(Framed(ms)) {
      assert ms[..|r.frames|] == ms;
    }
  }

  lemma {:induction false} UnframedSize(frames: seq<bytes>)
    requires AllPackets(frames)
    ensures |Unframed(frames)| == |frames|
  {
    if frames != [] {
      UnframedSize(frames[1..]);
    }
  }

  /** Frames without a parser make no packet. */
  lemma {:induction false} UnregisteredNeverThrow(types: map<nat, Parser>, rest: bytes, chunks: seq<bytes>)
    requires WellFormed(rest) && Fits(rest, chunks)
    requires AllPackets(Delivered(rest, chunks).packets)
    requires forall p | p in Delivered(rest, chunks).packets :: IdField(p) !in types
    ensures MadeOver(types.Keys, rest, chunks) == []
    decreases |chunks|
  {
    if chunks != [] {
      Residual(rest + chunks[0]);
      FramesInside(rest + chunks[0]);
      var now := Frames(rest + chunks[0]);
      var later := Delivered(now.rest, chunks[1..]).packets;
      assert forall p | p in now.packets :: p in now.packets + later;
      assert forall p | p in later :: p in now.packets + later;
      DeliveredArePackets(now.rest, chunks[1..]);
      UnregisteredNeverThrow(types, now.rest, chunks[1..]);
      NothingMade(types.Keys, rest + chunks[0], now.packets);
    }
  }

  lemma {:induction false} NothingMade(ids: set<nat>, arr: bytes, frames: seq<bytes>)
    requires AllPackets(frames) && Within(frames, |arr|) && forall p | p in frames :: IdField(p) !in ids
    ensures AllMade(ids, arr, frames) == []
    decreases |frames|
  {
    if frames != [] {
      assert frames[0] in frames;
      NothingMade(ids, arr, frames[1..]);
    }
  }

  lemma {:induction false} UnframedAt(frames: seq<bytes>, i: nat)
    requires AllPackets(frames) && i < |frames|
    ensures |Unframed(frames)| == |frames|
    ensures Unframed(frames)[i] == Message(IdField(frames[i]), frames[i][MESSAGE_HEADER..])
  {
    UnframedSize(frames);
    if i > 0 { UnframedAt(frames[1..], i - 1); }
  }

  /** Messages for which the client has no parser never stop it. */
  lemma {:induction false} UnregisteredNeverDeafen(types: map<nat, Parser>, ms: seq<Message>, chunks: seq<bytes>)
    requires Brings(types, ms, chunks) && Fits([], chunks)
    requires forall m | m in ms :: m.id !in types
    ensures BodiesParse(types, chunks)
  {
    hide FitSegments;
    DeliveredAreSent(types, ms, chunks);
    var got := Delivered([], chunks).packets;
    forall p | p in got ensures IdField(p) !in types {
      var i :| 0 <= i < |got| && got[i] == p;
      UnframedAt(got, i);
      assert Unframed(got)[i] == ms[i] && ms[i] in ms;
    }
    UnregisteredNeverThrow(types, [], chunks);
  }

  // ---------------------------------------------------------------------------------------------
  // From the client to the server: stones
  // ---------------------------------------------------------------------------------------------

  /** The client's threads and its socket took these steps, sending these messages; this much of the wire arrived. */
  ghost predicate ClientSent(actions: seq<Action>, ms: seq<Message>, got: bytes) {
    && Run(START, actions).Some? && Handed(actions) == Framed(ms) && AllSendable(ms)
    && got <= Run(START, actions).value.wire
  }

  /** Everything sent was transmitted, and all of it arrived. */
  ghost predicate Settled(actions: seq<Action>, got: bytes)
    requires Run(START, actions).Some?
  {
    var s := Run(START, actions).value;
    !s.core.cleared && !s.lost && !s.threw && Unsent(s) == [] && s.core.queue == [] && got == s.wire
  }

  lemma {:induction false} ClientBrings(actions: seq<Action>, ms: seq<Message>, got: bytes)
    requires ClientSent(actions, ms, got)
    ensures got <= Flatten(Framed(ms)) && (Settled(actions, got) ==> got == Flatten(Framed(ms)))
  {
    var s := Run(START, actions).value;
    AcceptedIsHanded(START, actions);
    assert [] + Handed(actions) == Handed(actions);
    SendConserves(actions);
    PrefixTrans(got, s.wire, Flatten(Framed(ms)));
    if Settled(actions, got) {
      assert s.wire + [] + [] == s.wire;
    }
  }

  /** The server's loop takes the messages out of the stream again. */
  lemma {:induction false} LoopGets(ms: seq<Message>, got: bytes)
    requires AllSendable(ms) && got <= Flatten(Framed(ms))
    ensures !SR.MeetsZero(got) && AllPackets(SR.Cut(got).packets)
    ensures Unframed(SR.Cut(got).packets) <= ms && |Unframed(SR.Cut(got).packets)| == |SR.Cut(got).packets|
    ensures got == Flatten(Framed(ms)) ==> Unframed(SR.Cut(got).packets) == ms && SR.Cut(got).rest == []
  {
    UnframedFramed(ms);
    StreamOfPackets(Framed(ms));
    FramesPrefix(got, Flatten(Framed(ms)));
    SR.CutIsFrames(got);
    UnframedPrefix(SR.Cut(got).packets, Framed(ms));
  }

  /**
   Every schedule of the client's threads and socket, every cutting of the bytes into the server's reads: what the
   server's packet queue holds are the first of the sent messages, and all of them once everything arrived.
   */
  lemma {:induction false} MessagesReachServer(server: SR.Session, actions: seq<Action>, ms: seq<Message>)
    requires server.Ready() && ClientSent(actions, ms, server.got)
    ensures AllPackets(SR.NonEmpty(server.queue)) && Unframed(SR.NonEmpty(server.queue)) <= ms
    ensures |Unframed(SR.NonEmpty(server.queue))| == |SR.NonEmpty(server.queue)|
    ensures Settled(actions, server.got) ==>
              Unframed(SR.NonEmpty(server.queue)) == ms && server.recvBuffer.Unread() == []
  {
    hide SR.Cut, SR.MeetsZero, SR.NonEmpty;
    ClientBrings(actions, ms, server.got);
    LoopGets(ms, server.got);
  }

  function PlayMessages(plays: seq<M.CPlayStone>): seq<Message> {
    if plays == [] then [] else [Message(C_PLAY_STONE, M.SerializePlay(plays[0]))] + PlayMessages(plays[1..])
  }

  lemma {:induction false} PlaysAreSendable(plays: seq<M.CPlayStone>)
    ensures AllSendable(PlayMessages(plays)) && |PlayMessages(plays)| == |plays|
    ensures forall i | 0 <= i < |plays| ::
              PlayMessages(plays)[i] == Message(C_PLAY_STONE, M.SerializePlay(plays[i]))
  {
    hide M.SerializePlay, M.ByteSizePlay;
    if plays != [] {
      M.PlaySize(plays[0]);
      PlaysAreSendable(plays[1..]);
    }
  }

  /** Every stone in the server's queue is, to the readers of both languages, the stone that was played. */
  lemma {:induction false} StonesArrive(server: SR.Session, actions: seq<Action>, plays: seq<M.CPlayStone>, d: Dialect)
    requires server.Ready() && ClientSent(actions, PlayMessages(plays), server.got)
    ensures AllPackets(SR.NonEmpty(server.queue)) && |SR.NonEmpty(server.queue)| <= |plays|
    ensures forall i | 0 <= i < |SR.NonEmpty(server.queue)| ::
              var frame := SR.NonEmpty(server.queue)[i];
              && IdField(frame) == 7
              && M.ParsePlay(M.NO_PLAY, frame[MESSAGE_HEADER..], d) == Some(plays[i])
    ensures Settled(actions, server.got) ==> |SR.NonEmpty(server.queue)| == |plays|
  {
    hide M.SerializePlay, M.ParsePlay, SR.NonEmpty, SR.Session.Ready;
    MessagesReachServer(server, actions, PlayMessages(plays));
    PlaysAreSendable(plays);
    var frames := SR.NonEmpty(server.queue);
    forall i | 0 <= i < |frames|
      ensures IdField(frames[i]) == 7
      ensures M.ParsePlay(M.NO_PLAY, frames[i][MESSAGE_HEADER..], d) == Some(plays[i])
    {
      M.PlayRoundTrip(plays[i], d);
      UnframedAt(frames, i);
      assert Unframed(frames)[i] == PlayMessages(plays)[i];
    }
  }

  /** The reads of a server session that is connected to such a client. */
  method ReceiveStones(server: SR.Session, chunks: seq<bytes>, ghost actions: seq<Action>,
                       ghost plays: seq<M.CPlayStone>)
    requires server.Ready() && server.posted && server.connected && server.got == []
    requires ClientSent(actions, PlayMessages(plays), Flatten(chunks))
    requires forall c | c in chunks :: 0 < |c| <= 0x1_0000
    modifies server, server.recvBuffer, server.recvBuffer.buffer
    ensures server.Ready() && server.posted && server.connected
    ensures AllPackets(server.queue) && |server.queue| <= |plays|
    ensures forall i | 0 <= i < |server.queue| ::
              && IdField(server.queue[i]) == 7
              && M.ParsePlay(M.NO_PLAY, server.queue[i][MESSAGE_HEADER..], Cpp) == Some(plays[i])
    ensures Settled(actions, Flatten(chunks)) ==> |server.queue| == |plays|
  {
    hide M.SerializePlay, M.ParsePlay, SR.Cut, SR.MeetsZero, SR.NonEmpty;
    ClientBrings(actions, PlayMessages(plays), Flatten(chunks));
    LoopGets(PlayMessages(plays), Flatten(chunks));
    assert [] + Flatten(chunks) == Flatten(chunks);
    server.ReceiveAll(chunks);
    StonesArrive(server, actions, plays, Cpp);
  }

  // ---------------------------------------------------------------------------------------------
  // From the server to the client: logins
  // ---------------------------------------------------------------------------------------------

  /** The elements at these places. */
  function Chosen<T>(all: seq<T>, places: seq<nat>): seq<T> {
    if places == [] then [] else (if places[0] < |all| then [all[places[0]]] else []) + Chosen(all, places[1..])
  }

  predicate Places(places: seq<nat>, n: nat) {
    && (forall i | 0 <= i < |places| :: places[i] < n)
    && (forall i, j | 0 <= i < j < |places| :: places[i] < places[j])
  }

  lemma {:induction false} ChosenAt<T>(all: seq<T>, places: seq<nat>)
    requires forall i | 0 <= i < |places| :: places[i] < |all|
    ensures |Chosen(all, places)| == |places|
    ensures forall i | 0 <= i < |places| :: Chosen(all, places)[i] == all[places[i]]
  {
    if places != [] {
      assert forall i | 0 <= i < |places| - 1 :: places[1..][i] == places[i + 1];
      ChosenAt(all, places[1..]);
    }
  }

  /** The server's threads took these steps, sending these messages; these reads bring this much of the wire. */
  ghost predicate ServerSent(types: map<nat, Parser>, actions: seq<SS.Action>, ms: seq<Message>,
                             chunks: seq<bytes>) {
    && SS.Run(SS.START, actions).Some? && SS.Handed(actions) == Framed(ms) && AllSendable(ms)
    && Flatten(chunks) <= SS.OnWire(Log(actions)) && FitSegments(types, [], chunks)
  }

  function Log(actions: seq<SS.Action>): seq<SS.Batch>
    requires SS.Run(SS.START, actions).Some?
  {
    SS.Run(SS.START, actions).value.log
  }

  /** The places of the messages that were not in a batch that WSASend refused. */
  function KeptPlaces(actions: seq<SS.Action>): seq<nat>
    requires SS.Run(SS.START, actions).Some?
  {
    SS.Kept(Log(actions), 0)
  }

  /** No connection failed, and the network brings all that was transmitted. */
  ghost predicate AllBrought(actions: seq<SS.Action>, chunks: seq<bytes>)
    requires SS.Run(SS.START, actions).Some?
  {
    !SS.Broke(Log(actions)) && Flatten(chunks) == SS.OnWire(Log(actions))
  }

  ghost predicate NoneRefused(actions: seq<SS.Action>)
    requires SS.Run(SS.START, actions).Some?
  {
    forall i | 0 <= i < |Log(actions)| :: !Log(actions)[i].fate.Dropped?
  }

  /** WSASend refused nothing, and nothing waits. */
  ghost predicate AllTaken(actions: seq<SS.Action>)
    requires SS.Run(SS.START, actions).Some?
  {
    var s := SS.Run(SS.START, actions).value;
    NoneRefused(actions) && SS.Undecided(s) == [] && s.queue == []
  }

  lemma {:induction false} FramedAt(ms: seq<Message>, i: nat)
    ensures |Framed(ms)| == |ms| && (i < |ms| ==> Framed(ms)[i] == FrameOf(ms[i].id, ms[i].payload))
    decreases |ms|
  {
    hide FrameOf;
    if ms != [] {
      FramedAt(ms[1..], if i == 0 then 0 else i - 1);
    }
  }

  lemma {:induction false} FramedChosen(ms: seq<Message>, places: seq<nat>)
    requires Places(places, |ms|) && AllSendable(ms)
    ensures AllSendable(Chosen(ms, places)) && |Framed(ms)| == |ms| && |Framed(Chosen(ms, places))| == |places|
    ensures forall i | 0 <= i < |places| :: Framed(Chosen(ms, places))[i] == Framed(ms)[places[i]]
  {
    hide FrameOf, Framed;
    ChosenAt(ms, places);
    var chosen := Chosen(ms, places);
    FramedAt(ms, 0);
    FramedAt(chosen, 0);
    forall i | 0 <= i < |places| ensures Framed(chosen)[i] == Framed(ms)[places[i]] {
      FramedAt(chosen, i);
      FramedAt(ms, places[i]);
    }
    forall m | m in chosen ensures Sendable(m) {
      var i :| 0 <= i < |chosen| && chosen[i] == m;
      assert ms[places[i]] in ms;
    }
  }

  /** The decided batches hold the first segments that were handed to Send. */
  lemma {:induction false} DecidedFirst(actions: seq<SS.Action>)
    requires SS.Run(SS.START, actions).Some?
    ensures SS.Segs(Log(actions)) <= SS.Handed(actions)
    ensures AllTaken(actions) ==> SS.Segs(Log(actions)) == SS.Handed(actions)
  {
    hide SS.Run, SS.Segs, SS.Handed;
    SS.Conserves(actions);
    SS.AcceptedIsHanded(SS.START, actions);
    assert [] + SS.Handed(actions) == SS.Handed(actions);
    assert SS.Segs(Log(actions)) + [] + [] == SS.Segs(Log(actions));
  }

  lemma {:induction false} PlacesKept(log: seq<SS.Batch>, all: seq<bytes>)
    requires SS.Segs(log) <= all
    ensures Places(SS.Kept(log, 0), |all|) && |SS.Surviving(log)| == |SS.Kept(log, 0)|
    ensures forall i | 0 <= i < |SS.Kept(log, 0)| :: SS.Surviving(log)[i] == all[SS.Kept(log, 0)[i]]
  {
    hide SS.Segs, SS.Kept, SS.Surviving;
    SS.KeptAt(log, 0);
  }

  /** The frames that were not thrown away are those of the messages at the kept places. */
  lemma {:induction false} SurvivorsFramed(actions: seq<SS.Action>, ms: seq<Message>)
    requires SS.Run(SS.START, actions).Some? && SS.Handed(actions) == Framed(ms) && AllSendable(ms)
    ensures Places(KeptPlaces(actions), |ms|) && AllSendable(Chosen(ms, KeptPlaces(actions)))
    ensures SS.Surviving(Log(actions)) == Framed(Chosen(ms, KeptPlaces(actions)))
    ensures NoneRefused(actions) ==> KeptPlaces(actions) == SS.Range(0, |KeptPlaces(actions)|)
    ensures AllTaken(actions) ==> |KeptPlaces(actions)| == |ms|
  {
    hide Framed, SS.Run, SS.Segs, SS.Surviving, SS.Kept, Chosen, SS.Handed, SS.Undecided;
    DecidedFirst(actions);
    PlacesKept(Log(actions), Framed(ms));
    FramedAt(ms, 0);
    FramedChosen(ms, KeptPlaces(actions));
    if NoneRefused(actions) {
      SS.AllKept(Log(actions), 0);
    }
  }

  lemma {:induction false} ChosenAll<T>(all: seq<T>)
    ensures Chosen(all, SS.Range(0, |all|)) == all
  {
    ChosenAt(all, SS.Range(0, |all|));
  }

  /** Under every schedule of the server's threads, the wire carries the messages at the kept places, in order. */
  lemma {:induction false} ServerBrings(types: map<nat, Parser>, actions: seq<SS.Action>, ms: seq<Message>,
                                        chunks: seq<bytes>)
    requires ServerSent(types, actions, ms, chunks)
    ensures Places(KeptPlaces(actions), |ms|) && Brings(types, Chosen(ms, KeptPlaces(actions)), chunks)
    ensures AllBrought(actions, chunks) ==> Flatten(chunks) == Flatten(Framed(Chosen(ms, KeptPlaces(actions))))
    ensures NoneRefused(actions) ==> KeptPlaces(actions) == SS.Range(0, |KeptPlaces(actions)|)
    ensures AllTaken(actions) ==> |KeptPlaces(actions)| == |ms| && Chosen(ms, KeptPlaces(actions)) == ms
  {
    hide SS.RoleInv, SS.HoldInv, Framed, SS.Run, SS.Surviving, SS.OnWire, SS.Kept, Chosen, FitSegments;
    SS.Reachable(actions);
    SurvivorsFramed(actions, ms);
    SS.WireCarriesSurvivors(Log(actions));
    PrefixTrans(Flatten(chunks), SS.OnWire(Log(actions)), Flatten(SS.Surviving(Log(actions))));
    ChosenAll(ms);
  }

  /**
   For every sequence of messages, every schedule of the server's threads and every cutting of the transmitted bytes:
   the client receives the first of the messages that WSASend took, in order, with their ids and payloads. It reads on
   exactly as long as the bodies that its parsers are shown parse; if they do, and the network brings everything, all
   those messages are received; and all messages, if WSASend refused none.
   */
  lemma {:induction false} MessagesArrive(types: map<nat, Parser>, actions: seq<SS.Action>, ms: seq<Message>,
                                          chunks: seq<bytes>)
    requires ServerSent(types, actions, ms, chunks)
    ensures Readable(types, [], chunks) && Places(KeptPlaces(actions), |ms|)
    ensures var r, taken := ReadAll(types, [], chunks), Chosen(ms, KeptPlaces(actions));
            && AllPackets(r.frames) && Unframed(r.frames) <= taken
            && (r.posted <==> BodiesParse(types, chunks))
            && (r.posted && AllBrought(actions, chunks) ==> Unframed(r.frames) == taken && r.unread == [])
            && (AllTaken(actions) ==> taken == ms)
  {
    hide FrameOf, ReadAll, FitSegments, BodiesParse, Readable;
    ServerBrings(types, actions, ms, chunks);
    MessagesRead(types, Chosen(ms, KeptPlaces(actions)), chunks);
  }

  /** The server can write it, it fits a frame, and its name is one that a reader takes. */
  predicate GoodLogin(m: M.SLogin) {
    M.LoginFits(m) && M.LoginNameValid(m) && |M.SerializeLogin(m)| + MESSAGE_HEADER <= MAX_FRAME
  }

  function LoginMessages(logins: seq<M.SLogin>): seq<Message> {
    if logins == [] then [] else [Message(S_LOGIN, M.SerializeLogin(logins[0]))] + LoginMessages(logins[1..])
  }

  lemma {:induction false} LoginPackets(ids: set<nat>, logins: seq<M.SLogin>)
    requires S_LOGIN in ids
    ensures |PacketsOf(ids, LoginMessages(logins))| == |logins|
    ensures forall i | 0 <= i < |logins| ::
              PacketsOf(ids, LoginMessages(logins))[i] == Packet(S_LOGIN, M.SerializeLogin(logins[i]))
  {
    hide M.SerializeLogin;
    if logins != [] {
      var rest := LoginMessages(logins[1..]);
      LoginPackets(ids, logins[1..]);
      assert LoginMessages(logins)[1..] == rest;
      assert PacketsOf(ids, LoginMessages(logins)) ==
             [Packet(S_LOGIN, M.SerializeLogin(logins[0]))] + PacketsOf(ids, rest);
    }
  }

  /** Written logins parse, so none of them stops the client. */
  lemma {:induction false} LoginsParse(types: map<nat, Parser>, logins: seq<M.SLogin>)
    requires S_LOGIN in types && types[S_LOGIN] == SLogin
    requires forall i | 0 <= i < |logins| :: GoodLogin(logins[i])
    ensures AllParse(types, PacketsOf(types.Keys, LoginMessages(logins)))
  {
    hide M.SerializeLogin, M.ParseLogin, M.LoginFits, M.LoginNameValid;
    LoginPackets(types.Keys, logins);
    var ps := PacketsOf(types.Keys, LoginMessages(logins));
    forall i | 0 <= i < |ps| ensures Parses(types, ps[i]) {
      assert GoodLogin(logins[i]);
      M.LoginRoundTripIff(logins[i]);
      assert ps[i] == Packet(S_LOGIN, M.SerializeLogin(logins[i]));
    }
  }

  lemma {:induction false} ChosenLogins(logins: seq<M.SLogin>, places: seq<nat>)
    requires Places(places, |logins|)
    ensures Chosen(LoginMessages(logins), places) == LoginMessages(Chosen(logins, places))
    ensures |LoginMessages(logins)| == |logins|
  {
    hide M.SerializeLogin;
    LoginAt(logins);
    ChosenAt(LoginMessages(logins), places);
    ChosenAt(logins, places);
    LoginAt(Chosen(logins, places));
  }

  lemma {:induction false} LoginAt(logins: seq<M.SLogin>)
    ensures |LoginMessages(logins)| == |logins|
    ensures forall i | 0 <= i < |logins| :: LoginMessages(logins)[i] == Message(S_LOGIN, M.SerializeLogin(logins[i]))
  {
    hide M.SerializeLogin;
    if logins != [] {
      LoginAt(logins[1..]);
    }
  }

  /**
   From the server's S_Login objects to what the game pops: through C++ writer, frames, any schedule of the server's
   threads, any cut in which each read's later frames are nothing but headers, packet queue and C# reader. The logins
   that come out are the first of those at the kept places: what a refused WSASend threw away is missing, and only that.
   */
  lemma {:induction false} LoginsReachTheGame(types: map<nat, Parser>, actions: seq<SS.Action>,
                                              logins: seq<M.SLogin>, chunks: seq<bytes>, steps: seq<QueueStep>)
    requires ServerSent(types, actions, LoginMessages(logins), chunks)
    requires forall i | 0 <= i < |logins| :: GoodLogin(logins[i])
    requires 1 in types && types[1] == SLogin && Fits([], chunks)
    requires FrontOnlyReads(types.Keys, [], chunks)
    requires Readable(types, [], chunks) && PushedIn(steps) == ReadAll(types, [], chunks).queued
    ensures var after, kept := QueueAfter(QueueRun([], [], []), steps), KeptPlaces(actions);
            && Places(kept, |logins|) && |after.popped| <= |kept|
            && (AllBrought(actions, chunks) ==> |after.popped| + |after.items| == |kept|)
            && (NoneRefused(actions) ==> kept == SS.Range(0, |kept|)) && (AllTaken(actions) ==> |kept| == |logins|)
            && forall i | 0 <= i < |after.popped| ::
                 && after.popped[i].protocol == 1
                 && M.ParseLogin(M.NO_LOGIN, after.popped[i].body, CSharp) == Some(logins[kept[i]])
  {
    hide M.SerializeLogin, M.ParseLogin, M.LoginFits, M.LoginNameValid, AllParse, FrontOnlyReads, Framed, FitSegments;
    hide ReadAll, Readable, PushedIn, SS.Run;
    var kept := KeptPlaces(actions);
    ServerBrings(types, actions, LoginMessages(logins), chunks);
    LoginAt(logins);
    ChosenLogins(logins, kept);
    ChosenAt(logins, kept);
    var chosen := Chosen(logins, kept);
    LoginsParse(types, chosen);
    GameGets(types, LoginMessages(chosen), chunks, steps);
    LoginPackets(types.Keys, chosen);
    var after := QueueAfter(QueueRun([], [], []), steps);
    forall i | 0 <= i < |after.popped|
      ensures after.popped[i].protocol == 1
      ensures M.ParseLogin(M.NO_LOGIN, after.popped[i].body, CSharp) == Some(logins[kept[i]])
    {
      assert after.popped[i] == PacketsOf(types.Keys, LoginMessages(chosen))[i];
      assert GoodLogin(chosen[i]);
      M.LoginRoundTripIff(chosen[i]);
    }
  }

  /** The size that the two casts to uint16 leave for a message of n bytes. */
  function CastSize(n: nat): nat {
    (n % 0x1_0000 + MESSAGE_HEADER) % 0x1_0000
  }

  /**
   The server's MakeSendBuffer for S_Login, with its two casts to uint16: one array, header and serialized message, no
   overlapping writes. From 65536 bytes on the cast shortens the size, the serializer refuses the short buffer, and
   what is left is a frame of the shortened size whose payload was never written. None where the sum wraps around: then
   the array is too short even for the header, which is written past its end.
   */
  method MakeSendBuffer(pkt: O.SLogin, pktId: nat) returns (buf: Option<array<byte>>)
    requires M.LoginFits(pkt.Value()) && pktId <= MAX_FRAME
    modifies pkt`cachedSize, (if pkt.playerInfo == null then {} else {pkt.playerInfo})`cachedSize
    ensures buf.None? <==> |M.SerializeLogin(pkt.Value())| % 0x1_0000 > MAX_FRAME - MESSAGE_HEADER
    ensures buf.Some? ==>
              && fresh(buf.value) && IsPacket(buf.value[..]) && IdField(buf.value[..]) == pktId
              && buf.value.Length == |M.SerializeLogin(pkt.Value())| % 0x1_0000 + MESSAGE_HEADER
    ensures |M.SerializeLogin(pkt.Value())| + MESSAGE_HEADER <= MAX_FRAME ==>
              buf.Some? && buf.value[..] == FrameOf(pktId, M.SerializeLogin(pkt.Value()))
  {
    hide M.SerializeLogin, M.LoginFits, M.LoginNameValid, FrameOf, IsPacket, IdField;
    var full := pkt.ByteSizeLong();
    var dataSize := full % 0x1_0000;
    var packetSize := CastSize(full);
    if packetSize < MESSAGE_HEADER {
      return None;
    }
    var written := FillBuffer(pkt, pktId, full, dataSize, packetSize);
    buf := Some(written);
  }

  /** The part of MakeSendBuffer that writes. */
  method FillBuffer(pkt: O.SLogin, pktId: nat, full: nat, dataSize: nat, packetSize: nat) returns (buf: array<byte>)
    requires M.LoginFits(pkt.Value()) && pktId <= MAX_FRAME && full == |M.SerializeLogin(pkt.Value())|
    requires dataSize == full % 0x1_0000 && packetSize == dataSize + MESSAGE_HEADER <= MAX_FRAME
    modifies pkt`cachedSize, (if pkt.playerInfo == null then {} else {pkt.playerInfo})`cachedSize
    ensures fresh(buf) && buf.Length == packetSize && IsPacket(buf[..]) && IdField(buf[..]) == pktId
    ensures full <= MAX_FRAME ==> buf[..] == FrameOf(pktId, M.SerializeLogin(pkt.Value()))
  {
    hide M.SerializeLogin, M.LoginFits, M.LoginNameValid, Splice, FrameOf, LittleEndian16, IsPacket, IdField;
    ghost var payload := M.SerializeLogin(pkt.Value());
    buf := new byte[packetSize];
    if full <= MAX_FRAME {
      FramePieces(buf[..], pktId, payload);
      FrameRoundTrip(pktId, payload);
    }
    WriteHeader(buf, packetSize, pktId);
    var _ := pkt.SerializeToArray(buf, MESSAGE_HEADER, dataSize);
  }

  /** The two assignments through the header pointer. */
  method WriteHeader(buf: array<byte>, size: nat, id: nat)
    requires MESSAGE_HEADER <= size == buf.Length <= MAX_FRAME && id <= MAX_FRAME
    modifies buf
    ensures buf[..] == Splice(Splice(old(buf[..]), 0, LittleEndian16(size)), 2, LittleEndian16(id))
    ensures IsPacket(buf[..]) && IdField(buf[..]) == id
  {
    HeaderPieces(buf[..], id);
    WriteAt(buf, 0, LittleEndian16(size));
    WriteAt(buf, 2, LittleEndian16(id));
  }

  lemma FramePieces(was: bytes, id: nat, payload: bytes)
    requires |was| == |payload| + MESSAGE_HEADER
    ensures Splice(Splice(Splice(was, 0, LittleEndian16(|was|)), 2, LittleEndian16(id)), 4, payload)
         == FrameOf(id, payload)
  {
    SpliceTwice(was, 0, LittleEndian16(|was|), LittleEndian16(id));
    SpliceTwice(was, 0, LittleEndian16(|was|) + LittleEndian16(id), payload);
  }

  /** The header alone makes a packet of whatever stands in the buffer. */
  lemma HeaderPieces(was: bytes, id: nat)
    requires MESSAGE_HEADER <= |was| <= MAX_FRAME && id <= MAX_FRAME
    ensures var now := Splice(Splice(was, 0, LittleEndian16(|was|)), 2, LittleEndian16(id));
            IsPacket(now) && IdField(now) == id
  {
  }

  // ---------------------------------------------------------------------------------------------
  // The calls of a client that plays a stone, and of a receiver that reads the stream
  // ---------------------------------------------------------------------------------------------

  /** PacketHandler.Make_C_PlayStone: the size the message computes is the size of what it serializes to. */
  method MakeCPlayStone(helper: SendBufferHelper, t: nat, stoneInfo: O.StoneInfo?) returns (segment: Segment)
    requires helper.Valid()
    modifies helper, helper.chunks, helper.Arrays()
    ensures helper.Valid() && helper.Grew() && helper.published == old(helper.published) + [segment]
    ensures segment.InArray()
    ensures segment.Contents() == FrameOf(7, M.SerializePlay(Play(old(StoneOf(stoneInfo)))))
    ensures segment.Contents()[..4] == [segment.count, 0, 7, 0]
    ensures forall s | s in old(helper.published) :: s.InArray() && s.Contents() == old(s.Contents())
  {
    hide FrameOf, M.SerializePlay;
    var payload, size := SerializeStone(stoneInfo);
    var made := MakeMessage(helper, t, payload, size, C_PLAY_STONE);
    segment := made.value;
    SmallHeader(7, payload);
  }

  /** The two halves of the call: the size that MakeMessage is told, and the bytes that it copies. */
  method SerializeStone(stoneInfo: O.StoneInfo?) returns (payload: bytes, size: nat)
    ensures payload == M.SerializePlay(Play(StoneOf(stoneInfo))) && size == |payload| <= 25
  {
    var pkt := new O.CPlayStone(stoneInfo);
    size := pkt.CalculateSize();
    payload := pkt.ToByteArray();
  }

  function Play(stone: Option<M.StoneInfo>): M.CPlayStone {
    M.CPlayStone(stone)
  }

  function StoneOf(stone: O.StoneInfo?): Option<M.StoneInfo>
    reads stone
  {
    if stone == null then None else Some(stone.Value())
  }

  /** The session's lists hold segments of this arena, and its receive buffer is not part of it. */
  ghost predicate SendsFrom(session: Session, helper: SendBufferHelper)
    reads session, helper, helper.chunks
  {
    && (forall s | s in session.sendQueue + session.pendingList :: s in helper.published)
    && session.recvBuffer.buffer !in helper.Arrays()
  }

  lemma OutsideArena(helper: SendBufferHelper, buf: array<byte>, segment: Segment)
    requires helper.Valid() && segment in helper.published && buf !in helper.Arrays()
    ensures segment.buf != buf
  {
    var j :| 0 <= j < |helper.published| && helper.published[j] == segment;
    assert helper.owners[j].buffer in helper.Arrays();
  }

  /**
   NetworkManager.Send of any freshly made message: the arena writes it next to segments that still wait in the
   session, and the session's history gains exactly the new frame. When making it throws, the session is as before.
   */
  method SendMessage(session: Session, helper: SendBufferHelper, t: nat, payload: bytes, size: nat, id: nat, o: Outcome)
      returns (ok: bool)
    requires session.Valid() && helper.Valid() && SendsFrom(session, helper)
    requires size == |payload| % 0x1_0000 && id <= MAX_FRAME
    modifies helper, helper.chunks, helper.Arrays()
    modifies session`sendQueue, session`pendingList, session`disconnected, session`core
    ensures session.Valid() && helper.Valid() && SendsFrom(session, helper)
    ensures ok <==> |payload| + 4 <= old(helper.Room(t, 4096))
    ensures |payload| <= 4092 ==> ok
    ensures session.core == if ok then SendNow(old(session.core), [FrameOf(id, payload)], o) else old(session.core)
  {
    hide FrameOf, SendNow;
    var segment := MakeMessage(helper, t, payload, size, id);
    ok := segment.Some?;
    if !ok {
      return;
    }
    OutsideArena(helper, session.recvBuffer.buffer, segment.value);
    ghost var contents := session.Send([segment.value], o);
    assert contents == [[segment.value][0].Contents()];
  }

  /** UI_Game's call for a played stone. */
  method SendStone(session: Session, helper: SendBufferHelper, t: nat, stoneInfo: O.StoneInfo?, o: Outcome)
    requires session.Valid() && helper.Valid() && SendsFrom(session, helper)
    modifies helper, helper.chunks, helper.Arrays()
    modifies session`sendQueue, session`pendingList, session`disconnected, session`core
    ensures session.Valid() && helper.Valid() && SendsFrom(session, helper)
    ensures session.core ==
            SendNow(old(session.core), [FrameOf(7, M.SerializePlay(Play(old(StoneOf(stoneInfo)))))], o)
  {
    hide FrameOf, SendNow, M.SerializePlay;
    var payload, size := SerializeStone(stoneInfo);
    var _ := SendMessage(session, helper, t, payload, size, C_PLAY_STONE, o);
  }

  /**
   A fresh client to which a network brings some of what the server transmitted has received the first of the messages
   that WSASend took. It still has a read posted, with room for at least one byte, exactly when all bodies parsed and
   the connection did not close.
   */
  method ReceiveStream(receiver: Session, chunks: seq<bytes>, closes: bool, ghost actions: seq<SS.Action>,
                       ghost ms: seq<Message>)
    requires receiver.Valid() && !receiver.disconnected && !receiver.posted
    requires receiver.received == [] && receiver.recvBuffer.Unread() == []
    requires ServerSent(receiver.manager.makeFunc, actions, ms, chunks)
    modifies receiver, receiver.recvBuffer, receiver.recvBuffer.buffer, receiver.queue
    ensures receiver.Valid() && AllPackets(receiver.received)
    ensures Unframed(receiver.received) <= Chosen(ms, KeptPlaces(actions))
    ensures receiver.posted <==> BodiesParse(receiver.manager.makeFunc, chunks) && !closes
    ensures receiver.recvBuffer.readPos == 0
    ensures BodiesParse(receiver.manager.makeFunc, chunks) ==> receiver.recvBuffer.FreeSize() > 0
    ensures BodiesParse(receiver.manager.makeFunc, chunks) && AllBrought(actions, chunks) ==>
              Unframed(receiver.received) == Chosen(ms, KeptPlaces(actions)) && receiver.recvBuffer.Unread() == []
  {
    hide ReadAll, Readable, BodiesParse, FitSegments, Frames, WellFormed, AllPackets, SS.Run, Chosen;
    ghost var types := receiver.manager.makeFunc;
    MessagesArrive(types, actions, ms, chunks);
    RoomAfter(types, chunks);
    receiver.RegisterRecv(chunks, closes);
    assert [] + ReadAll(types, [], chunks).frames == ReadAll(types, [], chunks).frames;
  }

  lemma {:induction false} RoomAfter(types: map<nat, Parser>, chunks: seq<bytes>)
    requires Readable(types, [], chunks)
    ensures BodiesParse(types, chunks) ==> |ReadAll(types, [], chunks).unread| < CAPACITY
  {
    if BodiesParse(types, chunks) {
      ReadsOnIff(types, [], chunks);
      AlwaysRoom([], chunks);
    }
  }
}
