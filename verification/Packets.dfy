/** Packets: the queue between the network and the game, and the manager that makes packets from frames. */
module Packets {
  import opened Bytes
  import opened Wire
  import opened Framing
  import M = Messages

  /** A packet: the id of its frame and the bytes that its message parser is given. */
  datatype Packet = Packet(protocol: nat, body: bytes)

  // ---------------------------------------------------------------------------------------------
  // PacketQueue
  // ---------------------------------------------------------------------------------------------

  class PacketQueue {
    var items: seq<Packet>

    constructor ()
      ensures items == []
    {
      items := [];
    }

    method Push(packet: Packet)
      modifies this
      ensures items == old(items) + [packet]
    {
      items := items + [packet];
    }

    method Pop() returns (packet: Option<Packet>)
      modifies this
      ensures packet == if old(items) == [] then None else Some(old(items)[0])
      ensures items == if old(items) == [] then [] else old(items)[1..]
    {
      if |items| == 0 {
        return None;
      }
      packet := Some(items[0]);
      items := items[1..];
    }

    method PopAll() returns (list: seq<Packet>)
      modifies this
      ensures list == old(items) && items == []
    {
      list := [];
      while |items| > 0
        invariant list + items == old(items)
        decreases |items|
      {
        list := list + [items[0]];
        items := items[1..];
      }
    }
  }

  /** One critical section of some thread. */
  datatype QueueStep = Push(packet: Packet) | Pop | PopAll

  datatype QueueRun = QueueRun(pushed: seq<Packet>, popped: seq<Packet>, items: seq<Packet>)

  /** Each step does to `items` what the method of that name ensures. */
  function QueueNext(q: QueueRun, s: QueueStep): QueueRun {
    match s
    case Push(p) => QueueRun(q.pushed + [p], q.popped, q.items + [p])
    case Pop => if q.items == [] then q else QueueRun(q.pushed, q.popped + [q.items[0]], q.items[1..])
    case PopAll => QueueRun(q.pushed, q.popped + q.items, [])
  }

  function QueueAfter(q: QueueRun, steps: seq<QueueStep>): QueueRun
    decreases |steps|
  {
    if steps == [] then q else QueueAfter(QueueNext(q, steps[0]), steps[1..])
  }

  lemma StepConserves(q: QueueRun, s: QueueStep)
    requires q.popped + q.items == q.pushed
    ensures var n := QueueNext(q, s); n.popped + n.items == n.pushed
  {
    match s {
      case Push(p) => assert q.popped + (q.items + [p]) == (q.popped + q.items) + [p];
      case Pop => assert q.items != [] ==> q.items == [q.items[0]] + q.items[1..];
      case PopAll =>
    }
  }

  /** The packets pushed, in the order in which the pushers got the lock. */
  function PushedIn(steps: seq<QueueStep>): seq<Packet> {
    if steps == [] then [] else (if steps[0].Push? then [steps[0].packet] else []) + PushedIn(steps[1..])
  }

  /**
   Whatever the interleaving of producers and consumers, nothing is lost, duplicated or reordered: what was popped,
   then what waits, is what was pushed.
   */
  lemma {:induction false} PoppedThenWaiting(q: QueueRun, steps: seq<QueueStep>)
    requires q.popped + q.items == q.pushed
    ensures var r := QueueAfter(q, steps); r.popped + r.items == q.pushed + PushedIn(steps)
    decreases |steps|
  {
    if steps == [] {
      assert q.pushed + [] == q.pushed;
    } else {
      var n, first := QueueNext(q, steps[0]), if steps[0].Push? then [steps[0].packet] else [];
      assert q.pushed + first + PushedIn(steps[1..]) == q.pushed + (first + PushedIn(steps[1..]));
      assert n.pushed == q.pushed + first;
      StepConserves(q, steps[0]);
      PoppedThenWaiting(n, steps[1..]);
    }
  }

  // ---------------------------------------------------------------------------------------------
  // PacketManager
  // ---------------------------------------------------------------------------------------------

  const S_LOGIN := 1
  const S_THROW_SIGN_UP_ERROR := 3
  const S_START_GAME := 5
  const S_LEAVE_GAME := 6
  const C_PLAY_STONE := 7
  const S_PLAY_STONE := 8
  const S_CHECK_STONE := 9
  const S_THROW_RESULT := 10

  /** What a ParseFrom does not throw on. The managers and everything proved of them hold for any such parsers. */
  type Parser = bytes -> bool

  predicate SLogin(body: bytes) {
    M.ParseLogin(M.NO_LOGIN, body, CSharp).Some?
  }

  predicate SStartGame(body: bytes) {
    ParseLoop(M.CSharpStartGame, None, body, CSharp).Some?
  }

  predicate SPlayStone(body: bytes) {
    M.ParsePlay(M.NO_PLAY, body, CSharp).Some?
  }

  predicate SThrowResult(body: bytes) {
    M.ParsePlay(M.NO_PLAY, body, CSharp).Some?
  }

  /** S_ThrowSignUpError, S_LeaveGame and S_CheckStone have one enumeration or bool each. */
  predicate SScalar(body: bytes) {
    ParseLoop(M.CSharpScalar, 0, body, CSharp).Some?
  }

  /** What the client registers. */
  const CLIENT: map<nat, Parser> :=
    map[S_LOGIN := SLogin, S_THROW_SIGN_UP_ERROR := SScalar, S_START_GAME := SStartGame,
        S_LEAVE_GAME := SScalar, S_CHECK_STONE := SScalar, S_PLAY_STONE := SPlayStone,
        S_THROW_RESULT := SThrowResult]

  predicate Parses(types: map<nat, Parser>, p: Packet) {
    p.protocol in types && types[p.protocol](p.body)
  }

  predicate AllParse(types: map<nat, Parser>, ps: seq<Packet>) {
    forall i | 0 <= i < |ps| :: Parses(types, ps[i])
  }

  /** The packets made before the first one whose parser throws. */
  function Taken(types: map<nat, Parser>, ps: seq<Packet>): seq<Packet> {
    if ps == [] || !Parses(types, ps[0]) then [] else [ps[0]] + Taken(types, ps[1..])
  }

  lemma {:induction false} AllParseCons(types: map<nat, Parser>, ps: seq<Packet>)
    ensures AllParse(types, ps) <==> ps == [] || (Parses(types, ps[0]) && AllParse(types, ps[1..]))
  {
    hide Parses;
    assert forall i | 1 <= i < |ps| :: ps[i] == ps[1..][i - 1];
    assert forall i | 0 <= i < |ps| - 1 :: ps[1..][i] == ps[i + 1];
  }

  lemma {:induction false} TakenIff(types: map<nat, Parser>, ps: seq<Packet>)
    ensures AllParse(types, ps) <==> Taken(types, ps) == ps
    ensures Taken(types, ps) <= ps
  {
    hide Parses, AllParse;
    AllParseCons(types, ps);
    if ps != [] && Parses(types, ps[0]) {
      TakenIff(types, ps[1..]);
      assert ps == [ps[0]] + ps[1..];
    }
  }

  /** What comes after packets that parse is looked at; what comes after one that does not, is not. */
  lemma {:induction false} TakenAppend(types: map<nat, Parser>, a: seq<Packet>, b: seq<Packet>)
    ensures Taken(types, a + b) == if AllParse(types, a) then a + Taken(types, b) else Taken(types, a)
    ensures AllParse(types, a + b) <==> AllParse(types, a) && AllParse(types, b)
    decreases |a|
  {
    hide Parses, AllParse;
    AllParseCons(types, a);
    if a == [] {
      assert a + b == b;
    } else {
      assert (a + b)[1..] == a[1..] + b;
      AllParseCons(types, a + b);
      TakenAppend(types, a[1..], b);
      assert [a[0]] + (a[1..] + Taken(types, b)) == a + Taken(types, b);
    }
  }

  /** The packet of one frame, if its id is registered, given the whole array that the frame is a part of. */
  function Made(ids: set<nat>, arr: bytes, frame: bytes): seq<Packet>
    requires IsPacket(frame) && |frame| <= |arr|
  {
    if IdField(frame) in ids then [Packet(IdField(frame), arr[MESSAGE_HEADER..|frame|])] else []
  }

  /** What the manager would do if it parsed each frame's own payload. */
  function Intended(ids: set<nat>, frame: bytes): seq<Packet>
    requires IsPacket(frame)
  {
    if IdField(frame) in ids then [Packet(IdField(frame), frame[MESSAGE_HEADER..])] else []
  }

  predicate AllPackets(frames: seq<bytes>) {
    forall i | 0 <= i < |frames| :: IsPacket(frames[i])
  }

  predicate Within(frames: seq<bytes>, n: nat) {
    forall i | 0 <= i < |frames| :: |frames[i]| <= n
  }

  function AllMade(ids: set<nat>, arr: bytes, frames: seq<bytes>): seq<Packet>
    requires AllPackets(frames) && Within(frames, |arr|)
  {
    if frames == [] then [] else Made(ids, arr, frames[0]) + AllMade(ids, arr, frames[1..])
  }

  function AllIntended(ids: set<nat>, frames: seq<bytes>): seq<Packet>
    requires AllPackets(frames)
  {
    if frames == [] then [] else Intended(ids, frames[0]) + AllIntended(ids, frames[1..])
  }

  /** The frames that OnRecvPacket is called with: up to and including the first one whose parser throws. */
  function HandedOut(types: map<nat, Parser>, arr: bytes, frames: seq<bytes>): seq<bytes>
    requires AllPackets(frames) && Within(frames, |arr|)
  {
    if frames == [] then []
    else if !AllParse(types, Made(types.Keys, arr, frames[0])) then [frames[0]]
    else [frames[0]] + HandedOut(types, arr, frames[1..])
  }

  lemma {:induction false} HandedOutPrefix(types: map<nat, Parser>, arr: bytes, frames: seq<bytes>)
    requires AllPackets(frames) && Within(frames, |arr|)
    ensures HandedOut(types, arr, frames) <= frames
    ensures AllParse(types, AllMade(types.Keys, arr, frames)) ==> HandedOut(types, arr, frames) == frames
    decreases |frames|
  {
    hide AllParse;
    if frames != [] {
      var first, later := Made(types.Keys, arr, frames[0]), AllMade(types.Keys, arr, frames[1..]);
      TakenAppend(types, first, later);
      HandedOutPrefix(types, arr, frames[1..]);
      assert frames == [frames[0]] + frames[1..];
    }
  }

  lemma AddedOneByOne(m: map<nat, Parser>)
    ensures m[S_LOGIN := SLogin][S_THROW_SIGN_UP_ERROR := SScalar][S_START_GAME := SStartGame][S_LEAVE_GAME := SScalar]
             [S_CHECK_STONE := SScalar][S_PLAY_STONE := SPlayStone][S_THROW_RESULT := SThrowResult] == m + CLIENT
  {
  }

  class PacketManager {
    var makeFunc: map<nat, Parser>

    constructor ()
      ensures makeFunc == CLIENT && makeFunc.Keys == {1, 3, 5, 6, 8, 9, 10}
    {
      makeFunc := map[];
      new;
      Register();
    }

    /** Dictionary.Add would throw on an id that is already there. */
    method Register()
      requires makeFunc.Keys !! CLIENT.Keys
      modifies this
      ensures makeFunc == old(makeFunc) + CLIENT
    {
      hide SLogin, SScalar, SStartGame, SPlayStone, SThrowResult;
      AddedOneByOne(makeFunc);
      makeFunc := makeFunc[S_LOGIN := SLogin];
      makeFunc := makeFunc[S_THROW_SIGN_UP_ERROR := SScalar];
      makeFunc := makeFunc[S_START_GAME := SStartGame];
      makeFunc := makeFunc[S_LEAVE_GAME := SScalar];
      makeFunc := makeFunc[S_CHECK_STONE := SScalar];
      makeFunc := makeFunc[S_PLAY_STONE := SPlayStone];
      makeFunc := makeFunc[S_THROW_RESULT := SThrowResult];
    }

    /** The parser is pointed at array index 4, whatever the offset of the segment; None where it throws. */
    method MakePacket(arr: array<byte>, offset: nat, count: nat, t: Parser) returns (packet: Option<Packet>)
      requires offset + count <= arr.Length && IsPacket(arr[offset..offset + count])
      ensures packet == if t(arr[MESSAGE_HEADER..count])
                        then Some(Packet(IdField(arr[offset..offset + count]), arr[MESSAGE_HEADER..count])) else None
    {
      var cursor := 0;
      var size := U16(arr[offset], arr[offset + 1]);
      cursor := cursor + 2;
      var id := U16(arr[offset + cursor], arr[offset + cursor + 1]);
      cursor := cursor + 2;
      var body := arr[cursor..cursor + (size - cursor)];
      packet := if t(body) then Some(Packet(id, body)) else None;
    }

    /** Frames with an unregistered id are dropped; the others go to the queue unless their parser throws. */
    method OnRecvPacket(arr: array<byte>, offset: nat, count: nat, queue: PacketQueue) returns (threw: bool)
      requires offset + count <= arr.Length && IsPacket(arr[offset..offset + count])
      modifies queue
      ensures var made := Made(makeFunc.Keys, arr[..], arr[offset..offset + count]);
              queue.items == old(queue.items) + Taken(makeFunc, made) && (threw <==> !AllParse(makeFunc, made))
    {
      threw := false;
      var cursor := 2;
      var id := U16(arr[offset + cursor], arr[offset + cursor + 1]);
      if id in makeFunc {
        var packet := MakePacket(arr, offset, count, makeFunc[id]);
        if packet.None? {
          return true;
        }
        queue.Push(packet.value);
      }
    }
  }

  // ---------------------------------------------------------------------------------------------
  // When the made packet is the sent one
  // ---------------------------------------------------------------------------------------------

  /** An array in which a frame of `size` bytes stands at `offset`. */
  ghost predicate HoldsFrame(arr: bytes, offset: nat, size: nat) {
    offset + size <= |arr| && size >= MESSAGE_HEADER && IsPacket(arr[offset..offset + size])
  }

  /** MakePacket gives the parser the frame's own payload. */
  ghost predicate BodyIsPayload(arr: bytes, offset: nat, size: nat)
    requires HoldsFrame(arr, offset, size)
  {
    arr[MESSAGE_HEADER..size] == arr[offset..offset + size][MESSAGE_HEADER..]
  }

  /** MakePacket is right about a frame at `offset` whatever the bytes. */
  ghost predicate AlwaysRight(offset: nat, size: nat, length: nat) {
    forall arr: bytes | |arr| == length && HoldsFrame(arr, offset, size) :: BodyIsPayload(arr, offset, size)
  }

  /** An array with a frame at a later offset whose first payload byte differs from the byte at index 4. */
  lemma WrongArray(offset: nat, size: nat, length: nat) returns (arr: bytes)
    requires MESSAGE_HEADER < size <= MAX_FRAME && offset > 0 && offset + size <= length
    ensures |arr| == length && HoldsFrame(arr, offset, size) && !BodyIsPayload(arr, offset, size)
  {
    var blank: bytes := seq(length, i => 0);
    var header := LittleEndian16(size);
    arr := blank[offset := header[0]][offset + 1 := header[1]];
    arr := arr[offset + 4 := if arr[4] == 0 then 1 else 0];
    var frame := arr[offset..offset + size];
    assert frame[0] == header[0] && frame[1] == header[1];
    assert arr[MESSAGE_HEADER..size][0] == arr[4];
    assert frame[MESSAGE_HEADER..][0] == arr[offset + 4];
  }

  /** MakePacket is right for every content of the array exactly when the frame starts the array or has no payload. */
  lemma MakePacketRightIff(offset: nat, size: nat, length: nat)
    requires MESSAGE_HEADER <= size <= MAX_FRAME && offset + size <= length
    ensures AlwaysRight(offset, size, length) <==> offset == 0 || size == MESSAGE_HEADER
  {
    if offset > 0 && size > MESSAGE_HEADER {
      var arr := WrongArray(offset, size, length);
      assert |arr| == length && HoldsFrame(arr, offset, size) && !BodyIsPayload(arr, offset, size);
    }
  }

  /** The payloads of the registered frames agree with the array from index 4 on. */
  ghost predicate RepeatFront(ids: set<nat>, arr: bytes, frames: seq<bytes>)
    requires AllPackets(frames) && Within(frames, |arr|)
  {
    forall i | 0 <= i < |frames| && IdField(frames[i]) in ids ::
      frames[i][MESSAGE_HEADER..] == arr[MESSAGE_HEADER..|frames[i]|]
  }

  /** Frames at the front of an array, read together: each is right exactly when its payload repeats the array's. */
  lemma {:induction false} BatchRightIff(ids: set<nat>, arr: bytes, frames: seq<bytes>)
    requires AllPackets(frames) && Within(frames, |arr|)
    ensures |AllMade(ids, arr, frames)| == |AllIntended(ids, frames)|
    ensures AllMade(ids, arr, frames) == AllIntended(ids, frames) <==> RepeatFront(ids, arr, frames)
    decreases |frames|
  {
    if frames != [] {
      BatchRightIff(ids, arr, frames[1..]);
      var made, intended := AllMade(ids, arr, frames[1..]), AllIntended(ids, frames[1..]);
      SameHeadSize(Made(ids, arr, frames[0]), made, Intended(ids, frames[0]), intended);
      assert forall i | 1 <= i < |frames| :: frames[i] == frames[1..][i - 1];
      assert forall i | 0 <= i < |frames[1..]| :: frames[1..][i] == frames[i + 1];
    }
  }

  lemma {:induction false} SameHeadSize(a: seq<Packet>, b: seq<Packet>, c: seq<Packet>, d: seq<Packet>)
    requires |a| == |c|
    ensures a + b == c + d <==> a == c && b == d
  {
    if a + b == c + d {
      assert a == (a + b)[..|a|] && c == (c + d)[..|a|];
      assert b == (a + b)[|a|..] && d == (c + d)[|a|..];
    }
  }

  /** Every registered frame but the first is nothing but a header. */
  predicate FrontOnly(ids: set<nat>, frames: seq<bytes>)
    requires AllPackets(frames)
  {
    forall i | 1 <= i < |frames| && IdField(frames[i]) in ids :: |frames[i]| == MESSAGE_HEADER
  }

  /** Then the packets are right, whatever the payloads. */
  lemma FrontOnlyIsRight(ids: set<nat>, arr: bytes, frames: seq<bytes>)
    requires AllPackets(frames) && Flatten(frames) <= arr && Within(frames, |arr|) && FrontOnly(ids, frames)
    ensures RepeatFront(ids, arr, frames)
  {
    if frames != [] {
      assert frames[0] <= arr;
      assert arr[MESSAGE_HEADER..|frames[0]|] == frames[0][MESSAGE_HEADER..];
    }
  }

  /** A read that completes at most one frame makes the right packet. */
  lemma SingleFrameIsRight(ids: set<nat>, arr: bytes, frames: seq<bytes>)
    requires AllPackets(frames) && Flatten(frames) <= arr && |frames| <= 1
    ensures Within(frames, |arr|)
    ensures AllMade(ids, arr, frames) == AllIntended(ids, frames)
  {
    if |frames| == 1 {
      assert Flatten(frames) == frames[0] + Flatten(frames[1..]);
      assert frames[1..] == [] && frames[0] <= arr;
      assert arr[MESSAGE_HEADER..|frames[0]|] == frames[0][MESSAGE_HEADER..];
    }
  }

  /** Two frames in one read: the second packet carries the first frame's payload. */
  lemma SecondFrameGetsFirstPayload(ids: set<nat>, id: nat, p: bytes, q: bytes)
    requires id in ids && id <= MAX_FRAME && |p| == |q| <= MAX_FRAME - MESSAGE_HEADER
    ensures IsPacket(FrameOf(id, p)) && IsPacket(FrameOf(id, q))
    ensures AllMade(ids, FrameOf(id, p) + FrameOf(id, q), [FrameOf(id, p), FrameOf(id, q)]) ==
            [Packet(id, p), Packet(id, p)]
  {
    FrameRoundTrip(id, p);
    FrameRoundTrip(id, q);
    var f, g := FrameOf(id, p), FrameOf(id, q);
    assert (f + g)[MESSAGE_HEADER..|f|] == f[MESSAGE_HEADER..];
    assert AllMade(ids, f + g, [g]) == Made(ids, f + g, g) + AllMade(ids, f + g, []);
    assert [f, g][1..] == [g];
  }

  // ---------------------------------------------------------------------------------------------
  // When the client's receive loop ends, with no assumption on the bytes
  // ---------------------------------------------------------------------------------------------

  /**
   OnRecvPacket throws on a frame of `n` bytes at `offset`: its id lies behind the array, or the id is registered and
   the payload length n - 4 is negative or the payload does not parse. The id is read from the array even where the
   frame is too short to hold one.
   */
  predicate CallThrows(types: map<nat, Parser>, arr: bytes, offset: nat, n: nat)
    requires n <= |arr|
  {
    offset + MESSAGE_HEADER > |arr| ||
    var id := U16(arr[offset + 2], arr[offset + 3]);
    id in types && (n < MESSAGE_HEADER || !types[id](arr[MESSAGE_HEADER..n]))
  }

  /** The loop goes on after the frame at the front of `arr[offset..offset + count]`. */
  predicate GoesOn(types: map<nat, Parser>, arr: bytes, offset: nat, count: nat)
    requires offset + count <= |arr|
  {
    var left := arr[offset..offset + count];
    Complete(left) && !CallThrows(types, arr, offset, SizeField(left))
  }

  /** The loop breaks or is left by an exception after at most n frames. */
  predicate Stops(types: map<nat, Parser>, arr: bytes, offset: nat, count: nat, n: nat)
    requires offset + count <= |arr|
    decreases n
  {
    GoesOn(types, arr, offset, count) ==>
      var size := SizeField(arr[offset..offset + count]);
      n > 0 && Stops(types, arr, offset + size, count - size, n - 1)
  }

  ghost predicate LoopEnds(types: map<nat, Parser>, arr: bytes, offset: nat, count: nat)
    requires offset + count <= |arr|
  {
    exists n: nat :: Stops(types, arr, offset, count, n)
  }

  /** The loop reaches a size field of zero with an unregistered id behind it. */
  predicate Spins(types: map<nat, Parser>, arr: bytes, offset: nat, count: nat)
    requires offset + count <= |arr|
    decreases count
  {
    GoesOn(types, arr, offset, count) &&
    var size := SizeField(arr[offset..offset + count]);
    size == 0 || Spins(types, arr, offset + size, count - size)
  }

  lemma {:induction false} SpinStep(types: map<nat, Parser>, arr: bytes, offset: nat, count: nat, n: nat)
    requires offset + count <= |arr| && Spins(types, arr, offset, count)
    ensures Complete(arr[offset..offset + count])
    ensures var size := SizeField(arr[offset..offset + count]);
            && Spins(types, arr, offset + size, count - size)
            && (Stops(types, arr, offset, count, n) <==> n > 0 && Stops(types, arr, offset + size, count - size, n - 1))
  {
    hide CallThrows;
  }

  lemma {:induction false} SpinningNeverStops(types: map<nat, Parser>, arr: bytes, offset: nat, count: nat, n: nat)
    requires offset + count <= |arr| && Spins(types, arr, offset, count)
    ensures !Stops(types, arr, offset, count, n)
    decreases n
  {
    SpinStep(types, arr, offset, count, n);
    hide Spins, Stops;
    if n > 0 {
      var size := SizeField(arr[offset..offset + count]);
      SpinningNeverStops(types, arr, offset + size, count - size, n - 1);
    }
  }

  lemma {:induction false} NotSpinningStops(types: map<nat, Parser>, arr: bytes, offset: nat, count: nat, n: nat)
    requires offset + count <= |arr| && !Spins(types, arr, offset, count) && count <= n
    ensures Stops(types, arr, offset, count, n)
    decreases count
  {
    hide CallThrows;
    if GoesOn(types, arr, offset, count) {
      var size := SizeField(arr[offset..offset + count]);
      NotSpinningStops(types, arr, offset + size, count - size, n - 1);
    }
  }

  /** The client's loop ends unless it reaches a size field of zero whose id is there and unregistered. */
  lemma ClientLoopEndsIff(types: map<nat, Parser>, arr: bytes, offset: nat, count: nat)
    requires offset + count <= |arr|
    ensures LoopEnds(types, arr, offset, count) <==> !Spins(types, arr, offset, count)
  {
    hide CallThrows;
    if Spins(types, arr, offset, count) {
      forall n: nat ensures !Stops(types, arr, offset, count, n) {
        SpinningNeverStops(types, arr, offset, count, n);
      }
    } else {
      NotSpinningStops(types, arr, offset, count, count);
      assert Stops(types, arr, offset, count, count);
    }
  }

  /** At a size field of zero: the loop spins exactly when the id that stands behind it in the array is unregistered. */
  lemma ZeroSizeSpinsIff(types: map<nat, Parser>, arr: bytes, offset: nat, count: nat)
    requires offset + count <= |arr| && count >= HEADER_SIZE && SizeField(arr[offset..offset + count]) == 0
    ensures LoopEnds(types, arr, offset, count) <==>
            offset + MESSAGE_HEADER > |arr| || U16(arr[offset + 2], arr[offset + 3]) in types
  {
    ClientLoopEndsIff(types, arr, offset, count);
  }
}
