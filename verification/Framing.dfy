/**
 The frame format shared by both ends of a connection, `[size(2)][id(2)][payload]` with `size` counting
 the whole frame, and the meaning of the receive loop of `PacketSession.OnRecv` on a byte sequence.
 */
module Framing {
  import opened Bytes

  const HEADER_SIZE := 2
  const MESSAGE_HEADER := 4
  const MAX_FRAME := 65535

  /** BitConverter.ToUInt16 on a little-endian host. */
  function U16(lo: byte, hi: byte): (n: nat)
    ensures n <= MAX_FRAME
  {
    lo + 256 * hi
  }

  function SizeField(b: bytes): (n: nat)
    requires |b| >= HEADER_SIZE
    ensures n <= MAX_FRAME
  {
    U16(b[0], b[1])
  }

  function IdField(b: bytes): (n: nat)
    requires |b| >= MESSAGE_HEADER
    ensures n <= MAX_FRAME
  {
    U16(b[2], b[3])
  }

  /** The loop finds a whole frame at the front of what is left. */
  predicate Complete(b: bytes) {
    |b| >= HEADER_SIZE && SizeField(b) <= |b|
  }

  /** Every size field that the loop acts on covers at least the size and the id. */
  predicate WellFormed(b: bytes)
    decreases |b|
  {
    Complete(b) ==> SizeField(b) >= MESSAGE_HEADER && WellFormed(b[SizeField(b)..])
  }

  datatype Parsed = Parsed(packets: seq<bytes>, rest: bytes)

  /** What the receive loop delivers from `b`, and what it leaves for the next read. */
  function Frames(b: bytes): Parsed
    requires WellFormed(b)
    decreases |b|
  {
    if !Complete(b) then Parsed([], b)
    else
      var tail := Frames(b[SizeField(b)..]);
      Parsed([b[..SizeField(b)]] + tail.packets, tail.rest)
  }

  predicate IsPacket(p: bytes) {
    MESSAGE_HEADER <= |p| && SizeField(p) == |p|
  }

  /** The declarative meaning of parsing: `b` is some whole packets, then less than one packet. */
  ghost predicate Decomposes(b: bytes, packets: seq<bytes>, rest: bytes) {
    && Flatten(packets) + rest == b
    && (forall i | 0 <= i < |packets| :: IsPacket(packets[i]))
    && !Complete(rest)
  }

  lemma {:induction false} FramesDecompose(b: bytes)
    requires WellFormed(b)
    ensures Decomposes(b, Frames(b).packets, Frames(b).rest)
    decreases |b|
  {
    if Complete(b) {
      var n := SizeField(b);
      FramesDecompose(b[n..]);
      DecomposesCons(b[..n], b[n..], Frames(b[n..]).packets, Frames(b[n..]).rest);
      assert b[..n] + b[n..] == b;
    }
  }

  lemma DecomposesCons(p: bytes, b: bytes, packets: seq<bytes>, rest: bytes)
    requires IsPacket(p) && Decomposes(b, packets, rest)
    ensures Decomposes(p + b, [p] + packets, rest)
  {
    assert ([p] + packets)[1..] == packets;
    Assoc3(p, Flatten(packets), rest);
  }

  /** There is only one way to cut a byte sequence into packets and a residue, and the loop finds it. */
  lemma {:induction false} FramesUnique(b: bytes, packets: seq<bytes>, rest: bytes)
    requires Decomposes(b, packets, rest)
    ensures WellFormed(b) && Frames(b) == Parsed(packets, rest)
    decreases |packets|
  {
    if packets == [] {
      assert b == rest;
    } else {
      var p := packets[0];
      var after := Flatten(packets[1..]) + rest;
      assert b == p + after;
      assert b[|p|..] == after && b[..|p|] == p;
      assert SizeField(b) == SizeField(p);
      FramesUnique(after, packets[1..], rest);
    }
  }

  lemma PacketsAssoc(a: seq<bytes>, b: seq<bytes>, c: seq<bytes>)
    ensures a + (b + c) == a + b + c
  {
  }

  /** Appending an unfinished residue's missing bytes: parsing commutes with concatenation. */
  lemma {:induction false} FramesConcat(a: bytes, b: bytes)
    requires WellFormed(a + b)
    ensures WellFormed(a) && WellFormed(Frames(a).rest + b)
    ensures Frames(a + b) ==
            Parsed(Frames(a).packets + Frames(Frames(a).rest + b).packets, Frames(Frames(a).rest + b).rest)
    decreases |a|
  {
    if Complete(a) {
      var n := SizeField(a);
      assert SizeField(a + b) == n;
      assert (a + b)[n..] == a[n..] + b;
      assert (a + b)[..n] == a[..n];
      assert WellFormed(a[n..] + b);
      assert Frames(a + b) == Parsed([a[..n]] + Frames(a[n..] + b).packets, Frames(a[n..] + b).rest);
      FramesConcat(a[n..], b);
      assert WellFormed(a) && Frames(a) == Parsed([a[..n]] + Frames(a[n..]).packets, Frames(a[n..]).rest);
      hide WellFormed, Frames;
      PacketsAssoc([a[..n]], Frames(a[n..]).packets, Frames(Frames(a).rest + b).packets);
    }
  }

  /** A prefix of a well-formed stream delivers a prefix of its frames. */
  lemma FramesPrefix(a: bytes, whole: bytes)
    requires a <= whole && WellFormed(whole)
    ensures WellFormed(a) && Frames(a).packets <= Frames(whole).packets
  {
    assert whole == a + whole[|a|..];
    FramesConcat(a, whole[|a|..]);
  }

  /** The residue is shorter than one frame, hence shorter than the largest ushort. */
  lemma {:induction false} ResidueIsShort(b: bytes)
    requires WellFormed(b)
    ensures |Frames(b).rest| < MAX_FRAME
    ensures |Frames(b).rest| >= HEADER_SIZE ==> |Frames(b).rest| < SizeField(Frames(b).rest)
  {
    FramesDecompose(b);
  }

  // ---------------------------------------------------------------------------------------------
  // Termination of the receive loop, with no assumption on the bytes
  // ---------------------------------------------------------------------------------------------

  /** The loop breaks after at most n delivered frames. */
  predicate StopsWithin(b: bytes, n: nat) {
    Complete(b) ==> n > 0 && StopsWithin(b[SizeField(b)..], n - 1)
  }

  ghost predicate LoopEnds(b: bytes) {
    exists n: nat :: StopsWithin(b, n)
  }

  /** The loop meets a frame whose size field is zero. */
  predicate MeetsZeroSize(b: bytes)
    decreases |b|
  {
    Complete(b) && (SizeField(b) == 0 || MeetsZeroSize(b[SizeField(b)..]))
  }

  lemma {:induction false} ZeroSizeNeverStops(b: bytes, n: nat)
    requires MeetsZeroSize(b)
    ensures !StopsWithin(b, n)
    decreases n
  {
    if n > 0 {
      if SizeField(b) == 0 {
        assert b[0..] == b;
      }
      ZeroSizeNeverStops(b[SizeField(b)..], n - 1);
    }
  }

  lemma {:induction false} NonzeroSizesStop(b: bytes)
    requires !MeetsZeroSize(b)
    ensures StopsWithin(b, |b|)
    decreases |b|
  {
    if Complete(b) {
      var n := SizeField(b);
      NonzeroSizesStop(b[n..]);
      StopsLater(b[n..], |b| - n, |b| - 1);
    }
  }

  lemma {:induction false} StopsLater(b: bytes, m: nat, n: nat)
    requires m <= n && StopsWithin(b, m)
    ensures StopsWithin(b, n)
    decreases m
  {
    if Complete(b) {
      StopsLater(b[SizeField(b)..], m - 1, n - 1);
    }
  }

  /** The receive loop ends on exactly the buffers in which no reached size field is zero. */
  lemma ReceiveLoopEndsIff(b: bytes)
    ensures LoopEnds(b) <==> !MeetsZeroSize(b)
  {
    if MeetsZeroSize(b) {
      forall n: nat ensures !StopsWithin(b, n) { ZeroSizeNeverStops(b, n); }
    } else {
      NonzeroSizesStop(b);
      var n: nat := |b|;
      assert StopsWithin(b, n);
    }
  }

  /** Two zero bytes are enough to keep the loop spinning. */
  lemma TwoZeroBytesSpin(b: bytes, n: nat)
    requires b == [0, 0]
    ensures !StopsWithin(b, n)
  {
    ZeroSizeNeverStops(b, n);
  }

  /** Well-formed streams meet no zero size, so the loop ends on all of them. */
  lemma {:induction false} WellFormedStops(b: bytes)
    requires WellFormed(b)
    ensures !MeetsZeroSize(b) && LoopEnds(b)
    decreases |b|
  {
    if Complete(b) {
      WellFormedStops(b[SizeField(b)..]);
    }
    ReceiveLoopEndsIff(b);
  }

  // ---------------------------------------------------------------------------------------------
  // Writing frames
  // ---------------------------------------------------------------------------------------------

  function LittleEndian16(n: nat): (b: bytes)
    ensures |b| == 2
    ensures n <= MAX_FRAME ==> U16(b[0], b[1]) == n
  {
    [n % 256, n / 256 % 256]
  }

  function FrameOf(id: nat, payload: bytes): bytes {
    LittleEndian16(|payload| + MESSAGE_HEADER) + LittleEndian16(id) + payload
  }

  /** The header and the payload of a written frame are read back as they were given. */
  lemma FrameRoundTrip(id: nat, payload: bytes)
    requires id <= MAX_FRAME && |payload| + MESSAGE_HEADER <= MAX_FRAME
    ensures IsPacket(FrameOf(id, payload))
    ensures |FrameOf(id, payload)| == |payload| + MESSAGE_HEADER
    ensures IdField(FrameOf(id, payload)) == id
    ensures FrameOf(id, payload)[MESSAGE_HEADER..] == payload
  {
  }

  /** The header, byte by byte: the lower half of each number comes first. */
  lemma HeaderBytes(id: nat, payload: bytes)
    requires id <= MAX_FRAME && |payload| + 4 <= MAX_FRAME
    ensures |FrameOf(id, payload)| == |payload| + 4
    ensures FrameOf(id, payload)[0] as int + 256 * FrameOf(id, payload)[1] as int == |payload| + 4
    ensures FrameOf(id, payload)[2] as int + 256 * FrameOf(id, payload)[3] as int == id
    ensures FrameOf(id, payload)[4..] == payload
  {
  }

  lemma SmallHeader(id: nat, payload: bytes)
    requires id < 256 && |payload| + 4 < 256
    ensures FrameOf(id, payload)[..4] == [|payload| + 4, 0, id, 0] && |FrameOf(id, payload)| == |payload| + 4
  {
    HeaderBytes(id, payload);
  }

  /** A stream of whole packets is parsed into exactly those packets, nothing left over. */
  lemma StreamOfPackets(packets: seq<bytes>)
    requires forall i | 0 <= i < |packets| :: IsPacket(packets[i])
    ensures WellFormed(Flatten(packets)) && Frames(Flatten(packets)) == Parsed(packets, [])
  {
    assert Flatten(packets) + [] == Flatten(packets);
    FramesUnique(Flatten(packets), packets, []);
  }
}
