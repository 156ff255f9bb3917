/**
 The send side's chunk arena: each thread cuts its messages out of a large chunk and gets a new chunk when the
 rest of the old one is too small. Segments already handed out alias the chunk that later messages are written to.
 */
module SendBuffers {
  import opened Bytes
  import opened Framing

  const CHUNK_SIZE := 65535
  const RESERVE := 4096

  datatype Segment = Segment(buf: array<byte>, offset: nat, count: nat) {
    predicate InArray() {
      offset + count <= buf.Length
    }

    function Contents(): bytes
      requires InArray()
      reads buf
    {
      buf[offset..offset + count]
    }
  }

  /** No byte belongs to both segments. */
  predicate Disjoint(s: Segment, r: Segment) {
    s.buf == r.buf ==> s.offset + s.count <= r.offset || r.offset + r.count <= s.offset
  }

  class SendBuffer {
    const buffer: array<byte>
    var usedSize: nat

    function FreeSize(): int
      reads this
    {
      buffer.Length - usedSize
    }

    constructor (chunkSize: nat)
      ensures usedSize == 0 && buffer.Length == chunkSize && fresh(buffer)
    {
      buffer := new byte[chunkSize];
      usedSize := 0;
    }

    method Open(reserveSize: nat) returns (segment: Option<Segment>)
      ensures segment == if reserveSize > FreeSize() then None else Some(Segment(buffer, usedSize, reserveSize))
    {
      if reserveSize > FreeSize() {
        return None;
      }
      segment := Some(Segment(buffer, usedSize, reserveSize));
    }

    method Close(size: nat) returns (segment: Segment)
      requires size <= FreeSize()
      modifies this`usedSize
      ensures segment == Segment(buffer, old(usedSize), size) && segment.InArray()
      ensures usedSize == old(usedSize) + size
    {
      segment := Segment(buffer, usedSize, size);
      usedSize := usedSize + size;
    }
  }

  /** The static helper: `current` holds the chunk of each thread that has one. */
  class SendBufferHelper {
    var current: map<nat, SendBuffer>

    // every chunk ever in use, every segment ever handed out, and the chunk it was cut from
    ghost var chunks: set<SendBuffer>
    ghost var published: seq<Segment>
    ghost var owners: seq<SendBuffer>

    ghost predicate Valid()
      reads this, chunks
    {
      && (forall t | t in current :: current[t] in chunks)
      && (forall t, u | t in current && u in current && t != u :: current[t] != current[u])
      && (forall c | c in chunks :: c.buffer.Length == CHUNK_SIZE && c.usedSize <= CHUNK_SIZE)
      && (forall c, d | c in chunks && d in chunks && c != d :: c.buffer != d.buffer)
      && |owners| == |published|
      && (forall i | 0 <= i < |published| ::
            && owners[i] in chunks && published[i].buf == owners[i].buffer
            && published[i].offset + published[i].count <= owners[i].usedSize)
      && (forall i, j | 0 <= i < j < |published| :: Disjoint(published[i], published[j]))
    }

    /** The arrays behind the chunks. */
    ghost function Arrays(): set<object>
      reads this
    {
      set c | c in chunks :: c.buffer
    }

    constructor ()
      ensures Valid() && published == [] && chunks == {} && current == map[]
    {
      current, chunks, published, owners := map[], {}, [], [];
    }

    /** The chunks in use only grow, and the new ones are new objects. */
    twostate predicate Grew()
      reads this, chunks
    {
      old(chunks) <= chunks && forall c | c in chunks && c !in old(chunks) :: fresh(c) && fresh(c.buffer)
    }

    /** A fresh chunk for thread t; the old one stays where its segments are. */
    method Renew(t: nat)
      requires Valid()
      modifies this`current, this`chunks
      ensures Valid() && Grew() && t in current && current == old(current)[t := current[t]]
      ensures fresh(current[t]) && fresh(current[t].buffer) && current[t].FreeSize() == 65535
    {
      var chunk := new SendBuffer(CHUNK_SIZE);
      current := current[t := chunk];
      chunks := chunks + {chunk};
    }

    /** The free size that thread t finds when it opens its chunk, or a fresh one when the rest is too small. */
    ghost function Room(t: nat, reserveSize: nat): int
      reads this, chunks
      requires Valid()
    {
      if t in current && current[t].FreeSize() >= reserveSize then current[t].FreeSize() else 65535
    }

    method Open(t: nat, reserveSize: nat) returns (segment: Option<Segment>)
      requires Valid()
      modifies this`current, this`chunks
      ensures Valid() && Grew() && t in current && current == old(current)[t := current[t]]
      ensures !fresh(current[t]) ==> t in old(current) && current[t] == old(current)[t]
      ensures fresh(current[t]) ==> fresh(current[t].buffer)
      ensures segment.None? <==> reserveSize > 65535
      ensures current[t].FreeSize() == old(Room(t, reserveSize))
      ensures segment.Some? ==> segment.value == Segment(current[t].buffer, current[t].usedSize, reserveSize) &&
                                segment.value.InArray()
    {
      if t !in current {
        Renew(t);
      }
      if current[t].FreeSize() < reserveSize {
        Renew(t);
      }
      segment := current[t].Open(reserveSize);
    }

    /** Whatever was cut out of the current chunk lies before its free part. */
    lemma PublishedBehind(t: nat, segment: Segment)
      requires Valid() && t in current && segment in published && segment.buf == current[t].buffer
      ensures segment.offset + segment.count <= current[t].usedSize
    {
      var i :| 0 <= i < |published| && published[i] == segment;
      assert owners[i] == current[t];
    }

    method Close(t: nat, size: nat) returns (segment: Segment)
      requires Valid() && t in current && size <= current[t].FreeSize()
      modifies this`published, this`owners, (current[t] as SendBuffer)`usedSize
      ensures Valid() && segment.InArray()
      ensures segment == Segment(current[t].buffer, old(current[t].usedSize), size)
      ensures published == old(published) + [segment]
    {
      segment := current[t].Close(size);
      published := published + [segment];
      owners := owners + [current[t]];
    }
  }

  /** TryWriteBytes of a 32-bit integer. */
  function LittleEndian32(n: nat): (b: bytes)
    ensures |b| == 4
    ensures n <= MAX_FRAME ==> b[..2] == LittleEndian16(n)
  {
    [n % 256, n / 256 % 256, n / 0x1_0000 % 256, n / 0x100_0000 % 256]
  }

  method WriteAt(buf: array<byte>, at: nat, x: bytes)
    requires at + |x| <= buf.Length
    modifies buf
    ensures buf[..] == Splice(old(buf[..]), at, x)
  {
    forall i | 0 <= i < |x| {
      buf[at + i] := x[i];
    }
  }

  /** The header is written as a four-byte size whose upper half the id then overwrites. */
  lemma HeaderOverwrite(was: bytes, at: nat, id: nat, payload: bytes)
    requires at + |payload| + MESSAGE_HEADER <= |was| && |payload| + MESSAGE_HEADER <= MAX_FRAME
    ensures var sized := Splice(was, at, LittleEndian32(|payload| + MESSAGE_HEADER));
            Splice(Splice(sized, at + 2, LittleEndian16(id)), at + 4, payload) == Splice(was, at, FrameOf(id, payload))
  {
    var n := |payload| + MESSAGE_HEADER;
    var one := Splice(was, at, LittleEndian32(n));
    var two := Splice(one, at + 2, LittleEndian16(id));
    assert two == Splice(was, at, LittleEndian16(n) + LittleEndian16(id));
    SpliceTwice(was, at, LittleEndian16(n) + LittleEndian16(id), payload);
  }

  /** The header and payload writes of MakeMessage; not ok where copying the payload runs past the chunk and throws. */
  method WriteFrame(buf: array<byte>, at: nat, payload: bytes, size: nat, id: nat) returns (ok: bool)
    requires size == |payload| % 0x1_0000 && id <= MAX_FRAME && at + RESERVE <= buf.Length <= CHUNK_SIZE
    modifies buf
    ensures ok <==> at + MESSAGE_HEADER + |payload| <= buf.Length
    ensures buf[..at] == old(buf[..at])
    ensures ok ==> size == |payload| && buf[at..at + |payload| + MESSAGE_HEADER] == FrameOf(id, payload)
  {
    hide FrameOf, Splice, LittleEndian16, LittleEndian32;
    ghost var was := buf[..];
    WriteAt(buf, at, LittleEndian32(size + MESSAGE_HEADER));
    WriteAt(buf, at + 2, LittleEndian16(id));
    HeaderKeepsFront(was, at, size, id);
    ok := |payload| <= buf.Length - (at + 4);
    if ok {
      WriteAt(buf, at + 4, payload);
      FrameKeepsFront(was, at, payload, id);
    }
    assert buf[..at] == buf[..][..at];
  }

  lemma HeaderKeepsFront(was: bytes, at: nat, size: nat, id: nat)
    requires at + MESSAGE_HEADER <= |was|
    ensures var sized := Splice(was, at, LittleEndian32(size + MESSAGE_HEADER));
            Splice(sized, at + 2, LittleEndian16(id))[..at] == was[..at]
  {
    hide Splice, LittleEndian16, LittleEndian32;
    var sized := Splice(was, at, LittleEndian32(size + MESSAGE_HEADER));
    SpliceParts(was, at, LittleEndian32(size + MESSAGE_HEADER), at);
    SpliceParts(sized, at + 2, LittleEndian16(id), at);
  }

  lemma FrameKeepsFront(was: bytes, at: nat, payload: bytes, id: nat)
    requires at + |payload| + MESSAGE_HEADER <= |was| <= CHUNK_SIZE && id <= MAX_FRAME
    ensures var n := |payload| + MESSAGE_HEADER;
            var sized := Splice(was, at, LittleEndian32(|payload| % 0x1_0000 + MESSAGE_HEADER));
            var now := Splice(Splice(sized, at + 2, LittleEndian16(id)), at + 4, payload);
            now[..at] == was[..at] && now[at..at + n] == FrameOf(id, payload)
  {
    hide FrameOf, Splice, LittleEndian16, LittleEndian32, IsPacket, IdField;
    HeaderOverwrite(was, at, id, payload);
    FrameRoundTrip(id, payload);
    SpliceParts(was, at, FrameOf(id, payload), at);
  }

  /** What a write leaves alone before it, and what it writes. */
  lemma SpliceParts(was: bytes, at: nat, x: bytes, n: nat)
    requires n <= at && at + |x| <= |was|
    ensures Splice(was, at, x)[..n] == was[..n] && Splice(was, at, x)[at..at + |x|] == x
  {
  }

  lemma ContentsBefore(s: Segment, at: nat)
    requires s.offset + s.count <= at <= s.buf.Length
    ensures s.Contents() == s.buf[..at][s.offset..s.offset + s.count]
  {
  }

  /**
   PacketManager.MakeMessage on thread t, for a message that was serialized to `payload`; `size` is its length cast to
   a ushort. None where the copy throws. Payloads of up to 4092 bytes stay inside the reserve; longer ones run past it,
   and are framed as well as long as the chunk has room.
   */
  method MakeMessage(helper: SendBufferHelper, t: nat, payload: bytes, size: nat, id: nat)
      returns (segment: Option<Segment>)
    requires helper.Valid() && size == |payload| % 0x1_0000 && id <= MAX_FRAME
    modifies helper, helper.chunks, helper.Arrays()
    ensures helper.Valid() && helper.Grew()
    ensures segment.Some? <==> |payload| + 4 <= old(helper.Room(t, 4096))
    ensures |payload| <= 4092 || (t !in old(helper.current) && |payload| <= 65531) ==> segment.Some?
    ensures segment.Some? ==> segment.value.InArray() && segment.value.Contents() == FrameOf(id, payload)
    ensures helper.published == old(helper.published) + if segment.Some? then [segment.value] else []
    ensures forall s | s in old(helper.published) :: s.InArray() && s.Contents() == old(s.Contents())
  {
    hide FrameOf, Splice, LittleEndian16, LittleEndian32, Disjoint;
    var room := helper.Open(t, RESERVE);
    var buf, at := room.value.buf, room.value.offset;
    ghost var before := buf[..at];
    forall s | s in helper.published && s.buf == buf
      ensures s.offset + s.count <= at && before[s.offset..s.offset + s.count] == s.Contents()
    {
      helper.PublishedBehind(t, s);
      ContentsBefore(s, at);
    }
    var ok := WriteFrame(buf, at, payload, size, id);
    forall s | s in helper.published ensures s.Contents() == old(s.Contents()) {
      if s.buf == buf { ContentsBefore(s, at); }
    }
    if !ok {
      return None;
    }
    var made := helper.Close(t, size + MESSAGE_HEADER);
    segment := Some(made);
  }
}
