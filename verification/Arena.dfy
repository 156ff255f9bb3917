/**
 The chunk arena step by step: any number of threads make messages, and a scheduler interleaves their steps, the
 opening of a segment, the three writes into it and its closing. Segments that are already published wait in sessions.
 */
module Arena {
  import opened Bytes
  import opened Framing
  import opened SendBuffers

  type Tid = nat

  type ushort = n: nat | n <= MAX_FRAME

  datatype Chunk = Chunk(data: bytes, used: nat)

  /** What a caller wants framed. */
  datatype Order = Order(id: ushort, payload: bytes) {
    function Frame(): bytes {
      FrameOf(id, payload)
    }

    function Count(): nat {
      |payload| + MESSAGE_HEADER
    }

    /** The length as MakeMessage is told it: cast to a ushort. */
    function Size(): nat {
      |payload| % 0x1_0000
    }
  }

  /** What was written last. */
  datatype Stage = Opened | Sized | Headed | Copied

  datatype Pc = Idle | Making(order: Order, chunk: nat, at: nat, stage: Stage)

  /** A published segment, and what it is to hold. */
  datatype Piece = Piece(chunk: nat, offset: nat, order: Order)

  datatype State = State(chunks: seq<Chunk>, current: map<Tid, nat>, pcs: map<Tid, Pc>, published: seq<Piece>)

  const START := State([], map[], map[], [])

  datatype Action =
    | Open(t: Tid, order: Order)  // a thread enters MakeMessage and opens a segment
    | Proceed(t: Tid)             // thread t takes its next step

  function At(s: State, t: Tid): Pc {
    if t in s.pcs then s.pcs[t] else Idle
  }

  function GoTo(s: State, t: Tid, pc: Pc): State {
    s.(pcs := s.pcs[t := pc])
  }

  /** Thread t opens at the front of the free part of this chunk. */
  function OpenIn(s: State, t: Tid, order: Order, c: nat): State
    requires c < |s.chunks|
  {
    GoTo(s.(current := s.current[t := c]), t, Making(order, c, s.chunks[c].used, Opened))
  }

  predicate HasRoom(s: State, t: Tid) {
    t in s.current && s.current[t] < |s.chunks| && s.chunks[s.current[t]].used + RESERVE <= CHUNK_SIZE
  }

  function StepOpen(s: State, t: Tid, order: Order): Option<State> {
    if At(s, t) != Idle then None
    else if HasRoom(s, t) then Some(OpenIn(s, t, order, s.current[t]))
    else
      var chunk := Chunk(seq(CHUNK_SIZE, _ => 0), 0);
      Some(OpenIn(s.(chunks := s.chunks + [chunk]), t, order, |s.chunks|))
  }

  /** Bytes written into a chunk, from position `at` on. */
  ghost function Written(s: State, c: nat, at: nat, x: bytes): State
    requires c < |s.chunks| && at + |x| <= |s.chunks[c].data|
  {
    s.(chunks := s.chunks[c := s.chunks[c].(data := Splice(s.chunks[c].data, at, x))])
  }

  ghost predicate Writable(s: State, pc: Pc) {
    pc.Making? && pc.chunk < |s.chunks| && |s.chunks[pc.chunk].data| == CHUNK_SIZE && pc.at + RESERVE <= CHUNK_SIZE
  }

  /** CopyTo throws when the chunk is too short: then nothing is published, and the thread is done. */
  ghost function StepProceed(s: State, t: Tid): Option<State> {
    var pc := At(s, t);
    if !Writable(s, pc) then None
    else
      match pc.stage
      case Opened =>
        Some(GoTo(Written(s, pc.chunk, pc.at, LittleEndian32(pc.order.Size() + MESSAGE_HEADER)),
                  t, pc.(stage := Sized)))
      case Sized => Some(GoTo(Written(s, pc.chunk, pc.at + 2, LittleEndian16(pc.order.id)), t, pc.(stage := Headed)))
      case Headed =>
        if pc.at + pc.order.Count() > CHUNK_SIZE then Some(GoTo(s, t, Idle))
        else Some(GoTo(Written(s, pc.chunk, pc.at + MESSAGE_HEADER, pc.order.payload), t, pc.(stage := Copied)))
      case Copied => Some(GoTo(Close(s, t, pc), t, Idle))
  }

  /** Close takes the segment out of the thread's current chunk, wherever that is used up to. */
  function Close(s: State, t: Tid, pc: Pc): State
    requires pc.Making?
  {
    if t !in s.current || s.current[t] >= |s.chunks| then s
    else
      var c := s.current[t];
      var chunk := s.chunks[c];
      s.(chunks := s.chunks[c := chunk.(used := chunk.used + pc.order.Size() + MESSAGE_HEADER)],
         published := s.published + [Piece(c, chunk.used, pc.order)])
  }

  ghost function Step(s: State, a: Action): Option<State> {
    match a
    case Open(t, order) => StepOpen(s, t, order)
    case Proceed(t) => StepProceed(s, t)
  }

  ghost function Run(s: State, actions: seq<Action>): Option<State>
    decreases |actions|
  {
    if actions == [] then Some(s)
    else
      match Step(s, actions[0])
      case None => None
      case Some(n) => Run(n, actions[1..])
  }

  // ---------------------------------------------------------------------------------------------
  // The invariant
  // ---------------------------------------------------------------------------------------------

  predicate GoodChunk(c: Chunk) {
    |c.data| == CHUNK_SIZE && c.used <= CHUNK_SIZE
  }

  /** Every thread has a chunk of its own. */
  predicate ChunksInv(s: State) {
    && (forall c | 0 <= c < |s.chunks| :: GoodChunk(s.chunks[c]))
    && (forall t | t in s.current :: s.current[t] < |s.chunks|)
    && (forall t, u | t in s.current && u in s.current && t != u :: s.current[t] != s.current[u])
  }

  /** What a thread has written so far, behind everything published from its chunk. */
  predicate Work(chunks: seq<Chunk>, pc: Pc)
    requires pc.Making? && pc.chunk < |chunks|
  {
    var chunk := chunks[pc.chunk];
    && |chunk.data| == CHUNK_SIZE && chunk.used == pc.at && pc.at + RESERVE <= CHUNK_SIZE
    && match pc.stage
       case Opened => true
       case Sized => chunk.data[pc.at..pc.at + 4] == LittleEndian32(pc.order.Size() + MESSAGE_HEADER)
       case Headed =>
         chunk.data[pc.at..pc.at + 4] == LittleEndian16(pc.order.Size() + MESSAGE_HEADER) + LittleEndian16(pc.order.id)
       case Copied =>
         pc.at + pc.order.Count() <= CHUNK_SIZE && chunk.data[pc.at..pc.at + pc.order.Count()] == pc.order.Frame()
  }

  predicate Working(s: State, t: Tid) {
    At(s, t).Making? ==>
      && t in s.current && s.current[t] == At(s, t).chunk && At(s, t).chunk < |s.chunks|
      && Work(s.chunks, At(s, t))
  }

  ghost predicate WorkInv(s: State) {
    forall t: Tid :: Working(s, t)
  }

  /** A published segment lies in the used part of its chunk and holds its frame. */
  predicate Holds(chunks: seq<Chunk>, p: Piece) {
    && p.chunk < |chunks| && p.offset + p.order.Count() <= chunks[p.chunk].used <= |chunks[p.chunk].data|
    && chunks[p.chunk].data[p.offset..p.offset + p.order.Count()] == p.order.Frame()
  }

  predicate Apart(p: Piece, q: Piece) {
    p.chunk == q.chunk ==> p.offset + p.order.Count() <= q.offset
  }

  predicate PublishedInv(s: State) {
    && (forall p | p in s.published :: Holds(s.chunks, p))
    && (forall i, j | 0 <= i < j < |s.published| :: Apart(s.published[i], s.published[j]))
  }

  ghost predicate Inv(s: State) {
    ChunksInv(s) && WorkInv(s) && PublishedInv(s)
  }

  /** Nothing published is touched: the chunks keep their used parts. */
  predicate Keeps(chunks: seq<Chunk>, after: seq<Chunk>) {
    && |chunks| <= |after|
    && forall c | 0 <= c < |chunks| ::
         && chunks[c].used <= after[c].used <= |after[c].data| && chunks[c].used <= |chunks[c].data|
         && after[c].data[..chunks[c].used] == chunks[c].data[..chunks[c].used]
  }

  lemma KeepsHolds(chunks: seq<Chunk>, after: seq<Chunk>, p: Piece)
    requires Keeps(chunks, after) && Holds(chunks, p)
    ensures Holds(after, p)
  {
    var n := chunks[p.chunk].used;
    assert after[p.chunk].data[..n][p.offset..p.offset + p.order.Count()] == p.order.Frame();
  }

  lemma KeepsPublished(s: State, n: State)
    requires Keeps(s.chunks, n.chunks) && n.published == s.published && PublishedInv(s)
    ensures PublishedInv(n)
  {
    hide Keeps, Holds, Apart;
    forall p | p in n.published ensures Holds(n.chunks, p) { KeepsHolds(s.chunks, n.chunks, p); }
  }

  /** The other threads' chunks are as they were. */
  lemma OthersWork(s: State, n: State, t: Tid)
    requires ChunksInv(s) && WorkInv(s) && t in n.current && |s.chunks| <= |n.chunks|
    requires n.current == s.current[t := n.current[t]] && n.pcs == s.pcs[t := At(n, t)]
    requires forall c | 0 <= c < |s.chunks| && c != n.current[t] :: n.chunks[c] == s.chunks[c]
    requires forall u | u in s.current && u != t :: s.current[u] != n.current[t]
    ensures forall u: Tid :: u != t ==> Working(n, u)
  {
    forall u: Tid | u != t ensures Working(n, u) {
      assert Working(s, u) && At(n, u) == At(s, u);
    }
  }

  /** A write of thread t, behind what its chunk has published, that brings it to the next stage. */
  lemma WriteKeepsInv(s: State, t: Tid, at: nat, x: bytes, stage: Stage)
    requires Inv(s) && Writable(s, At(s, t))
    requires var pc := At(s, t); pc.at <= at && at + |x| <= CHUNK_SIZE
    requires var pc := At(s, t); Work(Written(s, pc.chunk, at, x).chunks, pc.(stage := stage))
    ensures Inv(GoTo(Written(s, At(s, t).chunk, at, x), t, At(s, t).(stage := stage)))
  {
    var pc := At(s, t);
    assert Working(s, t);
    var n := GoTo(Written(s, pc.chunk, at, x), t, pc.(stage := stage));
    assert s.current == s.current[t := pc.chunk];
    OthersWork(s, n, t);
    SpliceParts(s.chunks[pc.chunk].data, at, x, pc.at);
    assert Working(n, t);
    assert Keeps(s.chunks, n.chunks) by {
      forall c | 0 <= c < |s.chunks|
        ensures n.chunks[c].data[..s.chunks[c].used] == s.chunks[c].data[..s.chunks[c].used]
      {
        assert GoodChunk(s.chunks[c]);
      }
    }
    KeepsPublished(s, n);
  }

  lemma SizedWork(s: State, t: Tid)
    requires Inv(s) && At(s, t).Making? && At(s, t).stage == Opened
    ensures StepProceed(s, t).Some? && Inv(StepProceed(s, t).value)
  {
    var pc := At(s, t);
    assert Working(s, t);
    var x := LittleEndian32(pc.order.Size() + MESSAGE_HEADER);
    SpliceParts(s.chunks[pc.chunk].data, pc.at, x, pc.at);
    WriteKeepsInv(s, t, pc.at, x, Sized);
  }

  /** The id overwrites the upper half of the four-byte size. */
  lemma IdOverSize(was: bytes, at: nat, size: nat, id: nat)
    requires at + 4 <= |was| && was[at..at + 4] == LittleEndian32(size)
    ensures Splice(was, at + 2, LittleEndian16(id))[at..at + 4] == LittleEndian16(size) + LittleEndian16(id)
  {
    var now := Splice(was, at + 2, LittleEndian16(id));
    assert was[at] == was[at..at + 4][0] && was[at + 1] == was[at..at + 4][1];
    assert now[at..at + 4] == [was[at], was[at + 1]] + LittleEndian16(id);
  }

  lemma HeadedWork(s: State, t: Tid)
    requires Inv(s) && At(s, t).Making? && At(s, t).stage == Sized
    ensures StepProceed(s, t).Some? && Inv(StepProceed(s, t).value)
  {
    var pc := At(s, t);
    assert Working(s, t);
    IdOverSize(s.chunks[pc.chunk].data, pc.at, pc.order.Size() + MESSAGE_HEADER, pc.order.id);
    WriteKeepsInv(s, t, pc.at + 2, LittleEndian16(pc.order.id), Headed);
  }

  lemma HeadStays(was: bytes, at: nat, x: bytes)
    requires at + 4 + |x| <= |was|
    ensures Splice(was, at + 4, x)[at..at + 4 + |x|] == was[at..at + 4] + x
  {
  }

  lemma PayloadAfterHeader(was: bytes, at: nat, order: Order)
    requires at + order.Count() <= |was| && order.Count() <= MAX_FRAME
    requires was[at..at + 4] == LittleEndian16(order.Size() + MESSAGE_HEADER) + LittleEndian16(order.id)
    ensures Splice(was, at + 4, order.payload)[at..at + order.Count()] == order.Frame()
  {
    HeadStays(was, at, order.payload);
    assert order.Size() == |order.payload|;
  }

  lemma CopiedWork(s: State, t: Tid)
    requires Inv(s) && At(s, t).Making? && At(s, t).stage == Headed
    requires At(s, t).at + At(s, t).order.Count() <= CHUNK_SIZE
    ensures StepProceed(s, t).Some? && Inv(StepProceed(s, t).value)
  {
    var pc := At(s, t);
    assert Working(s, t);
    PayloadAfterHeader(s.chunks[pc.chunk].data, pc.at, pc.order);
    WriteKeepsInv(s, t, pc.at + MESSAGE_HEADER, pc.order.payload, Copied);
  }

  /** The chunks stay, and thread t is done without having published. */
  lemma ThrowKeepsInv(s: State, t: Tid)
    requires Inv(s)
    ensures Inv(GoTo(s, t, Idle))
  {
    var n := GoTo(s, t, Idle);
    forall u: Tid ensures Working(n, u) {
      assert Working(s, u) && (u != t ==> At(n, u) == At(s, u));
    }
  }

  /** Close publishes what this thread opened and wrote, whatever the others did in between. */
  lemma CloseKeepsInv(s: State, t: Tid)
    requires Inv(s) && At(s, t).Making? && At(s, t).stage == Copied
    ensures StepProceed(s, t).Some? && Inv(StepProceed(s, t).value)
    ensures var pc := At(s, t);
            StepProceed(s, t).value.published == s.published + [Piece(pc.chunk, pc.at, pc.order)]
  {
    var pc := At(s, t);
    assert Working(s, t);
    var n := StepProceed(s, t).value;
    assert s.current == s.current[t := pc.chunk];
    OthersWork(s, n, t);
    assert Working(n, t);
    var m := s.(chunks := n.chunks);
    KeepsPublished(s, m);
    forall p | p in s.published ensures Apart(p, Piece(pc.chunk, pc.at, pc.order)) {
      assert Holds(s.chunks, p);
    }
  }

  lemma OpenKeepsInv(s: State, t: Tid, order: Order)
    requires Inv(s) && StepOpen(s, t, order).Some?
    ensures Inv(StepOpen(s, t, order).value)
  {
    var n := StepOpen(s, t, order).value;
    OthersWork(s, n, t);
    assert Working(n, t);
    KeepsPublished(s, n);
  }

  lemma StepKeepsInv(s: State, a: Action)
    requires Inv(s) && Step(s, a).Some?
    ensures Inv(Step(s, a).value) && s.published <= Step(s, a).value.published
  {
    hide Inv;
    match a {
      case Open(t, order) => OpenKeepsInv(s, t, order);
      case Proceed(t) =>
        var pc := At(s, t);
        match pc.stage {
          case Opened => SizedWork(s, t);
          case Sized => HeadedWork(s, t);
          case Headed => if pc.at + pc.order.Count() > CHUNK_SIZE { ThrowKeepsInv(s, t); } else { CopiedWork(s, t); }
          case Copied => CloseKeepsInv(s, t);
        }
    }
  }

  lemma {:induction false} RunKeepsInv(s: State, actions: seq<Action>)
    requires Inv(s) && Run(s, actions).Some?
    ensures Inv(Run(s, actions).value) && s.published <= Run(s, actions).value.published
    decreases |actions|
  {
    hide Inv, Step;
    if actions != [] {
      var n := Step(s, actions[0]).value;
      StepKeepsInv(s, actions[0]);
      RunKeepsInv(n, actions[1..]);
      PrefixTrans(s.published, n.published, Run(s, actions).value.published);
    }
  }

  /** A message in the making always goes on; it is given up exactly when it is longer than the rest of the chunk. */
  lemma GivenUpIff(s: State, t: Tid)
    requires Inv(s) && At(s, t).Making?
    ensures var pc, n := At(s, t), StepProceed(s, t);
            && n.Some? && |n.value.published| == |s.published| + (if pc.stage == Copied then 1 else 0)
            && (At(n.value, t) == Idle && n.value.published == s.published <==>
                  pc.stage == Headed && pc.at + |pc.order.payload| + 4 > 65535)
            && (At(n.value, t) == Idle && n.value.published == s.published ==> |pc.order.payload| > 4092)
  {
    hide Splice, LittleEndian32, LittleEndian16;
    assert Working(s, t);
  }

  // Where segments lie

  /** The end of the last segment published from this chunk. */
  function EndOf(published: seq<Piece>, chunk: nat): nat {
    if published == [] then 0
    else
      var last := published[|published| - 1];
      if last.chunk == chunk then last.offset + last.order.Count() else EndOf(published[..|published| - 1], chunk)
  }

  /** The segments of a chunk fill its used part without a gap behind the last one. */
  predicate UsedInv(s: State) {
    && (forall p | p in s.published :: p.chunk < |s.chunks|)
    && (forall c | 0 <= c < |s.chunks| :: s.chunks[c].used == EndOf(s.published, c))
  }

  lemma {:induction false} NothingPublished(published: seq<Piece>, chunk: nat)
    requires forall p | p in published :: p.chunk != chunk
    ensures EndOf(published, chunk) == 0
  {
    if published != [] {
      assert published[|published| - 1] in published;
      NothingPublished(published[..|published| - 1], chunk);
    }
  }

  lemma OpenKeepsUsed(s: State, t: Tid, order: Order)
    requires UsedInv(s) && StepOpen(s, t, order).Some?
    ensures UsedInv(StepOpen(s, t, order).value)
  {
    hide EndOf;
    NothingPublished(s.published, |s.chunks|);
  }

  lemma CloseKeepsUsed(s: State, t: Tid)
    requires Inv(s) && UsedInv(s) && At(s, t).Making? && At(s, t).stage == Copied
    requires StepProceed(s, t).Some?
    ensures UsedInv(StepProceed(s, t).value)
  {
    var pc, n := At(s, t), StepProceed(s, t).value;
    assert Working(s, t);
    assert n.published[..|s.published|] == s.published;
    assert forall c | 0 <= c < |n.chunks| && c != pc.chunk :: EndOf(n.published, c) == EndOf(s.published, c);
  }

  lemma StepKeepsUsed(s: State, a: Action)
    requires Inv(s) && UsedInv(s) && Step(s, a).Some?
    ensures UsedInv(Step(s, a).value)
  {
    match a {
      case Open(t, order) => OpenKeepsUsed(s, t, order);
      case Proceed(t) =>
        if At(s, t).stage == Copied {
          CloseKeepsUsed(s, t);
        } else {
          hide Inv, EndOf, Splice;
        }
    }
  }

  lemma {:induction false} RunKeepsUsed(s: State, actions: seq<Action>)
    requires Inv(s) && UsedInv(s) && Run(s, actions).Some?
    ensures UsedInv(Run(s, actions).value)
    decreases |actions|
  {
    hide Inv, UsedInv, Step;
    if actions != [] {
      StepKeepsInv(s, actions[0]);
      StepKeepsUsed(s, actions[0]);
      RunKeepsUsed(Step(s, actions[0]).value, actions[1..]);
    }
  }

  /**
   In every run: while at least 4096 bytes of its chunk are free, a thread opens right behind the last segment of that
   chunk; otherwise, and only then, it opens at the front of a new chunk.
   */
  lemma {:induction false} OpensBehindTheLast(actions: seq<Action>, t: Tid, order: Order)
    requires Run(START, actions).Some? && At(Run(START, actions).value, t) == Idle
    ensures var s := Run(START, actions).value;
            var n := Step(s, Open(t, order));
            && n.Some?
            && (t in s.current && EndOf(s.published, s.current[t]) + 4096 <= 65535 ==>
                  && At(n.value, t) == Making(order, s.current[t], EndOf(s.published, s.current[t]), Opened)
                  && n.value.chunks == s.chunks)
            && (t !in s.current || EndOf(s.published, s.current[t]) + 4096 > 65535 ==>
                  && At(n.value, t) == Making(order, |s.chunks|, 0, Opened)
                  && |n.value.chunks| == |s.chunks| + 1 && n.value.chunks[..|s.chunks|] == s.chunks)
  {
    RunKeepsInv(START, actions);
    RunKeepsUsed(START, actions);
    hide EndOf, WorkInv, PublishedInv, Run;
  }

  /** The bytes behind a published segment. */
  function Contents(s: State, p: Piece): bytes
    requires Holds(s.chunks, p)
  {
    s.chunks[p.chunk].data[p.offset..p.offset + p.order.Count()]
  }

  /**
   Under every schedule of any number of threads: every published segment holds the frame of its message, no two of
   them share a byte, and however the run goes on they keep their bytes.
   */
  lemma {:induction false} SegmentsHoldTheirFrames(actions: seq<Action>, more: seq<Action>)
    requires Run(START, actions).Some? && Run(Run(START, actions).value, more).Some?
    ensures var s, n := Run(START, actions).value, Run(Run(START, actions).value, more).value;
            && s.published <= n.published
            && forall p | p in s.published ::
                 Holds(s.chunks, p) && Holds(n.chunks, p) && Contents(n, p) == Contents(s, p) == p.order.Frame()
    ensures var s := Run(START, actions).value;
            forall i, j | 0 <= i < j < |s.published| && s.published[i].chunk == s.published[j].chunk ::
              s.published[i].offset + s.published[i].order.Count() <= s.published[j].offset
  {
    RunKeepsInv(START, actions);
    RunKeepsInv(Run(START, actions).value, more);
    var s, n := Run(START, actions).value, Run(Run(START, actions).value, more).value;
    forall p | p in s.published ensures Holds(n.chunks, p) { assert p in n.published; }
    forall i, j | 0 <= i < j < |s.published| && s.published[i].chunk == s.published[j].chunk
      ensures s.published[i].offset + s.published[i].order.Count() <= s.published[j].offset
    {
      assert Apart(s.published[i], s.published[j]);
    }
  }
}
