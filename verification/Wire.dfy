/**
 The wire format of messages: tagged records (Protocol Buffers Encoding, sections "Message Structure" and
 "Length-Delimited Records"), the read loop that every generated parser runs, and its laws for any message type.
 */
module Wire {
  import opened Bytes
  import opened Varint

  const INT_MAX := 0x7FFF_FFFF
  const SLOP_BYTES := 16
  const MAX_BLOCK := INT_MAX - SLOP_BYTES

  /** The two runtimes differ in how long a tag or a length they accept. */
  datatype Dialect = Cpp | CSharp

  /** A group is kept as the bytes between its two tags and the closing tag: no message here declares one. */
  datatype Payload = Number(n: uint64) | Fixed(raw: bytes) | Block(b: bytes) | Group(skipped: bytes)
  datatype Record = Record(tag: uint32, payload: Payload)

  function TagLimit(d: Dialect): nat {
    if d.Cpp? then 5 else MAX_GROUPS
  }

  function ReadTag(b: bytes, d: Dialect): (r: Option<(uint32, bytes)>)
    ensures r.Some? ==> |r.value.1| < |b|
  {
    match Groups(b, TagLimit(d))
    case None => None
    case Some((v, rest)) => Some((v % TWO32, rest))
  }

  /** A length: the C++ runtime takes five bytes and leaves room for its slop region, C# a nonnegative int32. */
  function ReadSize(b: bytes, d: Dialect): (r: Option<(nat, bytes)>)
    ensures r.Some? ==> |r.value.1| < |b|
  {
    match Groups(b, TagLimit(d))
    case None => None
    case Some((v, rest)) =>
      if d.Cpp? then (if v <= MAX_BLOCK then Some((v, rest)) else None)
      else (if v % TWO32 <= INT_MAX then Some((v % TWO32, rest)) else None)
  }

  /** What follows a tag, by its wire type; a stray end of group and the unknown wire types are malformed. */
  function ReadPayload(b: bytes, tag: nat, d: Dialect): (r: Option<(Payload, bytes)>)
    ensures r.Some? ==> |r.value.1| <= |b|
    decreases |b|, 1
  {
    if tag % 8 == 0 then
      match Read64(b)
      case None => None
      case Some((v, rest)) => Some((Number(v), rest))
    else if tag % 8 == 1 then
      if |b| < 8 then None else Some((Fixed(b[..8]), b[8..]))
    else if tag % 8 == 2 then
      match ReadSize(b, d)
      case None => None
      case Some((n, rest)) => if n <= |rest| then Some((Block(rest[..n]), rest[n..])) else None
    else if tag % 8 == 3 then
      match SkipGroup(b, tag / 8, d)
      case None => None
      case Some(rest) => Some((Group(b[..|b| - |rest|]), rest))
    else if tag % 8 == 5 then
      if |b| < 4 then None else Some((Fixed(b[..4]), b[4..]))
    else None
  }

  /** Steps over the records of a group, nested groups included, up to the end tag of the same field number. */
  function SkipGroup(b: bytes, field: nat, d: Dialect): (r: Option<bytes>)
    ensures r.Some? ==> |r.value| < |b|
    decreases |b|, 0
  {
    match ReadTag(b, d)
    case None => None
    case Some((tag, rest)) =>
      if tag / 8 == 0 then None
      else if tag % 8 == 4 then
        if tag / 8 == field then Some(rest) else None
      else
        match ReadPayload(rest, tag, d)
        case None => None
        case Some((_, rest')) => SkipGroup(rest', field, d)
  }

  function ReadRecord(b: bytes, d: Dialect): (r: Option<(Record, bytes)>)
    ensures r.Some? ==> |r.value.1| < |b|
  {
    match ReadTag(b, d)
    case None => None
    case Some((tag, rest)) =>
      if tag / 8 == 0 then None
      else
        match ReadPayload(rest, tag, d)
        case None => None
        case Some((payload, rest')) => Some((Record(tag, payload), rest'))
  }

  /** The loop of every generated reader, over the message-specific treatment of one record. */
  function ParseLoop<M>(apply: (M, Record) -> Option<M>, acc: M, b: bytes, d: Dialect): Option<M>
    decreases |b|
  {
    if b == [] then Some(acc)
    else
      match ReadRecord(b, d)
      case None => None
      case Some((r, rest)) =>
        match apply(acc, r)
        case None => None
        case Some(acc') => ParseLoop(apply, acc', rest, d)
  }

  function Fold<M>(apply: (M, Record) -> Option<M>, acc: M, rs: seq<Record>): Option<M> {
    if rs == [] then Some(acc)
    else
      match apply(acc, rs[0])
      case None => None
      case Some(acc') => Fold(apply, acc', rs[1..])
  }

  // ---------------------------------------------------------------------------------------------
  // Writing
  // ---------------------------------------------------------------------------------------------

  function Emit(r: Record): (b: bytes)
    ensures b != []
  {
    Encode(r.tag) + match r.payload
                    case Number(n) => Encode(n)
                    case Fixed(raw) => raw
                    case Block(b) => Encode(|b|) + b
                    case Group(raw) => raw
  }

  function EmitAll(rs: seq<Record>): bytes {
    if rs == [] then [] else Emit(rs[0]) + EmitAll(rs[1..])
  }

  /** A field that is written only when it is present or not the default. */
  function When(present: bool, r: Record): seq<Record> {
    if present then [r] else []
  }

  /** The tag announces the payload that follows it. */
  predicate Emittable(r: Record) {
    && r.tag / 8 != 0
    && match r.payload
       case Number(_) => r.tag % 8 == 0
       case Fixed(raw) => (r.tag % 8 == 1 && |raw| == 8) || (r.tag % 8 == 5 && |raw| == 4)
       case Block(b) => r.tag % 8 == 2 && |b| <= MAX_BLOCK
       case Group(_) => false
  }

  lemma {:induction false} EmitAllAppend(a: seq<Record>, b: seq<Record>)
    ensures EmitAll(a + b) == EmitAll(a) + EmitAll(b)
  {
    if a == [] {
      assert a + b == b;
    } else {
      assert (a + b)[1..] == a[1..] + b;
      EmitAllAppend(a[1..], b);
      assert Emit(a[0]) + (EmitAll(a[1..]) + EmitAll(b)) == (Emit(a[0]) + EmitAll(a[1..])) + EmitAll(b);
    }
  }

  lemma ReadTagOfEncode(tag: uint32, d: Dialect, rest: bytes)
    ensures ReadTag(Encode(tag) + rest, d) == Some((tag, rest))
  {
    assert tag < Pow128(TagLimit(d)) by { Pow128Values(); }
    GroupsOfEncode(tag, TagLimit(d), rest);
    SmallMod(tag, TWO32);
  }

  lemma ReadSizeOfEncode(n: nat, d: Dialect, rest: bytes)
    requires n <= MAX_BLOCK
    ensures ReadSize(Encode(n) + rest, d) == Some((n, rest))
  {
    assert n < Pow128(TagLimit(d)) by { Pow128Values(); }
    GroupsOfEncode(n, TagLimit(d), rest);
    SmallMod(n, TWO32);
  }

  /** Tags take at most five bytes in C++ and ten in C#. */
  lemma TagsIff(b: bytes)
    ensures ReadTag(b, Cpp).Some? <==> exists k :: 0 <= k < 5 && k < |b| && b[k] < 128
    ensures ReadTag(b, CSharp).Some? <==> exists k :: 0 <= k < 10 && k < |b| && b[k] < 128
  {
    GroupsIff(b, 5);
    GroupsIff(b, 10);
  }

  /** The longest length that C++ takes leaves 16 bytes below the largest int32; C# takes every nonnegative int32. */
  lemma LengthLimits(n: uint32, rest: bytes)
    ensures ReadSize(Encode(n) + rest, Cpp) == if n <= 2147483631 then Some((n, rest)) else None
    ensures ReadSize(Encode(n) + rest, CSharp) == if n <= 2147483647 then Some((n, rest)) else None
  {
    assert n < Pow128(5) && n < Pow128(MAX_GROUPS) by { Pow128Values(); }
    GroupsOfEncode(n, 5, rest);
    GroupsOfEncode(n, MAX_GROUPS, rest);
    SmallMod(n, TWO32);
  }

  /** Either reader gets back one written record and stops right after it. */
  lemma ReadRecordOfEmit(r: Record, d: Dialect, rest: bytes)
    requires Emittable(r)
    ensures ReadRecord(Emit(r) + rest, d) == Some((r, rest))
  {
    match r.payload {
      case Number(n) =>
        assert Emit(r) + rest == Encode(r.tag) + (Encode(n) + rest);
        ReadTagOfEncode(r.tag, d, Encode(n) + rest);
        ReadsOfEncode(n, rest);
      case Fixed(raw) =>
        assert Emit(r) + rest == Encode(r.tag) + (raw + rest);
        ReadTagOfEncode(r.tag, d, raw + rest);
      case Block(b) =>
        assert Emit(r) + rest == Encode(r.tag) + (Encode(|b|) + (b + rest));
        ReadTagOfEncode(r.tag, d, Encode(|b|) + (b + rest));
        ReadSizeOfEncode(|b|, d, b + rest);
        assert (b + rest)[..|b|] == b && (b + rest)[|b|..] == rest;
    }
  }

  /** Reading a written message is applying its records one by one. */
  lemma {:induction false} ParseOfEmit<M>(apply: (M, Record) -> Option<M>, acc: M, rs: seq<Record>, d: Dialect)
    requires forall i | 0 <= i < |rs| :: Emittable(rs[i])
    ensures ParseLoop(apply, acc, EmitAll(rs), d) == Fold(apply, acc, rs)
  {
    if rs != [] {
      ReadRecordOfEmit(rs[0], d, EmitAll(rs[1..]));
      var step := apply(acc, rs[0]);
      if step.Some? {
        ParseOfEmit(apply, step.value, rs[1..], d);
      }
    }
  }

  // ---------------------------------------------------------------------------------------------
  // Concatenation
  // ---------------------------------------------------------------------------------------------

  lemma {:induction false} ReadPayloadExtend(b: bytes, tag: nat, d: Dialect, more: bytes)
    requires ReadPayload(b, tag, d).Some?
    ensures ReadPayload(b + more, tag, d) ==
            Some((ReadPayload(b, tag, d).value.0, ReadPayload(b, tag, d).value.1 + more))
    decreases |b|, 1
  {
    hide Groups, SkipGroup;
    if tag % 8 == 0 {
      GroupsExtend(b, MAX_GROUPS, more);
    } else if tag % 8 == 2 {
      GroupsExtend(b, TagLimit(d), more);
      var (n, body) := ReadSize(b, d).value;
      Cut(body, n, more);
    } else if tag % 8 == 3 {
      SkipGroupExtend(b, tag / 8, d, more);
      Cut(b, |b| - |SkipGroup(b, tag / 8, d).value|, more);
    } else {
      Cut(b, if tag % 8 == 1 then 8 else 4, more);
    }
  }

  lemma {:induction false} SkipGroupExtend(b: bytes, field: nat, d: Dialect, more: bytes)
    requires SkipGroup(b, field, d).Some?
    ensures SkipGroup(b + more, field, d) == Some(SkipGroup(b, field, d).value + more)
    decreases |b|, 0
  {
    GroupsExtend(b, TagLimit(d), more);
    var (tag, rest) := ReadTag(b, d).value;
    if tag % 8 != 4 {
      ReadPayloadExtend(rest, tag, d, more);
      SkipGroupExtend(ReadPayload(rest, tag, d).value.1, field, d, more);
    }
  }

  lemma Cut(b: bytes, n: nat, more: bytes)
    requires n <= |b|
    ensures (b + more)[..n] == b[..n] && (b + more)[n..] == b[n..] + more
  {
  }

  lemma ReadRecordExtend(b: bytes, d: Dialect, more: bytes)
    requires ReadRecord(b, d).Some?
    ensures ReadRecord(b + more, d) == Some((ReadRecord(b, d).value.0, ReadRecord(b, d).value.1 + more))
  {
    GroupsExtend(b, TagLimit(d), more);
    var (tag, rest) := ReadTag(b, d).value;
    ReadPayloadExtend(rest, tag, d, more);
  }

  /** Numbers of a fixed width: a 64-bit field takes eight bytes behind its tag, a 32-bit field four. */
  lemma FixedWidths(field: nat, raw: bytes, rest: bytes, d: Dialect)
    requires 1 <= field < 16
    ensures |raw| == 8 ==>
              ReadRecord([8 * field + 1] + raw + rest, d) == Some((Record(8 * field + 1, Fixed(raw)), rest))
    ensures |raw| == 4 ==>
              ReadRecord([8 * field + 5] + raw + rest, d) == Some((Record(8 * field + 5, Fixed(raw)), rest))
  {
    hide ReadRecord;
    if |raw| == 8 {
      ReadRecordOfEmit(Record(8 * field + 1, Fixed(raw)), d, rest);
      assert Emit(Record(8 * field + 1, Fixed(raw))) == [8 * field + 1] + raw;
    }
    if |raw| == 4 {
      ReadRecordOfEmit(Record(8 * field + 5, Fixed(raw)), d, rest);
      assert Emit(Record(8 * field + 5, Fixed(raw))) == [8 * field + 5] + raw;
    }
  }

  /** A record that was cut off is refused, wherever the cut is. */
  lemma CutRecordIsRefused(r: Record, d: Dialect, b: bytes)
    requires Emittable(r) && b < Emit(r)
    ensures ReadRecord(b, d) == None
  {
    hide Emit, ReadRecord;
    var more := Emit(r)[|b|..];
    assert b + more == Emit(r) + [];
    ReadRecordOfEmit(r, d, []);
    if ReadRecord(b, d).Some? {
      ReadRecordExtend(b, d, more);
    }
  }

  /** Reading `a + b` is reading `a`, then going on with `b` from there, for every two byte strings. */
  lemma {:induction false} ParseConcat<M>(apply: (M, Record) -> Option<M>, acc: M, a: bytes, b: bytes, d: Dialect)
    requires ParseLoop(apply, acc, a, d).Some?
    ensures ParseLoop(apply, acc, a + b, d) == ParseLoop(apply, ParseLoop(apply, acc, a, d).value, b, d)
    decreases |a|
  {
    if a == [] {
      assert a + b == b;
    } else {
      ReadRecordExtend(a, d, b);
      var (r, rest) := ReadRecord(a, d).value;
      ParseConcat(apply, apply(acc, r).value, rest, b, d);
    }
  }

  // ---------------------------------------------------------------------------------------------
  // The two dialects
  // ---------------------------------------------------------------------------------------------

  /** A payload that C++ reads, C# reads the same. */
  lemma {:induction false} ReadPayloadLenient(b: bytes, tag: nat)
    requires ReadPayload(b, tag, Cpp).Some?
    ensures ReadPayload(b, tag, CSharp) == ReadPayload(b, tag, Cpp)
    decreases |b|, 1
  {
    hide Groups, SkipGroup;
    if tag % 8 == 2 {
      GroupsLenient(b, 5, MAX_GROUPS);
      SmallMod(ReadSize(b, Cpp).value.0, TWO32);
    } else if tag % 8 == 3 {
      SkipGroupLenient(b, tag / 8);
    }
  }

  lemma {:induction false} SkipGroupLenient(b: bytes, field: nat)
    requires SkipGroup(b, field, Cpp).Some?
    ensures SkipGroup(b, field, CSharp) == SkipGroup(b, field, Cpp)
    decreases |b|, 0
  {
    GroupsLenient(b, 5, MAX_GROUPS);
    var (tag, rest) := ReadTag(b, Cpp).value;
    if tag % 8 != 4 {
      ReadPayloadLenient(rest, tag);
      SkipGroupLenient(ReadPayload(rest, tag, Cpp).value.1, field);
    }
  }

  lemma ReadRecordLenient(b: bytes)
    requires ReadRecord(b, Cpp).Some?
    ensures ReadRecord(b, CSharp) == ReadRecord(b, Cpp)
  {
    GroupsLenient(b, 5, MAX_GROUPS);
    var (tag, rest) := ReadTag(b, Cpp).value;
    ReadPayloadLenient(rest, tag);
  }

  /** A stricter reader's result is the lenient reader's result. */
  lemma {:induction false} ParseLenient<M(!new)>(strict: (M, Record) -> Option<M>, lenient: (M, Record) -> Option<M>,
                                                 acc: M, b: bytes)
    requires forall x: M, r: Record | strict(x, r).Some? :: lenient(x, r) == strict(x, r)
    requires ParseLoop(strict, acc, b, Cpp).Some?
    ensures ParseLoop(lenient, acc, b, CSharp) == ParseLoop(strict, acc, b, Cpp)
    decreases |b|
  {
    if b != [] {
      ReadRecordLenient(b);
      var (r, rest) := ReadRecord(b, Cpp).value;
      ParseLenient(strict, lenient, strict(acc, r).value, rest);
    }
  }

  lemma {:induction false} ParseExtensional<M(!new)>(f: (M, Record) -> Option<M>, g: (M, Record) -> Option<M>,
                                                     acc: M, b: bytes, d: Dialect)
    requires forall x: M, r: Record :: f(x, r) == g(x, r)
    ensures ParseLoop(f, acc, b, d) == ParseLoop(g, acc, b, d)
    decreases |b|
  {
    if b != [] && ReadRecord(b, d).Some? {
      var (r, rest) := ReadRecord(b, d).value;
      if f(acc, r).Some? {
        ParseExtensional(f, g, f(acc, r).value, rest, d);
      }
    }
  }

  /** The payload holds no length, and its groups no tag or length, that is too long for the strict reader. */
  predicate PayloadFits(b: bytes, tag: nat)
    decreases |b|, 1
  {
    && (tag % 8 == 2 ==> ReadSize(b, Cpp).Some?)
    && (tag % 8 == 3 ==> GroupFits(b))
  }

  predicate GroupFits(b: bytes)
    decreases |b|, 0
  {
    ReadTag(b, CSharp).Some? ==>
      var (tag, rest) := ReadTag(b, CSharp).value;
      && Groups(b, 5).Some?
      && (tag % 8 != 4 ==>
            && PayloadFits(rest, tag)
            && (ReadPayload(rest, tag, CSharp).Some? ==> GroupFits(ReadPayload(rest, tag, CSharp).value.1)))
  }

  /** Every tag and every length that the lenient reader meets is one that the strict reader takes. */
  predicate HeadersFit(b: bytes)
    decreases |b|
  {
    b != [] && ReadRecord(b, CSharp).Some? ==>
      && Groups(b, 5).Some?
      && PayloadFits(ReadTag(b, CSharp).value.1, ReadTag(b, CSharp).value.0)
      && HeadersFit(ReadRecord(b, CSharp).value.1)
  }

  lemma {:induction false} PayloadFitsIff(b: bytes, tag: nat)
    requires ReadPayload(b, tag, CSharp).Some?
    ensures ReadPayload(b, tag, Cpp).Some? <==> PayloadFits(b, tag)
    decreases |b|, 1
  {
    if tag % 8 == 2 {
      if Groups(b, 5).Some? {
        GroupsLenient(b, 5, MAX_GROUPS);
        if ReadSize(b, Cpp).Some? { SmallMod(ReadSize(b, Cpp).value.0, TWO32); }
      }
    } else if tag % 8 == 3 {
      GroupFitsIff(b, tag / 8);
    }
  }

  lemma {:induction false} GroupFitsIff(b: bytes, field: nat)
    requires SkipGroup(b, field, CSharp).Some?
    ensures SkipGroup(b, field, Cpp).Some? <==> GroupFits(b)
    decreases |b|, 0
  {
    if Groups(b, 5).Some? {
      GroupsLenient(b, 5, MAX_GROUPS);
      var (tag, rest) := ReadTag(b, CSharp).value;
      if tag % 8 != 4 {
        PayloadFitsIff(rest, tag);
        if ReadPayload(rest, tag, Cpp).Some? { ReadPayloadLenient(rest, tag); }
        GroupFitsIff(ReadPayload(rest, tag, CSharp).value.1, field);
      }
    }
  }

  lemma RecordFitsIff(b: bytes)
    requires ReadRecord(b, CSharp).Some?
    ensures ReadRecord(b, Cpp).Some? <==>
            Groups(b, 5).Some? && PayloadFits(ReadTag(b, CSharp).value.1, ReadTag(b, CSharp).value.0)
    ensures ReadRecord(b, Cpp).Some? ==> ReadRecord(b, Cpp) == ReadRecord(b, CSharp)
  {
    if Groups(b, 5).Some? {
      GroupsLenient(b, 5, MAX_GROUPS);
      PayloadFitsIff(ReadTag(b, CSharp).value.1, ReadTag(b, CSharp).value.0);
    }
    if ReadRecord(b, Cpp).Some? { ReadRecordLenient(b); }
  }

  /** Every record that the lenient reader meets passes the test. */
  predicate RecordsOk(ok: Record -> bool, b: bytes)
    decreases |b|
  {
    b != [] && ReadRecord(b, CSharp).Some? ==>
      ok(ReadRecord(b, CSharp).value.0) && RecordsOk(ok, ReadRecord(b, CSharp).value.1)
  }

  /**
   Where C# accepts, C++ reads the same exactly when no tag or length is longer than C++ takes and every record is one
   that the C++ message takes; otherwise C++ refuses.
   */
  lemma {:induction false} ReadersAgreeIff<M(!new)>(strict: (M, Record) -> Option<M>, ok: Record -> bool,
                                                    lenient: (M, Record) -> Option<M>, acc: M, b: bytes)
    requires forall x: M, r: Record | lenient(x, r).Some? :: strict(x, r) == if ok(r) then lenient(x, r) else None
    requires ParseLoop(lenient, acc, b, CSharp).Some?
    ensures ParseLoop(strict, acc, b, Cpp) ==
            if HeadersFit(b) && RecordsOk(ok, b) then ParseLoop(lenient, acc, b, CSharp) else None
    decreases |b|
  {
    if b != [] {
      var (r, rest) := ReadRecord(b, CSharp).value;
      RecordFitsIff(b);
      ReadersAgreeIff(strict, ok, lenient, lenient(acc, r).value, rest);
    }
  }

  /** Where C# accepts, C++ accepts too exactly when no tag or length is longer than it takes. */
  lemma {:induction false} StrictAcceptsIff<M>(apply: (M, Record) -> Option<M>, acc: M, b: bytes)
    requires ParseLoop(apply, acc, b, CSharp).Some?
    ensures ParseLoop(apply, acc, b, Cpp).Some? <==> HeadersFit(b)
    decreases |b|
  {
    if b != [] {
      var (r, rest) := ReadRecord(b, CSharp).value;
      RecordFitsIff(b);
      StrictAcceptsIff(apply, apply(acc, r).value, rest);
    }
  }

  // ---------------------------------------------------------------------------------------------
  // Order of fields
  // ---------------------------------------------------------------------------------------------

  function Elements(rs: seq<Record>): set<Record> {
    set r | r in rs
  }

  /** Names the instances of Commute that a proof wants. */
  ghost predicate Pair<M>(x: M, r: Record, q: Record) { true }

  /** Records whose effects do not fail and do not depend on their order. */
  ghost predicate Commute<M(!new)>(apply: (M, Record) -> Option<M>, ok: set<Record>) {
    forall x: M, r: Record, q: Record {:trigger Pair(x, r, q)} | r in ok && q in ok ::
      Pair(x, r, q) ==>
        && apply(x, r).Some? && apply(x, q).Some?
        && apply(apply(x, r).value, q) == apply(apply(x, q).value, r)
        && apply(apply(x, r).value, q).Some?
  }

  lemma {:induction false} FoldCons<M>(apply: (M, Record) -> Option<M>, acc: M, r: Record, rest: seq<Record>)
    requires apply(acc, r).Some?
    ensures Fold(apply, acc, [r] + rest) == Fold(apply, apply(acc, r).value, rest)
  {
    assert ([r] + rest)[1..] == rest;
  }

  lemma {:induction false} FoldMoveToFront<M(!new)>(apply: (M, Record) -> Option<M>, acc: M, ok: set<Record>,
                                                    pre: seq<Record>, r: Record, post: seq<Record>)
    requires Commute(apply, ok) && r in ok
    requires forall i | 0 <= i < |pre| :: pre[i] in ok
    ensures Fold(apply, acc, pre + ([r] + post)) == Fold(apply, acc, [r] + (pre + post))
    decreases |pre|
  {
    if pre == [] {
      assert pre + ([r] + post) == [r] + (pre + post);
    } else {
      var p, tail := pre[0], pre[1..];
      assert Pair(acc, p, r);
      assert pre + ([r] + post) == [p] + (tail + ([r] + post));
      assert pre + post == [p] + (tail + post);
      FoldCons(apply, acc, p, tail + ([r] + post));
      FoldMoveToFront(apply, apply(acc, p).value, ok, tail, r, post);
      FoldCons(apply, apply(acc, p).value, r, tail + post);
      FoldCons(apply, acc, r, pre + post);
      FoldCons(apply, apply(acc, r).value, p, tail + post);
    }
  }

  /** Taking one record out of a list, wherever it stands. */
  lemma {:induction false} SplitAround(r: Record, rest: seq<Record>, qs: seq<Record>)
      returns (pre: seq<Record>, post: seq<Record>)
    requires multiset([r] + rest) == multiset(qs)
    ensures qs == pre + ([r] + post)
    ensures multiset(rest) == multiset(pre + post)
  {
    assert r in multiset([r] + rest);
    var k :| 0 <= k < |qs| && qs[k] == r;
    pre, post := qs[..k], qs[k + 1..];
    assert qs == pre + ([r] + post);
    assert multiset(qs) == multiset(pre) + multiset([r] + post);
    assert multiset([r] + post) == multiset{r} + multiset(post);
    assert multiset([r] + rest) == multiset{r} + multiset(rest);
    Cancel(multiset{r}, multiset(rest), multiset(pre) + multiset(post));
  }

  lemma Cancel(a: multiset<Record>, x: multiset<Record>, y: multiset<Record>)
    requires a + x == a + y
    ensures x == y
  {
    assert x == (a + x) - a == (a + y) - a == y;
  }

  /** Any order of the same records gives the same message. */
  lemma {:induction false} FoldPermutation<M(!new)>(apply: (M, Record) -> Option<M>, acc: M, ok: set<Record>,
                                                    rs: seq<Record>, qs: seq<Record>)
    requires multiset(rs) == multiset(qs) && Commute(apply, ok)
    requires forall i | 0 <= i < |rs| :: rs[i] in ok
    ensures Fold(apply, acc, rs) == Fold(apply, acc, qs)
    decreases |rs|
  {
    if rs == [] {
      assert |multiset(qs)| == |qs|;
    } else {
      var r, rest := rs[0], rs[1..];
      assert rs == [r] + rest;
      var pre, post := SplitAround(r, rest, qs);
      forall i | 0 <= i < |pre| ensures pre[i] in ok {
        assert pre[i] == (pre + post)[i] && (pre + post)[i] in multiset(rest);
        assert pre[i] in rest;
      }
      FoldMoveToFront(apply, acc, ok, pre, r, post);
      assert Pair(acc, r, r);
      FoldCons(apply, acc, r, rest);
      FoldCons(apply, acc, r, pre + post);
      FoldPermutation(apply, apply(acc, r).value, ok, rest, pre + post);
    }
  }

  // ---------------------------------------------------------------------------------------------
  // UTF-8, as the state table of the C++ runtime accepts it: no overlong forms, no surrogates
  // ---------------------------------------------------------------------------------------------

  predicate Continues(b: bytes, i: nat) {
    i < |b| && 0x80 <= b[i] < 0xC0
  }

  function Utf8Step(b: bytes): (n: nat)
    requires b != []
    ensures n <= |b|
  {
    var c := b[0];
    if c < 0x80 then 1
    else if 0xC2 <= c < 0xE0 && Continues(b, 1) then 2
    else if 0xE0 <= c < 0xF0 && Continues(b, 1) && Continues(b, 2)
            && (c == 0xE0 ==> b[1] >= 0xA0) && (c == 0xED ==> b[1] < 0xA0) then 3
    else if 0xF0 <= c < 0xF5 && Continues(b, 1) && Continues(b, 2) && Continues(b, 3)
            && (c == 0xF0 ==> b[1] >= 0x90) && (c == 0xF4 ==> b[1] < 0x90) then 4
    else 0
  }

  predicate ValidUtf8(b: bytes) {
    b == [] || (Utf8Step(b) > 0 && ValidUtf8(b[Utf8Step(b)..]))
  }
}
