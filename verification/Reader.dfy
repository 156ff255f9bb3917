/** The runtime's cursor-moving primitives: tags, lengths, skipped fields, written records. */
module Reader {
  import opened Bytes
  import opened Varint
  import opened Wire

  method ReadTagAt(b: bytes, p: nat, d: Dialect) returns (r: Option<(uint32, nat)>)
    requires p <= |b|
    ensures r.Some? <==> ReadTag(b[p..], d).Some?
    ensures r.Some? ==> p < r.value.1 <= |b| && ReadTag(b[p..], d) == Some((r.value.0, b[r.value.1..]))
  {
    if d.CSharp? {
      r := ReadVarint32(b, p);
      return;
    }
    var scan := AddGroups(b, p, 5, TWO32);
    match scan {
      case Ended(tag, next) => r := Some((tag, next));
      case Ongoing(_) => TooManyGroups(b[p..], 5); r := None;
      case Malformed => AllContinuing(b[p..], 5); r := None;
    }
  }

  /** The two varint reads consume the same bytes; the narrow one keeps the low 32 bits. */
  lemma Read32IsLow(b: bytes)
    ensures Read32(b).Some? <==> Read64(b).Some?
    ensures Read32(b).Some? ==> Read32(b) == Some((Read64(b).value.0 % TWO32, Read64(b).value.1))
  {
    if Groups(b, MAX_GROUPS).Some? {
      var v := Groups(b, MAX_GROUPS).value.0;
      assert v == v % TWO64 + TWO32 * (TWO32 * (v / TWO64));
      ModShift(v % TWO64, TWO32 * (v / TWO64), TWO32);
    }
  }

  lemma {:induction false} PartialBound(s: bytes, k: nat)
    requires k <= |s| && forall j | 0 <= j < k :: s[j] >= 128
    ensures Partial(s, k) < Pow128(k)
  {
    if k > 0 {
      PartialBound(s, k - 1);
      var g: int := s[k - 1] - 128;
      assert g * Pow128(k - 1) <= 127 * Pow128(k - 1) by {
        Nonnegative(127 - g, Pow128(k - 1));
        Distribute(Pow128(k - 1), 127 - g, g);
      }
    }
  }

  /** The C++ runtime reads four groups as any varint, then takes a fifth byte only if it keeps the sign clear. */
  method ReadSizeCpp(b: bytes, p: nat) returns (r: Option<(nat, nat)>)
    requires p <= |b|
    ensures r.Some? <==> ReadSize(b[p..], Cpp).Some?
    ensures r.Some? ==> p < r.value.1 <= |b| && ReadSize(b[p..], Cpp) == Some((r.value.0, b[r.value.1..]))
  {
    var scan := AddGroups(b, p, 4, TWO32);
    ghost var s := b[p..];
    match scan {
      case Malformed => AllContinuing(s, 5); r := None;
      case Ended(size, next) =>
        GroupsLenient(s, 4, 5);
        FourGroupsAreSmall(s);
        r := Some((size, next));
      case Ongoing(res) =>
        if p + 4 == |b| {
          AllContinuing(s, 5);
          return None;
        }
        var byte: int := b[p + 4];
        assert s[4] == byte && b[p + 5..] == s[5..];
        FifthByte(s, res);
        if byte >= 8 {
          return None;
        }
        var size := (res + (byte - 1) * 0x1000_0000) % TWO32;
        if size > MAX_BLOCK {
          return None;
        }
        r := Some((size, p + 5));
    }
  }

  lemma Pow128Of4()
    ensures Pow128(4) == 0x1000_0000
  {
    Pow128Values();
    assert Pow128(5) == 128 * Pow128(4);
  }

  /** What the fifth byte of a length makes of the sum of the first four groups. */
  lemma FifthByte(s: bytes, res: int)
    requires |s| > 4 && forall j | 0 <= j < 4 :: s[j] >= 128
    requires res == (Partial(s, 4) + Pow128(4)) % TWO32
    ensures s[4] >= 8 ==> ReadSize(s, Cpp).None?
    ensures s[4] < 8 ==> Groups(s, 5) == Some(((res + (s[4] as int - 1) * 0x1000_0000) % TWO32, s[5..]))
  {
    hide Groups, Partial, Pow128;
    Pow128Of4();
    PartialBound(s, 4);
    if s[4] >= 128 {
      TooManyGroups(s, 5);
    } else {
      GroupsEndAt(s, 4, 5);
      FifthGroup(Partial(s, 4), s[4], res);
    }
  }

  lemma FifthGroup(sum: nat, byte: int, res: int)
    requires sum < 0x1000_0000 && 0 <= byte < 128 && res == (sum + 0x1000_0000) % TWO32
    ensures byte >= 8 ==> sum + byte * 0x1000_0000 > MAX_BLOCK
    ensures byte < 8 ==> sum + byte * 0x1000_0000 == (res + (byte - 1) * 0x1000_0000) % TWO32
  {
    if byte < 8 {
      SmallMod(sum + 0x1000_0000, TWO32);
      SmallMod(sum + byte * 0x1000_0000, TWO32);
    }
  }

  lemma {:induction false} GroupsBelow(s: bytes, limit: nat)
    requires Groups(s, limit).Some?
    ensures Groups(s, limit).value.0 < Pow128(limit)
    decreases limit
  {
    if s[0] >= 128 {
      GroupsBelow(s[1..], limit - 1);
    }
  }

  lemma FourGroupsAreSmall(s: bytes)
    requires Groups(s, 4).Some?
    ensures Groups(s, 4).value.0 < 0x1000_0000 <= MAX_BLOCK
  {
    GroupsBelow(s, 4);
    Pow128Of4();
  }

  method ReadSizeAt(b: bytes, p: nat, d: Dialect) returns (r: Option<(nat, nat)>)
    requires p <= |b|
    ensures r.Some? <==> ReadSize(b[p..], d).Some?
    ensures r.Some? ==> p < r.value.1 <= |b| && ReadSize(b[p..], d) == Some((r.value.0, b[r.value.1..]))
  {
    if d.Cpp? {
      r := ReadSizeCpp(b, p);
    } else {
      r := ReadVarint32(b, p);
      if r.Some? && r.value.0 > INT_MAX {
        r := None;
      }
    }
  }

  /** A length-delimited value: its bytes, cut out of the buffer, and the cursor after it. */
  method ReadBlockAt(b: bytes, p: nat, tag: nat, d: Dialect) returns (r: Option<(bytes, nat)>)
    requires p <= |b| && tag % 8 == 2
    ensures r.Some? <==> ReadPayload(b[p..], tag, d).Some?
    ensures r.Some? ==>
              p < r.value.1 <= |b| && ReadPayload(b[p..], tag, d) == Some((Block(r.value.0), b[r.value.1..]))
  {
    var size := ReadSizeAt(b, p, d);
    if size.None? || size.value.0 > |b| - size.value.1 {
      return None;
    }
    var (n, q) := size.value;
    assert b[q..][..n] == b[q..q + n] && b[q..][n..] == b[q + n..];
    r := Some((b[q..q + n], q + n));
  }

  /** UnknownFieldParse: steps over a field that the message does not declare. */
  method SkipField(b: bytes, p: nat, tag: uint32, d: Dialect) returns (r: Option<nat>)
    requires p <= |b|
    ensures r.Some? <==> tag / 8 != 0 && ReadPayload(b[p..], tag, d).Some?
    ensures r.Some? ==> p <= r.value <= |b| && ReadPayload(b[p..], tag, d).value.1 == b[r.value..]
    decreases |b| - p, 1
  {
    hide SkipGroup;
    if tag / 8 == 0 {
      return None;
    }
    if tag % 8 == 0 {
      var v := ReadVarint64(b, p);
      r := if v.Some? then Some(v.value.1) else None;
    } else if tag % 8 == 2 {
      var v := ReadBlockAt(b, p, tag, d);
      r := if v.Some? then Some(v.value.1) else None;
    } else if tag % 8 == 3 {
      r := SkipGroupAt(b, p, tag / 8, d);
    } else if tag % 8 == 1 || tag % 8 == 5 {
      var n := if tag % 8 == 1 then 8 else 4;
      if |b| - p < n {
        return None;
      }
      assert b[p..][n..] == b[p + n..];
      r := Some(p + n);
    } else {
      r := None;
    }
  }

  /** The records of an undeclared group, up to its end tag. */
  method SkipGroupAt(b: bytes, p: nat, field: nat, d: Dialect) returns (r: Option<nat>)
    requires p <= |b|
    ensures r.Some? <==> SkipGroup(b[p..], field, d).Some?
    ensures r.Some? ==> p < r.value <= |b| && SkipGroup(b[p..], field, d) == Some(b[r.value..])
    decreases |b| - p, 0
  {
    hide ReadPayload, ReadTag;
    var q := p;
    while true
      invariant p <= q <= |b| && SkipGroup(b[p..], field, d) == SkipGroup(b[q..], field, d)
      decreases |b| - q
    {
      var t := ReadTagAt(b, q, d);
      if t.None? || t.value.0 / 8 == 0 {
        return None;
      }
      var (tag, q') := t.value;
      if tag % 8 == 4 {
        return if tag / 8 == field then Some(q') else None;
      }
      var next := SkipField(b, q', tag, d);
      if next.None? {
        return None;
      }
      q := next.value;
    }
  }

  // The branches of a parse loop: the tag was read at p, the cursor is at q

  method NumberField(b: bytes, p: nat, q: nat, tag: uint32, d: Dialect) returns (r: Option<(uint64, nat)>)
    requires p < q <= |b| && ReadTag(b[p..], d) == Some((tag, b[q..]))
    requires tag / 8 != 0 && tag % 8 == 0
    ensures r.None? ==> ReadRecord(b[p..], d).None?
    ensures r.Some? ==> p < r.value.1 <= |b|
    ensures r.Some? ==> ReadRecord(b[p..], d) == Some((Record(tag, Number(r.value.0)), b[r.value.1..]))
  {
    r := ReadVarint64(b, q);
  }

  method UInt32Field(b: bytes, p: nat, q: nat, tag: uint32, d: Dialect)
    returns (r: Option<(uint32, nat)>, ghost full: uint64)
    requires p < q <= |b| && ReadTag(b[p..], d) == Some((tag, b[q..]))
    requires tag / 8 != 0 && tag % 8 == 0
    ensures r.None? ==> ReadRecord(b[p..], d).None?
    ensures r.Some? ==> p < r.value.1 <= |b| && r.value.0 == full % TWO32
    ensures r.Some? ==> ReadRecord(b[p..], d) == Some((Record(tag, Number(full)), b[r.value.1..]))
  {
    Read32IsLow(b[q..]);
    full := if Read64(b[q..]).Some? then Read64(b[q..]).value.0 else 0;
    r := ReadVarint32(b, q);
  }

  method BlockField(b: bytes, p: nat, q: nat, tag: uint32, d: Dialect) returns (r: Option<(bytes, nat)>)
    requires p < q <= |b| && ReadTag(b[p..], d) == Some((tag, b[q..]))
    requires tag / 8 != 0 && tag % 8 == 2
    ensures r.None? ==> ReadRecord(b[p..], d).None?
    ensures r.Some? ==> p < r.value.1 <= |b|
    ensures r.Some? ==> ReadRecord(b[p..], d) == Some((Record(tag, Block(r.value.0)), b[r.value.1..]))
  {
    r := ReadBlockAt(b, q, tag, d);
  }

  /** The handle_unusual part of a parse loop, reached at cursor q after reading `tag` at p. */
  method HandleUnusual(b: bytes, p: nat, q: nat, tag: uint32, d: Dialect) returns (r: Option<nat>)
    requires p < q <= |b| && ReadTag(b[p..], d) == Some((tag, b[q..]))
    ensures r.Some? <==> ReadRecord(b[p..], d).Some?
    ensures r.Some? ==> p < r.value <= |b|
    ensures r.Some? ==> ReadRecord(b[p..], d).value.0.tag == tag && ReadRecord(b[p..], d).value.1 == b[r.value..]
  {
    if tag == 0 || tag % 8 == 4 {
      return None;
    }
    r := SkipField(b, q, tag, d);
  }

  // ---------------------------------------------------------------------------------------------
  // Writing into a target array
  // ---------------------------------------------------------------------------------------------

  method WriteBytes(x: bytes, target: array<byte>, at: nat) returns (next: nat)
    requires at + |x| <= target.Length
    modifies target
    ensures next == at + |x| && target[..] == Splice(old(target[..]), at, x)
  {
    forall i | 0 <= i < |x| {
      target[at + i] := x[i];
    }
    next := at + |x|;
  }

  method WriteNumber(tag: uint32, n: nat, target: array<byte>, at: nat) returns (next: nat)
    requires at + |Encode(tag)| + |Encode(n)| <= target.Length
    modifies target
    ensures next == at + |Encode(tag)| + |Encode(n)|
    ensures target[..] == Splice(old(target[..]), at, Encode(tag) + Encode(n))
  {
    ghost var was := target[..];
    next := WriteVarint(tag, target, at);
    next := WriteVarint(n, target, next);
    SpliceTwice(was, at, Encode(tag), Encode(n));
  }

  method WriteBlock(tag: uint32, b: bytes, target: array<byte>, at: nat) returns (next: nat)
    requires |b| < TWO64 && at + |Encode(tag)| + |Encode(|b|)| + |b| <= target.Length
    modifies target
    ensures next == at + |Encode(tag)| + |Encode(|b|)| + |b|
    ensures target[..] == Splice(old(target[..]), at, Encode(tag) + (Encode(|b|) + b))
  {
    ghost var was := target[..];
    next := WriteNumber(tag, |b|, target, at);
    next := WriteBytes(b, target, next);
    SpliceTwice(was, at, Encode(tag) + Encode(|b|), b);
    assert Encode(tag) + Encode(|b|) + b == Encode(tag) + (Encode(|b|) + b);
  }

  /** Tag and value, or tag, length and bytes. */
  method WriteRecord(r: Record, target: array<byte>, at: nat) returns (next: nat)
    requires !r.payload.Fixed? && Emittable(r) && at + |Emit(r)| <= target.Length
    modifies target
    ensures next == at + |Emit(r)| && target[..] == Splice(old(target[..]), at, Emit(r))
  {
    match r.payload {
      case Number(n) => next := WriteNumber(r.tag, n, target, at);
      case Block(b) => next := WriteBlock(r.tag, b, target, at);
    }
  }

  /** The body of `if (field is not the default) { write it }`. */
  method WriteWhen(present: bool, r: Record, target: array<byte>, at: nat, ghost was: bytes, ghost start: nat,
                   ghost done: seq<Record>) returns (next: nat)
    requires start + |EmitAll(done)| == at && at <= target.Length == |was|
    requires target[..] == Splice(was, start, EmitAll(done))
    requires start + |EmitAll(done + When(present, r))| <= target.Length
    requires present ==> !r.payload.Fixed? && Emittable(r)
    modifies target
    ensures next == start + |EmitAll(done + When(present, r))| <= target.Length
    ensures target[..] == Splice(was, start, EmitAll(done + When(present, r)))
  {
    next := at;
    if present {
      EmitAllAppend(done, [r]);
      assert EmitAll([r]) == Emit(r) + EmitAll([]);
      next := WriteRecord(r, target, at);
      SpliceTwice(was, start, EmitAll(done), Emit(r));
    } else {
      assert done + [] == done;
    }
  }
}
