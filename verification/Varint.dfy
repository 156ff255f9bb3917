/**
 Base 128 varints (Protocol Buffers Encoding, section "Base 128 Varints"): the plain meaning as little-endian
 7-bit groups, and the code of the runtime that computes it with wrapping additions.
 */
module Varint {
  import opened Bytes

  const TWO32 := 0x1_0000_0000
  const TWO64 := 0x1_0000_0000_0000_0000
  const MAX_GROUPS := 10

  type uint32 = n: nat | n < TWO32
  type uint64 = n: nat | n < TWO64
  type int32 = n: int | -0x8000_0000 <= n < 0x8000_0000

  // ---------------------------------------------------------------------------------------------
  // Meaning
  // ---------------------------------------------------------------------------------------------

  function Encode(n: nat): (b: bytes)
    ensures b != []
  {
    if n < 128 then [n] else [128 + n % 128] + Encode(n / 128)
  }

  /** The unreduced value of the first varint of `b`, of at most `limit` groups, and the bytes after it. */
  function Groups(b: bytes, limit: nat): (r: Option<(nat, bytes)>)
    ensures r.Some? ==> |r.value.1| < |b|
    decreases limit
  {
    if limit == 0 || b == [] then None
    else if b[0] < 128 then Some((b[0], b[1..]))
    else
      match Groups(b[1..], limit - 1)
      case None => None
      case Some((v, rest)) => Some((b[0] - 128 + 128 * v, rest))
  }

  function Pow128(k: nat): (p: nat)
    ensures p >= 1
  {
    if k == 0 then 1 else 128 * Pow128(k - 1)
  }

  lemma {:induction false} Pow128Values()
    ensures Pow128(2) == 0x4000
    ensures Pow128(5) == 0x8_0000_0000
    ensures Pow128(10) == 64 * TWO64
  {
    assert Pow128(1) == 128 * Pow128(0);
    assert Pow128(2) == 128 * Pow128(1);
    assert Pow128(3) == 128 * Pow128(2);
    assert Pow128(4) == 128 * Pow128(3);
    assert Pow128(5) == 128 * Pow128(4);
    assert Pow128(6) == 128 * Pow128(5);
    assert Pow128(7) == 128 * Pow128(6);
    assert Pow128(8) == 128 * Pow128(7);
    assert Pow128(9) == 128 * Pow128(8);
    assert Pow128(10) == 128 * Pow128(9);
  }

  /** Reading what was written gives the number back and stops right after it. */
  lemma {:induction false} GroupsOfEncode(n: nat, limit: nat, rest: bytes)
    requires limit > 0 && n < Pow128(limit)
    ensures Groups(Encode(n) + rest, limit) == Some((n, rest))
    decreases limit
  {
    var b := Encode(n) + rest;
    if n < 128 {
      assert b[1..] == rest;
    } else {
      assert n / 128 < Pow128(limit - 1);
      assert b[1..] == Encode(n / 128) + rest;
      GroupsOfEncode(n / 128, limit - 1, rest);
    }
  }

  /** A complete varint does not look at what follows it. */
  lemma {:induction false} GroupsExtend(b: bytes, limit: nat, more: bytes)
    requires Groups(b, limit).Some?
    ensures Groups(b + more, limit) == Some((Groups(b, limit).value.0, Groups(b, limit).value.1 + more))
    decreases limit
  {
    assert (b + more)[1..] == b[1..] + more;
    if b[0] >= 128 {
      GroupsExtend(b[1..], limit - 1, more);
    }
  }

  /** A reader that accepts longer encodings reads the same value where the stricter one succeeds. */
  lemma {:induction false} GroupsLenient(b: bytes, limit: nat, wider: nat)
    requires limit <= wider && Groups(b, limit).Some?
    ensures Groups(b, wider) == Groups(b, limit)
    decreases limit
  {
    if b[0] >= 128 {
      GroupsLenient(b[1..], limit - 1, wider - 1);
    }
  }

  function Read64(b: bytes): Option<(uint64, bytes)> {
    match Groups(b, MAX_GROUPS)
    case None => None
    case Some((v, rest)) => Some((v % TWO64, rest))
  }

  function Read32(b: bytes): Option<(uint32, bytes)> {
    match Groups(b, MAX_GROUPS)
    case None => None
    case Some((v, rest)) => Some((v % TWO32, rest))
  }

  lemma ReadsOfEncode(n: uint64, rest: bytes)
    ensures Read64(Encode(n) + rest) == Some((n, rest))
    ensures n < TWO32 ==> Read32(Encode(n) + rest) == Some((n, rest))
  {
    assert n < Pow128(MAX_GROUPS) by { Pow128Values(); }
    GroupsOfEncode(n, MAX_GROUPS, rest);
    SmallMod(n, TWO64);
    if n < TWO32 {
      SmallMod(n, TWO32);
    }
  }

  lemma SmallMod(n: nat, m: nat)
    requires n < m
    ensures n % m == n
  {
  }

  /** A varint can be read exactly when one of its first bytes, as many as the limit allows, is its last. */
  lemma {:induction false} GroupsIff(b: bytes, limit: nat)
    ensures Groups(b, limit).Some? <==> exists k :: 0 <= k < limit && k < |b| && b[k] < 128
    decreases limit
  {
    if limit > 0 && b != [] && b[0] >= 128 {
      GroupsIff(b[1..], limit - 1);
      assert forall k | 1 <= k < |b| :: b[k] == b[1..][k - 1];
      assert forall k | 0 <= k < |b| - 1 :: b[1..][k] == b[k + 1];
    }
  }

  /** Numbers take at most ten bytes. */
  lemma ReadsIff(b: bytes)
    ensures Read64(b).Some? <==> exists k :: 0 <= k < 10 && k < |b| && b[k] < 128
    ensures Read32(b).Some? <==> exists k :: 0 <= k < 10 && k < |b| && b[k] < 128
  {
    GroupsIff(b, 10);
  }

  // ---------------------------------------------------------------------------------------------
  // Enumeration values: int32, sign-extended to 64 bits on the wire
  // ---------------------------------------------------------------------------------------------

  function EnumToWire(e: int32): uint64 {
    if e >= 0 then e else TWO64 + e
  }

  /** `static_cast<ENUM>(val)` keeps the low 32 bits as a signed number. */
  function EnumFromWire(v: uint64): int32 {
    var low := v % TWO32;
    if low < 0x8000_0000 then low else low - TWO32
  }

  lemma EnumRoundTrip(e: int32)
    ensures EnumFromWire(EnumToWire(e)) == e
  {
    if e < 0 {
      assert TWO64 + e == (TWO32 - 1) * TWO32 + (TWO32 + e);
    }
  }

  /** Of any 64-bit number the enumeration keeps the low half. */
  lemma EnumIsLowHalf(v: uint64)
    ensures (v - EnumFromWire(v)) % 0x1_0000_0000 == 0
  {
    var q, low := v / TWO32, v % TWO32;
    assert v == q * TWO32 + low;
    if low < 0x8000_0000 {
      ModShift(0, q, TWO32);
    } else {
      ModShift(0, q + 1, TWO32);
    }
  }

  // ---------------------------------------------------------------------------------------------
  // Sizes: (floor(log2(v | 1)) * 9 + 73) / 64 is the number of bytes written
  // ---------------------------------------------------------------------------------------------

  function Log2Floor(n: nat): nat
    requires n > 0
  {
    if n == 1 then 0 else 1 + Log2Floor(n / 2)
  }

  function OrOne(n: nat): (r: nat)
    ensures r > 0
  {
    if n % 2 == 0 then n + 1 else n
  }

  function VarintSize(n: nat): nat {
    (Log2Floor(OrOne(n)) * 9 + 73) / 64
  }

  lemma {:induction false} Log2Bounds(n: nat, k: nat, p: nat)
    requires 0 < n < p && p == Pow2(k)
    ensures Log2Floor(n) < k
    decreases k
  {
    if n > 1 {
      Log2Bounds(n / 2, k - 1, Pow2(k - 1));
    }
  }

  function Pow2(k: nat): (p: nat)
    ensures p >= 1
  {
    if k == 0 then 1 else 2 * Pow2(k - 1)
  }

  /** Dropping one 7-bit group lowers the logarithm by seven. */
  lemma {:induction false} Log2DropGroup(n: nat)
    requires n >= 128
    ensures Log2Floor(n) == 7 + Log2Floor(n / 128)
  {
    assert n / 128 == n / 2 / 2 / 2 / 2 / 2 / 2 / 2;
    assert Log2Floor(n) == 1 + Log2Floor(n / 2);
    assert Log2Floor(n / 2) == 1 + Log2Floor(n / 2 / 2);
    assert Log2Floor(n / 2 / 2) == 1 + Log2Floor(n / 2 / 2 / 2);
    assert Log2Floor(n / 2 / 2 / 2) == 1 + Log2Floor(n / 2 / 2 / 2 / 2);
    assert Log2Floor(n / 2 / 2 / 2 / 2) == 1 + Log2Floor(n / 2 / 2 / 2 / 2 / 2);
    assert Log2Floor(n / 2 / 2 / 2 / 2 / 2) == 1 + Log2Floor(n / 2 / 2 / 2 / 2 / 2 / 2);
    assert Log2Floor(n / 2 / 2 / 2 / 2 / 2 / 2) == 1 + Log2Floor(n / 2 / 2 / 2 / 2 / 2 / 2 / 2);
  }

  lemma {:induction false} EncodeLength(n: nat)
    requires n > 0
    ensures |Encode(n)| == Log2Floor(n) / 7 + 1
    decreases n
  {
    if n < 128 {
      assert Pow2(7) == 128 by { assert Pow2(3) == 8; }
      Log2Bounds(n, 7, 128);
    } else {
      Log2DropGroup(n);
      EncodeLength(n / 128);
    }
  }

  lemma {:induction false} SetLowBit(n: nat)
    requires n > 0
    ensures Log2Floor(OrOne(n)) == Log2Floor(n)
  {
    if n > 1 {
      assert OrOne(n) / 2 == n / 2;
    }
  }

  lemma {:induction false} Pow2Of64()
    ensures Pow2(32) == TWO32 && Pow2(64) == TWO64
  {
    assert Pow2(1) == 2;
    hide Pow2;
    Pow2Square(1, 2); Pow2Square(2, 4); Pow2Square(4, 16); Pow2Square(8, 256); Pow2Square(16, 0x1_0000);
    Pow2Square(32, TWO32);
  }

  lemma Pow2Square(i: nat, p: nat)
    requires Pow2(i) == p
    ensures Pow2(2 * i) == p * p
  {
    Pow2Add(i, i);
  }

  lemma SizeFormula(l: nat)
    requires l < 64
    ensures (l * 9 + 73) / 64 == l / 7 + 1
  {
  }

  lemma {:induction false} Pow2Add(i: nat, j: nat)
    ensures Pow2(i + j) == Pow2(i) * Pow2(j)
    decreases i
  {
    if i > 0 {
      Pow2Add(i - 1, j);
      assert Pow2(i + j) == 2 * Pow2(i - 1 + j);
    }
  }

  /** The multiply-and-divide size formula is the length of the encoding, for every 64-bit value. */
  lemma {:induction false} VarintSizeIsLength(n: uint64)
    ensures VarintSize(n) == |Encode(n)|
    ensures 1 <= |Encode(n)| <= 10
    ensures n < TWO32 ==> |Encode(n)| <= 5
  {
    if n > 0 {
      hide Encode, Log2Floor, Pow2, OrOne;
      SetLowBit(n);
      EncodeLength(n);
      Pow2Of64();
      Log2Bounds(n, 64, TWO64);
      SizeFormula(Log2Floor(n));
      if n < TWO32 {
        Log2Bounds(n, 32, TWO32);
      }
    }
  }

  /** A negative enumeration value takes ten bytes, a nonnegative one at most five. */
  lemma {:induction false} EnumSize(e: int32)
    ensures |Encode(EnumToWire(e))| == VarintSize(EnumToWire(e))
    ensures e >= 0 ==> |Encode(EnumToWire(e))| <= 5
    ensures e < 0 ==> |Encode(EnumToWire(e))| == 10
  {
    VarintSizeIsLength(EnumToWire(e));
    if e < 0 {
      var n := EnumToWire(e);
      EncodeLength(n);
      Pow2Of64();
      Pow2Add(63, 1);
      Log2AtLeast(n, 63);
      Log2Bounds(n, 64, TWO64);
    }
  }

  lemma {:induction false} Log2AtLeast(n: nat, k: nat)
    requires n >= Pow2(k)
    ensures Log2Floor(n) >= k
    decreases k
  {
    if k > 0 {
      Log2AtLeast(n / 2, k - 1);
    }
  }

  // ---------------------------------------------------------------------------------------------
  // The runtime's readers: each added group subtracts the continuation bit of the one before it
  // ---------------------------------------------------------------------------------------------

  /** The sum of groups i..k of `b`, every one of them carrying the continuation bit. */
  ghost function Partial(b: bytes, k: nat): nat
    requires k <= |b|
    requires forall j | 0 <= j < k :: b[j] >= 128
  {
    if k == 0 then 0 else Partial(b, k - 1) + (b[k - 1] - 128) * Pow128(k - 1)
  }

  /** The meaning of the whole varint from the meaning of what follows its first k groups. */
  ghost function Resume(b: bytes, k: nat, limit: nat): Option<(nat, bytes)>
    requires k <= |b| && k <= limit
    requires forall j | 0 <= j < k :: b[j] >= 128
  {
    match Groups(b[k..], limit - k)
    case None => None
    case Some((v, rest)) => Some((Partial(b, k) + Pow128(k) * v, rest))
  }

  lemma {:induction false} ResumeIsGroups(b: bytes, k: nat, limit: nat)
    requires k <= |b| && k <= limit
    requires forall j | 0 <= j < k :: b[j] >= 128
    ensures Groups(b, limit) == Resume(b, k, limit)
    decreases k
  {
    if k == 0 {
      assert b[0..] == b;
    } else {
      ResumeIsGroups(b, k - 1, limit);
      assert b[k - 1..][1..] == b[k..];
      if Groups(b[k..], limit - k).Some? {
        var v := Groups(b[k..], limit - k).value.0;
        Distribute(Pow128(k - 1), b[k - 1] - 128, 128 * v);
        Associate(Pow128(k - 1), v);
      }
    }
  }

  lemma Distribute(p: int, x: int, y: int)
    ensures p * (x + y) == p * x + p * y && p * x == x * p
  {
  }

  lemma Associate(p: int, v: int)
    ensures p * (128 * v) == (128 * p) * v
  {
  }

  lemma QuotientUnique(y: int, q: int, r: int, m: int)
    requires m > 0 && y == m * q + r && 0 <= r < m
    ensures y % m == r
  {
    var q', r' := y / m, y % m;
    assert m * (q - q') == r' - r;
    if q > q' {
      Distribute(m, q - q' - 1, 1);
      Nonnegative(m, q - q' - 1);
    } else if q < q' {
      Distribute(m, q' - q - 1, 1);
      Nonnegative(m, q' - q - 1);
    }
  }

  lemma Nonnegative(x: int, y: int)
    requires x >= 0 && y >= 0
    ensures x * y >= 0
  {
  }

  lemma ModShift(x: int, q: int, m: int)
    requires m > 0
    ensures (x + m * q) % m == x % m
  {
    Distribute(m, x / m, q);
    QuotientUnique(x + m * q, x / m + q, x % m, m);
  }

  lemma ModAdd(x: int, y: int, m: int)
    requires m > 0
    ensures (x % m + y) % m == (x + y) % m
  {
    ModShift(x % m + y, x / m, m);
  }

  /** One addition of the loop, before it is known whether the varint goes on. */
  lemma AddGroupStep(sum: int, power: int, byte: int, modulus: int)
    requires modulus > 0
    ensures ((sum + power) % modulus + (byte - 1) * power) % modulus == (sum + byte * power) % modulus
    ensures sum + byte * power == (sum + (byte - 128) * power) + 128 * power
  {
    var more := (byte - 1) * power;
    Peel(power, byte);
    ModAdd(sum + power, more, modulus);
    assert sum + power + more == sum + byte * power;
  }

  lemma Peel(power: int, byte: int)
    ensures byte * power == power + (byte - 1) * power == (byte - 128) * power + 128 * power
  {
  }

  /** Where the first byte without a continuation bit ends the varint. */
  lemma GroupsEndAt(s: bytes, k: nat, limit: nat)
    requires k < |s| && k < limit && s[k] < 128
    requires forall j | 0 <= j < k :: s[j] >= 128
    ensures Groups(s, limit) == Some((Partial(s, k) + s[k] * Pow128(k), s[k + 1..]))
  {
    ResumeIsGroups(s, k, limit);
    assert s[k..][1..] == s[k + 1..];
    assert Groups(s[k..], limit - k) == Some((s[k], s[k + 1..]));
    Distribute(Pow128(k), s[k], 0);
  }

  lemma {:induction false} AllContinuing(s: bytes, limit: nat)
    requires forall j | 0 <= j < |s| :: s[j] >= 128
    ensures Groups(s, limit).None?
    decreases limit
  {
    if s != [] && limit > 0 {
      AllContinuing(s[1..], limit - 1);
    }
  }

  lemma {:induction false} TooManyGroups(s: bytes, limit: nat)
    requires limit <= |s| && forall j | 0 <= j < limit :: s[j] >= 128
    ensures Groups(s, limit).None?
  {
    ResumeIsGroups(s, limit, limit);
  }

  datatype Scan = Ended(value: nat, next: nat) | Ongoing(value: nat) | Malformed

  /**
   The loop common to VarintParseSlow32, VarintParseSlow64 and ReadTagFallback together with the unrolled
   first bytes: `res += (byte - 1) << (7 * i)` in unsigned arithmetic modulo `modulus`.
   */
  method AddGroups(b: bytes, p: nat, upTo: nat, modulus: nat) returns (r: Scan)
    requires p <= |b| && modulus > 0
    ensures r.Malformed? ==> |b| - p < upTo && forall j | 0 <= j < |b| - p :: b[p..][j] >= 128
    ensures r.Ended? ==>
              p < r.next <= |b| && Groups(b[p..], upTo).Some? &&
              r.value == Groups(b[p..], upTo).value.0 % modulus && b[r.next..] == Groups(b[p..], upTo).value.1
    ensures r.Ongoing? ==>
              p + upTo <= |b| && (forall j | 0 <= j < upTo :: b[p..][j] >= 128) &&
              r.value == (Partial(b[p..], upTo) + Pow128(upTo)) % modulus
  {
    var res := 1 % modulus;
    ghost var s := b[p..];
    var i := 0;
    while i < upTo
      invariant 0 <= i <= upTo && p + i <= |b|
      invariant forall j | 0 <= j < i :: s[j] >= 128
      invariant res == (Partial(s, i) + Pow128(i)) % modulus
    {
      if p + i == |b| {
        return Malformed;
      }
      var byte: int := b[p + i];
      assert s[i] == byte;
      AddGroupStep(Partial(s, i), Pow128(i), byte, modulus);
      res := (res + (byte - 1) * Pow128(i)) % modulus;
      if byte < 128 {
        GroupsEndAt(s, i, upTo);
        assert b[p + i + 1..] == s[i + 1..];
        return Ended(res, p + i + 1);
      }
      i := i + 1;
    }
    return Ongoing(res);
  }

  method ReadVarint64(b: bytes, p: nat) returns (r: Option<(uint64, nat)>)
    requires p <= |b|
    ensures r.Some? <==> Read64(b[p..]).Some?
    ensures r.Some? ==> p < r.value.1 <= |b| && Read64(b[p..]) == Some((r.value.0, b[r.value.1..]))
  {
    var scan := AddGroups(b, p, MAX_GROUPS, TWO64);
    match scan {
      case Ended(value, next) => r := Some((value, next));
      case Ongoing(_) =>
        TooManyGroups(b[p..], MAX_GROUPS);
        r := None;
      case Malformed =>
        AllContinuing(b[p..], MAX_GROUPS);
        r := None;
    }
  }

  lemma NextPartial(s: bytes, i: nat)
    requires i < |s| && forall j | 0 <= j <= i :: s[j] >= 128
    ensures Partial(s, i + 1) == Partial(s, i) + (s[i] - 128) * Pow128(i) && Pow128(i + 1) == 128 * Pow128(i)
  {
  }

  /** Groups from the sixth on are multiples of 2^35: VarintParseSlow32 skips them without adding. */
  method SkipHighGroups(b: bytes, p: nat, value: uint32) returns (r: Option<(uint32, nat)>)
    requires p + 5 <= |b| && forall j | 0 <= j < 5 :: b[p..][j] >= 128
    requires value == Partial(b[p..], 5) % TWO32
    ensures r.Some? <==> Read32(b[p..]).Some?
    ensures r.Some? ==> p < r.value.1 <= |b| && Read32(b[p..]) == Some((r.value.0, b[r.value.1..]))
  {
    ghost var s := b[p..];
    var i := 5;
    assert Pow128(5) % TWO32 == 0 by { Pow128Values(); }
    hide Partial, Pow128, Groups;
    while i < MAX_GROUPS
      invariant 5 <= i <= MAX_GROUPS && p + i <= |b|
      invariant forall j | 0 <= j < i :: s[j] >= 128
      invariant value == Partial(s, i) % TWO32
      invariant Pow128(i) % TWO32 == 0
    {
      if p + i == |b| {
        AllContinuing(s, MAX_GROUPS);
        return None;
      }
      var byte: int := b[p + i];
      assert s[i] == byte;
      if byte < 128 {
        HighGroupVanishes(Partial(s, i), Pow128(i), byte);
        GroupsEndAt(s, i, MAX_GROUPS);
        assert b[p + i + 1..] == s[i + 1..];
        return Some((value, p + i + 1));
      }
      NextPartial(s, i);
      HighGroupVanishes(Partial(s, i), Pow128(i), byte - 128);
      HighGroupVanishes(0, Pow128(i), 128);
      i := i + 1;
    }
    TooManyGroups(s, MAX_GROUPS);
    return None;
  }

  method ReadVarint32(b: bytes, p: nat) returns (r: Option<(uint32, nat)>)
    requires p <= |b|
    ensures r.Some? <==> Read32(b[p..]).Some?
    ensures r.Some? ==> p < r.value.1 <= |b| && Read32(b[p..]) == Some((r.value.0, b[r.value.1..]))
  {
    var scan := AddGroups(b, p, 5, TWO32);
    ghost var s := b[p..];
    match scan {
      case Ended(value, next) =>
        GroupsLenient(s, 5, MAX_GROUPS);
        r := Some((value, next));
      case Malformed =>
        AllContinuing(s, MAX_GROUPS);
        r := None;
      case Ongoing(value) =>
        assert value == Partial(s, 5) % TWO32 by {
          Pow128Values();
          HighGroupVanishes(Partial(s, 5), Pow128(5), 1);
        }
        r := SkipHighGroups(b, p, value);
    }
  }

  lemma HighGroupVanishes(sum: int, power: int, group: int)
    requires power % TWO32 == 0
    ensures (sum + power * group) % TWO32 == (sum + group * power) % TWO32 == sum % TWO32
  {
    var q := power / TWO32;
    assert power == TWO32 * q;
    assert power * group == TWO32 * (q * group);
    ModShift(sum, q * group, TWO32);
  }

  // ---------------------------------------------------------------------------------------------
  // The runtime's writer
  // ---------------------------------------------------------------------------------------------

  /** The byte before p turns out not to be the last: switch on its continuation bit and write the next. */
  method SwitchOnAndGo(target: array<byte>, p: nat, value: nat)
    requires 0 < p < target.Length && target[p - 1] == value % 256
    modifies target
    ensures target[..] == old(target[..])[p - 1 := 128 + value % 128][p := value / 128 % 256]
  {
    LowGroup(value);
    if target[p - 1] < 128 {
      target[p - 1] := target[p - 1] + 128;
    }
    assert target[p - 1] == 128 + value % 128;
    target[p] := value / 128 % 256;
  }

  /**
   UnsafeVarint: each byte is written whole, and its continuation bit is switched on only when the value turns
   out to go on.
   */
  method WriteVarint(n: nat, target: array<byte>, at: nat) returns (next: nat)
    requires at + |Encode(n)| <= target.Length
    modifies target
    ensures next == at + |Encode(n)|
    ensures target[..] == Splice(old(target[..]), at, Encode(n))
  {
    hide Encode, Splice, Written;
    var value := n;
    var p := at;
    ghost var was, head := target[..], target[..at];
    ghost var done: bytes := [];
    EncodeParts(n);
    target[p] := value % 256;
    p := p + 1;
    FirstWritten(was, at, value % 256);
    while value >= 128
      invariant at + |done| == p - 1 < target.Length
      invariant p - 1 + |Encode(value)| == at + |Encode(n)|
      invariant done + Encode(value) == Encode(n)
      invariant target[..] == Written(head, done, value % 256, was, p)
      decreases value
    {
      EncodeParts(value);
      EncodeParts(value / 128);
      GoOn(head, done, value, was, p);
      assert target[p - 1] == target[..][p - 1] == value % 256;
      SwitchOnAndGo(target, p, value);
      done := done + [128 + value % 128];
      value := value / 128;
      p := p + 1;
    }
    next := p;
    EncodeParts(value);
    LastWritten(was, at, done, value, p);
  }

  lemma EncodeParts(n: nat)
    ensures |Encode(n)| >= 1
    ensures if n < 128 then Encode(n) == [n % 256] else |Encode(n)| == 1 + |Encode(n / 128)|
  {
  }

  lemma FirstWritten(was: bytes, at: nat, x: byte)
    requires at < |was|
    ensures was[at := x] == Written(was[..at], [], x, was, at + 1)
  {
  }

  lemma LastWritten(was: bytes, at: nat, done: bytes, value: byte, p: nat)
    requires at + |done| + 1 == p <= |was|
    ensures Written(was[..at], done, value, was, p) == Splice(was, at, done + [value])
  {
  }

  /** The target while a varint is being written: the last byte written has no continuation bit yet. */
  ghost function Written(head: bytes, done: bytes, last: byte, was: bytes, p: nat): bytes
    requires p <= |was|
  {
    head + (done + [last]) + was[p..]
  }

  lemma GoOn(head: bytes, done: bytes, value: nat, was: bytes, p: nat)
    requires value >= 128 && |head| + |done| == p - 1 && p + |Encode(value / 128)| <= |was|
    ensures (value % 256) % 128 == value % 128
    ensures done + Encode(value) == done + [128 + value % 128] + Encode(value / 128)
    ensures p < |was| == |Written(head, done, value % 256, was, p)|
    ensures Written(head, done, value % 256, was, p)[p - 1] == value % 256
    ensures Written(head, done, value % 256, was, p)[p - 1 := 128 + value % 128][p := value / 128 % 256] ==
            Written(head, done + [128 + value % 128], value / 128 % 256, was, p + 1)
  {
    LowGroup(value);
    var x: byte, y: byte := 128 + value % 128, value / 128 % 256;
    assert Encode(value) == [x] + Encode(value / 128);
    Assoc3(done, [x], Encode(value / 128));
    Assoc3(head, done, [value % 256]);
    Assoc3(head, done, [x]);
    Assoc3(head, done + [x], [y]);
    PutTwo(head + done, value % 256, was[p..], x, y);
    assert was[p..][1..] == was[p + 1..];
  }

  lemma LowGroup(value: nat)
    ensures (value % 256) % 128 == value % 128
    ensures 128 + value % 128 == if value % 256 < 128 then value % 256 + 128 else value % 256
  {
    var q, r := value / 128, value % 128;
    assert value == 256 * (q / 2) + (128 * (q % 2) + r);
    QuotientUnique(value, q / 2, 128 * (q % 2) + r, 256);
  }

  lemma PutTwo(front: bytes, last: byte, back: bytes, x: byte, y: byte)
    requires back != []
    ensures (front + [last] + back)[|front| := x][|front| + 1 := y] == front + [x] + [y] + back[1..]
  {
  }
}
