/** Bytes, optional values and concatenation, shared by every layer of the wire stack. */
module Bytes {

  type byte = b: int | 0 <= b < 256
  type bytes = seq<byte>

  datatype Option<+T> = None | Some(value: T)

  /** The concatenation of the parts, in order. */
  function Flatten(parts: seq<bytes>): bytes {
    if parts == [] then [] else parts[0] + Flatten(parts[1..])
  }

  lemma {:induction false} FlattenAppend(a: seq<bytes>, b: seq<bytes>)
    ensures Flatten(a + b) == Flatten(a) + Flatten(b)
  {
    if a == [] {
      assert a + b == b;
    } else {
      assert (a + b)[1..] == a[1..] + b;
      FlattenAppend(a[1..], b);
      assert a[0] + (Flatten(a[1..]) + Flatten(b)) == (a[0] + Flatten(a[1..])) + Flatten(b);
    }
  }

  lemma FlattenPrefix(a: seq<bytes>, b: seq<bytes>)
    requires a <= b
    ensures Flatten(a) <= Flatten(b)
  {
    assert b == a + b[|a|..];
    FlattenAppend(a, b[|a|..]);
  }

  /** The prefix order on sequences is transitive; Z3 needs to be told. */
  lemma PrefixTrans<T>(a: seq<T>, b: seq<T>, c: seq<T>)
    requires a <= b <= c
    ensures a <= c
  {
    forall i | 0 <= i < |a| ensures a[i] == c[i] {
      assert a[i] == b[i];
      assert b[i] == c[i];
    }
  }

  /** `was` with `x` written over it from position `at` on. */
  ghost function Splice(was: bytes, at: nat, x: bytes): (r: bytes)
    requires at + |x| <= |was|
    ensures |r| == |was|
  {
    was[..at] + x + was[at + |x|..]
  }

  lemma SpliceTwice(was: bytes, at: nat, x: bytes, y: bytes)
    requires at + |x| + |y| <= |was|
    ensures Splice(Splice(was, at, x), at + |x|, y) == Splice(was, at, x + y)
  {
  }

  lemma Assoc3(a: bytes, b: bytes, c: bytes)
    ensures a + (b + c) == a + b + c
  {
  }

  lemma Assoc4(a: bytes, b: bytes, c: bytes, d: bytes)
    ensures a + (b + (c + d)) == a + b + c + d == a + (b + c + d)
  {
    Assoc3(b, c, d);
    Assoc3(a, b, c + d);
    Assoc3(a + b, c, d);
  }
}
