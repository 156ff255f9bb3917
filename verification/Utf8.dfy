/**
 What the runtime's UTF-8 check accepts: the encodings of sequences of Unicode scalar values and nothing else. The check
 is a scan driven by a table of states; the encoding is defined from the code points alone.
 */
module Utf8 {
  import opened Bytes
  import opened Wire

  // ---------------------------------------------------------------------------------------------
  // The encoding
  // ---------------------------------------------------------------------------------------------

  /** The code points that are no surrogates. */
  type Scalar = c: int | 0 <= c < 0xD800 || 0xE000 <= c <= 0x10FFFF

  /** Six bits of the code point, in a byte that goes on. */
  function Tail(n: nat): byte {
    0x80 + n % 64
  }

  function EncodeScalar(c: Scalar): bytes {
    if c < 0x80 then [c]
    else if c < 0x800 then [0xC0 + c / 64, Tail(c)]
    else if c < 0x1_0000 then [0xE0 + c / 64 / 64, Tail(c / 64), Tail(c)]
    else [0xF0 + c / 64 / 64 / 64, Tail(c / 64 / 64), Tail(c / 64), Tail(c)]
  }

  function EncodeText(text: seq<Scalar>): bytes {
    if text == [] then [] else EncodeScalar(text[0]) + EncodeText(text[1..])
  }

  /** One step behind an encoded code point. */
  lemma StepOfEncode(c: Scalar, rest: bytes)
    ensures Utf8Step(EncodeScalar(c) + rest) == |EncodeScalar(c)| > 0
  {
    var b := EncodeScalar(c) + rest;
    if c < 0x80 {
      assert b[0] == c;
    } else if c < 0x800 {
      assert b[0] == 0xC0 + c / 64 && b[1] == Tail(c);
    } else if c < 0x1_0000 {
      assert b[0] == 0xE0 + c / 64 / 64 && b[1] == Tail(c / 64) && b[2] == Tail(c);
    } else {
      assert b[0] == 0xF0 + c / 64 / 64 / 64 && b[1] == Tail(c / 64 / 64) && b[2] == Tail(c / 64) && b[3] == Tail(c);
    }
  }

  /** Six bits appended and taken off again. */
  lemma Appended(high: nat, low: nat)
    requires low < 64
    ensures (high * 64 + low) / 64 == high && Tail(high * 64 + low) == 0x80 + low
  {
  }

  /** The code point that a step goes over. */
  lemma ScalarOfStep(b: bytes) returns (c: Scalar)
    requires b != [] && Utf8Step(b) > 0
    ensures EncodeScalar(c) == b[..Utf8Step(b)]
  {
    var n, x := Utf8Step(b), b[0] as int;
    if n == 1 {
      return x;
    }
    hide Tail;
    var y := b[1] as int - 0x80;
    if n == 2 {
      Appended(x - 0xC0, y);
      return (x - 0xC0) * 64 + y;
    }
    var z := b[2] as int - 0x80;
    if n == 3 {
      var high := (x - 0xE0) * 64 + y;
      Appended(x - 0xE0, y);
      Appended(high, z);
      return high * 64 + z;
    }
    var w := b[3] as int - 0x80;
    var top := (x - 0xF0) * 64 + y;
    Appended(x - 0xF0, y);
    Appended(top, z);
    Appended(top * 64 + z, w);
    c := (top * 64 + z) * 64 + w;
  }

  lemma {:induction false} TextIsValid(text: seq<Scalar>)
    ensures ValidUtf8(EncodeText(text))
  {
    if text != [] {
      var first, rest := EncodeScalar(text[0]), EncodeText(text[1..]);
      StepOfEncode(text[0], rest);
      TextIsValid(text[1..]);
      assert (first + rest)[|first|..] == rest;
    }
  }

  lemma {:induction false} ValidIsText(b: bytes) returns (text: seq<Scalar>)
    requires ValidUtf8(b)
    ensures EncodeText(text) == b
    decreases |b|
  {
    text := [];
    if b != [] {
      var n := Utf8Step(b);
      var c := ScalarOfStep(b);
      var rest := ValidIsText(b[n..]);
      text := [c] + rest;
      assert text[1..] == rest && b == b[..n] + b[n..];
    }
  }

  /** The bytes that count as UTF-8 are exactly the encodings of sequences of scalar values. */
  lemma {:induction false} ValidUtf8Iff(b: bytes)
    ensures ValidUtf8(b) <==> exists text: seq<Scalar> :: EncodeText(text) == b
  {
    if ValidUtf8(b) {
      var text := ValidIsText(b);
      assert EncodeText(text) == b;
    }
    if text: seq<Scalar> :| EncodeText(text) == b {
      TextIsValid(text);
    }
  }

  // ---------------------------------------------------------------------------------------------
  // The scan
  // ---------------------------------------------------------------------------------------------

  /** A row of the state table; illegal and rejected bytes have no next state. */
  function Next(state: nat, c: byte): (next: Option<nat>)
    ensures next.Some? ==> next.value <= 8
  {
    var follows := 0x80 <= c < 0xC0;
    match state
    case 0 =>
      if c < 0x80 then Some(0)
      else if 0xC2 <= c < 0xE0 then Some(1)
      else if c == 0xE0 then Some(2)
      else if c == 0xED then Some(7)
      else if 0xE1 <= c < 0xF0 then Some(3)
      else if c == 0xF0 then Some(4)
      else if 0xF1 <= c < 0xF4 then Some(5)
      else if c == 0xF4 then Some(6)
      else None
    case 1 => if follows then Some(0) else None
    case 2 => if 0xA0 <= c < 0xC0 then Some(1) else None
    case 3 => if follows then Some(1) else None
    case 4 => if 0x90 <= c < 0xC0 then Some(3) else None
    case 5 => if follows then Some(3) else None
    case 6 => if 0x80 <= c < 0x90 then Some(3) else None
    case 7 => if 0x80 <= c < 0xA0 then Some(1) else if 0xA0 <= c < 0xC0 then Some(8) else None
    case _ => None
  }

  /** From this state the scan ends, without an error and between two characters. */
  predicate Accepts(state: nat, b: bytes)
    decreases |b|
  {
    if b == [] then state == 0
    else Next(state, b[0]).Some? && Accepts(Next(state, b[0]).value, b[1..])
  }

  lemma AcceptsFrom(state: nat, b: bytes, i: nat)
    requires i <= |b|
    ensures Accepts(state, b[i..]) <==>
            if i == |b| then state == 0
            else Next(state, b[i]).Some? && Accepts(Next(state, b[i]).value, b[i + 1..])
  {
    if i < |b| {
      assert b[i..][0] == b[i] && b[i..][1..] == b[i + 1..];
    }
  }

  /** A character takes the scan back to its first state, and nothing else does. */
  lemma AcceptsStep(b: bytes)
    requires b != []
    ensures Accepts(0, b) <==> Utf8Step(b) > 0 && Accepts(0, b[Utf8Step(b)..])
  {
    hide Accepts;
    assert b[0..] == b;
    AcceptsFrom(0, b, 0);
    var one := Next(0, b[0]);
    if one.Some? && one.value != 0 {
      AcceptsFrom(one.value, b, 1);
      var two := if |b| > 1 then Next(one.value, b[1]) else None;
      if two.Some? && two.value != 0 {
        AcceptsFrom(two.value, b, 2);
        var three := if |b| > 2 then Next(two.value, b[2]) else None;
        if three.Some? && three.value != 0 {
          AcceptsFrom(three.value, b, 3);
        }
      }
    }
  }

  lemma {:induction false} AcceptsIff(b: bytes)
    ensures Accepts(0, b) <==> ValidUtf8(b)
    decreases |b|
  {
    if b != [] {
      AcceptsStep(b);
      if Utf8Step(b) > 0 {
        AcceptsIff(b[Utf8Step(b)..]);
      }
    }
  }

  /** The runtime's check: over the ASCII bytes at the front, then byte by byte through the table. */
  method IsStructurallyValidUtf8(b: bytes) returns (ok: bool)
    ensures ok <==> ValidUtf8(b)
    ensures ok <==> exists text: seq<Scalar> :: EncodeText(text) == b
  {
    hide Accepts, ValidUtf8, EncodeText;
    ValidUtf8Iff(b);
    AcceptsIff(b);
    var i := 0;
    assert b[0..] == b;
    while i < |b| && b[i] < 0x80
      invariant i <= |b| && (Accepts(0, b) <==> Accepts(0, b[i..]))
    {
      AcceptsFrom(0, b, i);
      i := i + 1;
    }
    var state := 0;
    while i < |b|
      invariant i <= |b| && (Accepts(0, b) <==> Accepts(state, b[i..]))
    {
      AcceptsFrom(state, b, i);
      var next := Next(state, b[i]);
      if next.None? {
        return false;
      }
      state := next.value;
      i := i + 1;
    }
    AcceptsFrom(state, b, i);
    return state == 0;
  }

  /** The Korean syllable of code point AC00 has three bytes. */
  lemma KoreanName(b: bytes)
    requires b == [0xEA, 0xB0, 0x80]
    ensures EncodeText([0xAC00]) == b && ValidUtf8(b)
  {
    var text: seq<Scalar> := [0xAC00];
    assert EncodeText(text) == EncodeScalar(0xAC00) + EncodeText([]);
    TextIsValid(text);
  }
}
