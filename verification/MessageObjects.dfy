/**
 The generated messages as objects: parse loops that advance a cursor and assign fields, writers that fill a target
 array, size methods that store a cached size, merges that update the receiver. Each is proved against the value-level
 functions of module Messages. The `Internal...` methods of C++ and the methods of the C# classes act on the same
 fields.
 */
module MessageObjects {
  import opened Bytes
  import opened Varint
  import opened Wire
  import opened Reader
  import opened Utf8
  import M = Messages

  /** What one turn of a parse loop at cursor p did: the message went from `was` to `now`. */
  ghost predicate Turn<T>(apply: (T, Record) -> Option<T>, d: Dialect, was: T, now: T, b: bytes, p: nat,
                          next: Option<nat>)
    requires p < |b|
  {
    match ReadRecord(b[p..], d)
    case None => next.None?
    case Some((r, rest)) =>
      match apply(was, r)
      case None => next.None?
      case Some(m) => next.Some? && p < next.value <= |b| && rest == b[next.value..] && now == m
  }

  lemma {:induction false} Regroup(a: seq<Record>, b: seq<Record>, c: seq<Record>)
    ensures a + (b + c) == a + b + c && [] + a == a && EmitAll([]) == []
    ensures |EmitAll(a + b + c)| == |EmitAll(a)| + |EmitAll(b)| + |EmitAll(c)|
    ensures |EmitAll(a + b)| == |EmitAll(a)| + |EmitAll(b)|
  {
    assert a + (b + c) == a + b + c;
    assert [] + a == a;
    EmitAllAppend(a + b, c);
    EmitAllAppend(a, b);
  }

  class StoneInfo {
    var stoneType: int32
    var posX: uint32
    var posY: uint32
    var cachedSize: nat

    function Value(): M.StoneInfo
      reads this
    {
      M.StoneInfo(stoneType, posX, posY)
    }

    constructor ()
      ensures Value() == M.NO_STONE
    {
      stoneType, posX, posY, cachedSize := 0, 0, 0, 0;
    }

    method ParseField(b: bytes, p: nat) returns (next: Option<nat>)
      requires p < |b|
      modifies this
      ensures Turn(M.CppStone, Cpp, old(Value()), Value(), b, p, next)
    {
      var t := ReadTagAt(b, p, Cpp);
      if t.None? { return None; }
      var (tag, q) := t.value;
      if tag / 8 == 1 && tag % 256 == 8 {
        var v := NumberField(b, p, q, tag, Cpp);
        if v.None? { return None; }
        stoneType := EnumFromWire(v.value.0);
        next := Some(v.value.1);
      } else if tag / 8 == 2 && tag % 256 == 16 {
        var v, _ := UInt32Field(b, p, q, tag, Cpp);
        if v.None? { return None; }
        posX := v.value.0;
        next := Some(v.value.1);
      } else if tag / 8 == 3 && tag % 256 == 24 {
        var v, _ := UInt32Field(b, p, q, tag, Cpp);
        if v.None? { return None; }
        posY := v.value.0;
        next := Some(v.value.1);
      } else {
        next := HandleUnusual(b, p, q, tag, Cpp);
      }
    }

    method InternalParse(b: bytes) returns (ok: bool)
      modifies this
      ensures ok <==> M.ParseStone(old(Value()), b, Cpp).Some?
      ensures ok ==> M.ParseStone(old(Value()), b, Cpp) == Some(Value())
    {
      var p := 0;
      assert b[0..] == b;
      while p < |b|
        invariant 0 <= p <= |b|
        invariant M.ParseStone(old(Value()), b, Cpp) == M.ParseStone(Value(), b[p..], Cpp)
      {
        var next := ParseField(b, p);
        if next.None? { return false; }
        p := next.value;
      }
      ok := true;
    }

    method InternalSerialize(target: array<byte>, at: nat) returns (next: nat)
      requires at + |M.SerializeStone(Value())| <= target.Length
      modifies target
      ensures next == at + |M.SerializeStone(Value())|
      ensures target[..] == Splice(old(target[..]), at, M.SerializeStone(Value()))
    {
      hide EmitAll, Encode, Emit;
      ghost var was := target[..];
      var r1, r2, r3 := M.EnumRecord(8, stoneType), Record(16, Number(posX)), Record(24, Number(posY));
      ghost var w1, w2, w3 := When(stoneType != 0, r1), When(posX != 0, r2), When(posY != 0, r3);
      Regroup(w1, w2, w3);
      next := WriteWhen(stoneType != 0, r1, target, at, was, at, []);
      next := WriteWhen(posX != 0, r2, target, next, was, at, w1);
      next := WriteWhen(posY != 0, r3, target, next, was, at, w1 + w2);
    }

    method ByteSizeLong() returns (total: nat)
      modifies this`cachedSize
      ensures total == cachedSize == |M.SerializeStone(Value())|
    {
      total := 0;
      if stoneType != 0 { total := total + 1 + VarintSize(EnumToWire(stoneType)); }
      if posX != 0 { total := total + 1 + VarintSize(posX); }
      if posY != 0 { total := total + 1 + VarintSize(posY); }
      cachedSize := total;
      M.StoneSize(Value());
    }

    method MergeImpl(from: StoneInfo)
      requires from != this
      modifies this
      ensures Value() == M.MergeStone(old(Value()), from.Value())
    {
      if from.stoneType != 0 { stoneType := from.stoneType; }
      if from.posX != 0 { posX := from.posX; }
      if from.posY != 0 { posY := from.posY; }
    }

    // The C# class

    method MergeField(b: bytes, p: nat) returns (next: Option<nat>)
      requires p < |b|
      modifies this
      ensures Turn(M.CSharpStone, CSharp, old(Value()), Value(), b, p, next)
    {
      var t := ReadTagAt(b, p, CSharp);
      if t.None? { return None; }
      var (tag, q) := t.value;
      if tag == 8 {
        var v := NumberField(b, p, q, tag, CSharp);
        if v.None? { return None; }
        stoneType := EnumFromWire(v.value.0);
        next := Some(v.value.1);
      } else if tag == 16 {
        var v, _ := UInt32Field(b, p, q, tag, CSharp);
        if v.None? { return None; }
        posX := v.value.0;
        next := Some(v.value.1);
      } else if tag == 24 {
        var v, _ := UInt32Field(b, p, q, tag, CSharp);
        if v.None? { return None; }
        posY := v.value.0;
        next := Some(v.value.1);
      } else {
        next := HandleUnusual(b, p, q, tag, CSharp);
      }
    }

    method InternalMergeFrom(b: bytes) returns (ok: bool)
      modifies this
      ensures ok <==> M.ParseStone(old(Value()), b, CSharp).Some?
      ensures ok ==> M.ParseStone(old(Value()), b, CSharp) == Some(Value())
    {
      var p := 0;
      assert b[0..] == b;
      while p < |b|
        invariant 0 <= p <= |b|
        invariant M.ParseStone(old(Value()), b, CSharp) == M.ParseStone(Value(), b[p..], CSharp)
      {
        var next := MergeField(b, p);
        if next.None? { return false; }
        p := next.value;
      }
      ok := true;
    }

    method MergeFrom(other: StoneInfo?)
      modifies this
      ensures Value() == if other == null then old(Value()) else M.MergeStone(old(Value()), old(other.Value()))
    {
      if other == null { return; }
      if other.stoneType != 0 { stoneType := other.stoneType; }
      if other.posX != 0 { posX := other.posX; }
      if other.posY != 0 { posY := other.posY; }
    }

    method CalculateSize() returns (size: nat)
      ensures size == |M.SerializeStone(Value())|
    {
      size := 0;
      if stoneType != 0 { size := size + 1 + VarintSize(EnumToWire(stoneType)); }
      if posX != 0 { size := size + 1 + VarintSize(posX); }
      if posY != 0 { size := size + 1 + VarintSize(posY); }
      M.StoneSize(Value());
    }

    method InternalWriteTo(output: bytes) returns (r: bytes)
      ensures r == output + M.SerializeStone(Value())
    {
      r := output;
      ghost var a := M.Optional(stoneType != 0, [8] + Encode(EnumToWire(stoneType)));
      ghost var b := M.Optional(posX != 0, [16] + Encode(posX));
      ghost var c := M.Optional(posY != 0, [24] + Encode(posY));
      if stoneType != 0 { r := r + ([8] + Encode(EnumToWire(stoneType))); }
      assert r == output + a;
      if posX != 0 { r := r + ([16] + Encode(posX)); }
      assert r == output + a + b;
      if posY != 0 { r := r + ([24] + Encode(posY)); }
      M.StoneLayout(Value());
      Assoc4(output, a, b, c);
    }
  }

  class PlayerInfo {
    var playerId: uint64
    var name: bytes
    var playerType: int32
    var playerState: int32
    var cachedSize: nat

    function Value(): M.PlayerInfo
      reads this
    {
      M.PlayerInfo(playerId, name, playerType, playerState)
    }

    constructor ()
      ensures Value() == M.NO_PLAYER
    {
      playerId, name, playerType, playerState, cachedSize := 0, [], 0, 0, 0;
    }

    method ParseField(b: bytes, p: nat) returns (next: Option<nat>)
      requires p < |b|
      modifies this
      ensures Turn(M.CppPlayer, Cpp, old(Value()), Value(), b, p, next)
    {
      var t := ReadTagAt(b, p, Cpp);
      if t.None? { return None; }
      var (tag, q) := t.value;
      if tag / 8 == 1 && tag % 256 == 8 {
        var v := NumberField(b, p, q, tag, Cpp);
        if v.None? { return None; }
        playerId := v.value.0;
        next := Some(v.value.1);
      } else if tag / 8 == 2 && tag % 256 == 18 {
        var v := BlockField(b, p, q, tag, Cpp);
        if v.None? { return None; }
        name := v.value.0;
        var valid := IsStructurallyValidUtf8(name);
        if !valid { return None; }
        next := Some(v.value.1);
      } else if tag / 8 == 3 && tag % 256 == 24 {
        var v := NumberField(b, p, q, tag, Cpp);
        if v.None? { return None; }
        playerType := EnumFromWire(v.value.0);
        next := Some(v.value.1);
      } else if tag / 8 == 4 && tag % 256 == 32 {
        var v := NumberField(b, p, q, tag, Cpp);
        if v.None? { return None; }
        playerState := EnumFromWire(v.value.0);
        next := Some(v.value.1);
      } else {
        next := HandleUnusual(b, p, q, tag, Cpp);
      }
    }

    method InternalParse(b: bytes) returns (ok: bool)
      modifies this
      ensures ok <==> M.ParsePlayer(old(Value()), b, Cpp).Some?
      ensures ok ==> M.ParsePlayer(old(Value()), b, Cpp) == Some(Value())
    {
      var p := 0;
      assert b[0..] == b;
      while p < |b|
        invariant 0 <= p <= |b|
        invariant M.ParsePlayer(old(Value()), b, Cpp) == M.ParsePlayer(Value(), b[p..], Cpp)
      {
        var next := ParseField(b, p);
        if next.None? { return false; }
        p := next.value;
      }
      ok := true;
    }

    method InternalSerialize(target: array<byte>, at: nat) returns (next: nat)
      requires M.PlayerFits(Value()) && at + |M.SerializePlayer(Value())| <= target.Length
      modifies target
      ensures next == at + |M.SerializePlayer(Value())|
      ensures target[..] == Splice(old(target[..]), at, M.SerializePlayer(Value()))
    {
      hide EmitAll, Encode, Emit;
      ghost var was := target[..];
      var r1, r2 := Record(8, Number(playerId)), Record(18, Block(name));
      var r3, r4 := M.EnumRecord(24, playerType), M.EnumRecord(32, playerState);
      ghost var w1, w2 := When(playerId != 0, r1), When(name != [], r2);
      ghost var w3, w4 := When(playerType != 0, r3), When(playerState != 0, r4);
      Regroup(w1, w2, w3 + w4);
      Regroup(w1 + w2, w3, w4);
      next := WriteWhen(playerId != 0, r1, target, at, was, at, []);
      assert [] + w1 == w1;
      next := WriteWhen(name != [], r2, target, next, was, at, w1);
      next := WriteWhen(playerType != 0, r3, target, next, was, at, w1 + w2);
      next := WriteWhen(playerState != 0, r4, target, next, was, at, w1 + w2 + w3);
    }

    /** The name is counted first, though it is written second. */
    method ByteSizeLong() returns (total: nat)
      requires M.PlayerFits(Value())
      modifies this`cachedSize
      ensures total == cachedSize == |M.SerializePlayer(Value())|
    {
      total := 0;
      if name != [] { total := total + 1 + (VarintSize(|name|) + |name|); }
      if playerId != 0 { total := total + 1 + VarintSize(playerId); }
      if playerType != 0 { total := total + 1 + VarintSize(EnumToWire(playerType)); }
      if playerState != 0 { total := total + 1 + VarintSize(EnumToWire(playerState)); }
      cachedSize := total;
      M.PlayerSize(Value());
    }

    method MergeImpl(from: PlayerInfo)
      requires from != this
      modifies this
      ensures Value() == M.MergePlayer(old(Value()), from.Value())
    {
      if from.name != [] { name := from.name; }
      if from.playerId != 0 { playerId := from.playerId; }
      if from.playerType != 0 { playerType := from.playerType; }
      if from.playerState != 0 { playerState := from.playerState; }
    }

    // The C# class

    method MergeField(b: bytes, p: nat) returns (next: Option<nat>)
      requires p < |b|
      modifies this
      ensures Turn(M.CSharpPlayer, CSharp, old(Value()), Value(), b, p, next)
    {
      var t := ReadTagAt(b, p, CSharp);
      if t.None? { return None; }
      var (tag, q) := t.value;
      if tag == 8 {
        var v := NumberField(b, p, q, tag, CSharp);
        if v.None? { return None; }
        playerId := v.value.0;
        next := Some(v.value.1);
      } else if tag == 18 {
        var v := BlockField(b, p, q, tag, CSharp);
        if v.None? || !ValidUtf8(v.value.0) { return None; }
        name := v.value.0;
        next := Some(v.value.1);
      } else if tag == 24 {
        var v := NumberField(b, p, q, tag, CSharp);
        if v.None? { return None; }
        playerType := EnumFromWire(v.value.0);
        next := Some(v.value.1);
      } else if tag == 32 {
        var v := NumberField(b, p, q, tag, CSharp);
        if v.None? { return None; }
        playerState := EnumFromWire(v.value.0);
        next := Some(v.value.1);
      } else {
        next := HandleUnusual(b, p, q, tag, CSharp);
      }
    }

    method InternalMergeFrom(b: bytes) returns (ok: bool)
      modifies this
      ensures ok <==> M.ParsePlayer(old(Value()), b, CSharp).Some?
      ensures ok ==> M.ParsePlayer(old(Value()), b, CSharp) == Some(Value())
    {
      var p := 0;
      assert b[0..] == b;
      while p < |b|
        invariant 0 <= p <= |b|
        invariant M.ParsePlayer(old(Value()), b, CSharp) == M.ParsePlayer(Value(), b[p..], CSharp)
      {
        var next := MergeField(b, p);
        if next.None? { return false; }
        p := next.value;
      }
      ok := true;
    }

    method MergeFrom(other: PlayerInfo?)
      modifies this
      ensures Value() == if other == null then old(Value()) else M.MergePlayer(old(Value()), old(other.Value()))
    {
      if other == null { return; }
      if other.playerId != 0 { playerId := other.playerId; }
      if other.name != [] { name := other.name; }
      if other.playerType != 0 { playerType := other.playerType; }
      if other.playerState != 0 { playerState := other.playerState; }
    }

    method CalculateSize() returns (size: nat)
      requires M.PlayerFits(Value())
      ensures size == |M.SerializePlayer(Value())|
    {
      size := 0;
      if playerId != 0 { size := size + 1 + VarintSize(playerId); }
      if name != [] { size := size + 1 + (VarintSize(|name|) + |name|); }
      if playerType != 0 { size := size + 1 + VarintSize(EnumToWire(playerType)); }
      if playerState != 0 { size := size + 1 + VarintSize(EnumToWire(playerState)); }
      M.PlayerSize(Value());
    }

    method InternalWriteTo(output: bytes) returns (r: bytes)
      ensures r == output + M.SerializePlayer(Value())
    {
      r := output;
      ghost var a := M.Optional(playerId != 0, [8] + Encode(playerId));
      ghost var b := M.Optional(name != [], [18] + Encode(|name|) + name);
      ghost var c := M.Optional(playerType != 0, [24] + Encode(EnumToWire(playerType)));
      ghost var d := M.Optional(playerState != 0, [32] + Encode(EnumToWire(playerState)));
      if playerId != 0 { r := r + ([8] + Encode(playerId)); }
      assert r == output + a;
      if name != [] { r := r + ([18] + Encode(|name|) + name); }
      assert r == output + a + b;
      if playerType != 0 { r := r + ([24] + Encode(EnumToWire(playerType))); }
      assert r == output + a + b + c;
      if playerState != 0 { r := r + ([32] + Encode(EnumToWire(playerState))); }
      M.PlayerLayout(Value());
      Assoc4(output, a, b, c);
      Assoc3(output, a + b + c, d);
    }
  }

  class SLogin {
    var success: bool
    var error: int32
    var playerInfo: PlayerInfo?
    var cachedSize: nat

    function Value(): M.SLogin
      reads this, playerInfo
    {
      M.SLogin(success, error, if playerInfo == null then None else Some(playerInfo.Value()))
    }

    /** The submessage is the one that was there, or one created since. */
    twostate predicate OwnsPlayer()
      reads this
    {
      playerInfo == old(playerInfo) || (old(playerInfo) == null && playerInfo != null && fresh(playerInfo))
    }

    method ParseField(b: bytes, p: nat) returns (next: Option<nat>)
      requires p < |b|
      modifies this, playerInfo
      ensures OwnsPlayer()
      ensures Turn(M.CppLogin, Cpp, old(Value()), Value(), b, p, next)
    {
      var t := ReadTagAt(b, p, Cpp);
      if t.None? { return None; }
      var (tag, q) := t.value;
      if tag / 8 == 1 && tag % 256 == 8 {
        var v := NumberField(b, p, q, tag, Cpp);
        if v.None? { return None; }
        success := v.value.0 != 0;
        next := Some(v.value.1);
      } else if tag / 8 == 2 && tag % 256 == 16 {
        var v := NumberField(b, p, q, tag, Cpp);
        if v.None? { return None; }
        error := EnumFromWire(v.value.0);
        next := Some(v.value.1);
      } else if tag / 8 == 3 && tag % 256 == 26 {
        var v := BlockField(b, p, q, tag, Cpp);
        if v.None? { return None; }
        if playerInfo == null { playerInfo := new PlayerInfo(); }
        var ok := playerInfo.InternalParse(v.value.0);
        if !ok { return None; }
        next := Some(v.value.1);
      } else {
        next := HandleUnusual(b, p, q, tag, Cpp);
      }
    }

    method InternalParse(b: bytes) returns (ok: bool)
      modifies this, playerInfo
      ensures OwnsPlayer()
      ensures ok <==> M.ParseLogin(old(Value()), b, Cpp).Some?
      ensures ok ==> M.ParseLogin(old(Value()), b, Cpp) == Some(Value())
    {
      var p := 0;
      assert b[0..] == b;
      while p < |b|
        invariant 0 <= p <= |b| && OwnsPlayer()
        invariant M.ParseLogin(old(Value()), b, Cpp) == M.ParseLogin(Value(), b[p..], Cpp)
      {
        var next := ParseField(b, p);
        if next.None? { return false; }
        p := next.value;
      }
      ok := true;
    }

    /** Sizes the submessage first, which stores its cached size for the writer. */
    method ByteSizeLong() returns (total: nat)
      requires M.LoginFits(Value())
      modifies this`cachedSize, (if playerInfo == null then {} else {playerInfo})`cachedSize
      ensures total == cachedSize == |M.SerializeLogin(Value())|
      ensures playerInfo != null ==> playerInfo.cachedSize == |M.SerializePlayer(playerInfo.Value())|
    {
      ghost var m := Value();
      total := SizeSubmessage();
      if success { total := total + 1 + 1; }
      if error != 0 { total := total + 1 + VarintSize(EnumToWire(error)); }
      cachedSize := total;
      M.LoginSize(m);
    }

    method SizeSubmessage() returns (total: nat)
      requires M.LoginFits(Value())
      modifies (if playerInfo == null then {} else {playerInfo})`cachedSize
      ensures total == M.Add(playerInfo != null,
                             1 + M.LengthDelimitedSize(M.ByteSizePlayer(M.GetOr(Value().playerInfo, M.NO_PLAYER))))
      ensures playerInfo != null ==> playerInfo.cachedSize == |M.SerializePlayer(playerInfo.Value())|
    {
      total := 0;
      if playerInfo != null {
        var n := playerInfo.ByteSizeLong();
        M.PlayerSize(playerInfo.Value());
        total := 1 + (VarintSize(n) + n);
      }
    }

    /** What the writer puts out: the submessage's length prefix is whatever its last ByteSizeLong stored. */
    ghost function Written(): bytes
      reads this, playerInfo
    {
      M.LoginWithPrefix(Value(), if playerInfo == null then 0 else playerInfo.cachedSize)
    }

    method InternalSerialize(target: array<byte>, at: nat) returns (next: nat)
      requires M.LoginFits(Value()) && at + |Written()| <= target.Length
      modifies target
      ensures next == at + |Written()|
      ensures target[..] == Splice(old(target[..]), at, Written())
    {
      hide M.SerializePlayer, M.LoginScalars, M.PlayerBlock, EmitAll, Emit, Encode, Splice, M.LoginNameValid;
      ghost var was, scalars := target[..], M.LoginScalars(Value());
      if playerInfo == null {
        assert Written() == scalars;
        next := WriteScalars(target, at);
      } else {
        ghost var block := M.PlayerBlock(playerInfo.Value(), playerInfo.cachedSize);
        assert Written() == scalars + block;
        SpliceTwice(was, at, scalars, block);
        next := WriteScalars(target, at);
        next := WriteSubmessage(playerInfo, target, next);
      }
    }

    /** MessageLite's entry point: sizes, which caches the submessage's size, then writes with the cached size. */
    method SerializeToArray(target: array<byte>, at: nat, size: nat) returns (ok: bool)
      requires M.LoginFits(Value()) && at + size <= target.Length
      modifies target, this`cachedSize, (if playerInfo == null then {} else {playerInfo})`cachedSize
      ensures ok <==> |M.SerializeLogin(Value())| <= INT_MAX && |M.SerializeLogin(Value())| <= size
      ensures target[..] == if ok then Splice(old(target[..]), at, M.SerializeLogin(Value())) else old(target[..])
    {
      hide EmitAll, Encode, Emit, M.SerializeLogin;
      var byteSize := ByteSizeLong();
      if byteSize > INT_MAX || size < byteSize {
        return false;
      }
      M.PlayerSize(M.GetOr(Value().playerInfo, M.NO_PLAYER));
      M.CachedPrefixRightIff(Value(), if playerInfo == null then 0 else playerInfo.cachedSize);
      var _ := InternalSerialize(target, at);
      ok := true;
    }

    method WriteScalars(target: array<byte>, at: nat) returns (next: nat)
      requires at + |M.LoginScalars(Value())| <= target.Length
      modifies target
      ensures next == at + |M.LoginScalars(Value())|
      ensures target[..] == Splice(old(target[..]), at, M.LoginScalars(Value()))
    {
      ghost var was := target[..];
      var r1, r2 := Record(8, Number(1)), M.EnumRecord(16, error);
      ghost var w1, w2 := When(success, r1), When(error != 0, r2);
      EmitAllAppend(w1, w2);
      next := WriteWhen(success, r1, target, at, was, at, []);
      assert [] + w1 == w1;
      next := WriteWhen(error != 0, r2, target, next, was, at, w1);
    }

    method MergeImpl(from: SLogin)
      requires from != this && (playerInfo == null || from.playerInfo != playerInfo)
      modifies this, playerInfo
      ensures OwnsPlayer()
      ensures Value() == M.MergeLogin(old(Value()), old(from.Value()))
    {
      if from.playerInfo != null {
        if playerInfo == null { playerInfo := new PlayerInfo(); }
        playerInfo.MergeImpl(from.playerInfo);
      }
      if from.success { success := from.success; }
      if from.error != 0 { error := from.error; }
    }

    // The C# class

    method MergeField(b: bytes, p: nat) returns (next: Option<nat>)
      requires p < |b|
      modifies this, playerInfo
      ensures OwnsPlayer()
      ensures Turn(M.CSharpLogin, CSharp, old(Value()), Value(), b, p, next)
    {
      var t := ReadTagAt(b, p, CSharp);
      if t.None? { return None; }
      var (tag, q) := t.value;
      if tag == 8 {
        var v := NumberField(b, p, q, tag, CSharp);
        if v.None? { return None; }
        success := v.value.0 != 0;
        next := Some(v.value.1);
      } else if tag == 16 {
        var v := NumberField(b, p, q, tag, CSharp);
        if v.None? { return None; }
        error := EnumFromWire(v.value.0);
        next := Some(v.value.1);
      } else if tag == 26 {
        var v := BlockField(b, p, q, tag, CSharp);
        if playerInfo == null { playerInfo := new PlayerInfo(); }
        if v.None? { return None; }
        var ok := playerInfo.InternalMergeFrom(v.value.0);
        if !ok { return None; }
        next := Some(v.value.1);
      } else {
        next := HandleUnusual(b, p, q, tag, CSharp);
      }
    }

    method InternalMergeFrom(b: bytes) returns (ok: bool)
      modifies this, playerInfo
      ensures OwnsPlayer()
      ensures ok <==> M.ParseLogin(old(Value()), b, CSharp).Some?
      ensures ok ==> M.ParseLogin(old(Value()), b, CSharp) == Some(Value())
    {
      var p := 0;
      assert b[0..] == b;
      while p < |b|
        invariant 0 <= p <= |b| && OwnsPlayer()
        invariant M.ParseLogin(old(Value()), b, CSharp) == M.ParseLogin(Value(), b[p..], CSharp)
      {
        var next := MergeField(b, p);
        if next.None? { return false; }
        p := next.value;
      }
      ok := true;
    }
  }

  /** InternalWriteMessage: tag 26, the cached size as a varint, then the submessage. */
  method WriteSubmessage(player: PlayerInfo, target: array<byte>, at: nat) returns (next: nat)
    requires M.PlayerFits(player.Value())
    requires at + |M.PlayerBlock(player.Value(), player.cachedSize)| <= target.Length
    modifies target
    ensures next == at + |M.PlayerBlock(player.Value(), player.cachedSize)|
    ensures target[..] == Splice(old(target[..]), at, M.PlayerBlock(player.Value(), player.cachedSize))
  {
    hide EmitAll, Encode, Emit;
    ghost var was := target[..];
    ghost var body := M.SerializePlayer(player.Value());
    next := WriteNumber(26, player.cachedSize, target, at);
    next := player.InternalSerialize(target, next);
    SpliceTwice(was, at, Encode(26) + Encode(player.cachedSize), body);
  }

  class CPlayStone {
    var stoneInfo: StoneInfo?

    function Value(): M.CPlayStone
      reads this, stoneInfo
    {
      M.CPlayStone(if stoneInfo == null then None else Some(stoneInfo.Value()))
    }

    constructor (stone: StoneInfo?)
      ensures stoneInfo == stone
    {
      stoneInfo := stone;
    }

    twostate predicate OwnsStone()
      reads this
    {
      stoneInfo == old(stoneInfo) || (old(stoneInfo) == null && stoneInfo != null && fresh(stoneInfo))
    }

    method ParseField(b: bytes, p: nat) returns (next: Option<nat>)
      requires p < |b|
      modifies this, stoneInfo
      ensures OwnsStone()
      ensures Turn(M.CppPlay, Cpp, old(Value()), Value(), b, p, next)
    {
      var t := ReadTagAt(b, p, Cpp);
      if t.None? { return None; }
      var (tag, q) := t.value;
      if tag / 8 == 1 && tag % 256 == 10 {
        var v := BlockField(b, p, q, tag, Cpp);
        if v.None? { return None; }
        if stoneInfo == null { stoneInfo := new StoneInfo(); }
        var ok := stoneInfo.InternalParse(v.value.0);
        if !ok { return None; }
        next := Some(v.value.1);
      } else {
        next := HandleUnusual(b, p, q, tag, Cpp);
      }
    }

    method InternalParse(b: bytes) returns (ok: bool)
      modifies this, stoneInfo
      ensures OwnsStone()
      ensures ok <==> M.ParsePlay(old(Value()), b, Cpp).Some?
      ensures ok ==> M.ParsePlay(old(Value()), b, Cpp) == Some(Value())
    {
      var p := 0;
      assert b[0..] == b;
      while p < |b|
        invariant 0 <= p <= |b| && OwnsStone()
        invariant M.ParsePlay(old(Value()), b, Cpp) == M.ParsePlay(Value(), b[p..], Cpp)
      {
        var next := ParseField(b, p);
        if next.None? { return false; }
        p := next.value;
      }
      ok := true;
    }

    method MergeImpl(from: CPlayStone)
      requires from != this && (stoneInfo == null || from.stoneInfo != stoneInfo)
      modifies this, stoneInfo
      ensures OwnsStone()
      ensures Value() == M.MergePlay(old(Value()), old(from.Value()))
    {
      if from.stoneInfo != null {
        if stoneInfo == null { stoneInfo := new StoneInfo(); }
        stoneInfo.MergeImpl(from.stoneInfo);
      }
    }

    /** The C# size: the submessage is sized afresh, nothing is cached. */
    method CalculateSize() returns (size: nat)
      ensures size == |M.SerializePlay(Value())| <= 25
    {
      size := 0;
      if stoneInfo != null {
        var n := stoneInfo.CalculateSize();
        M.PlayLayout(stoneInfo.Value());
        M.StoneSize(stoneInfo.Value());
        VarintSizeIsLength(n);
        M.OneByteSize(n);
        size := size + 1 + (VarintSize(n) + n);
      }
    }

    method ToByteArray() returns (r: bytes)
      ensures r == M.SerializePlay(Value())
    {
      r := [];
      if stoneInfo != null {
        var n := stoneInfo.CalculateSize();
        r := stoneInfo.InternalWriteTo([10] + Encode(n));
        M.PlayLayout(stoneInfo.Value());
      }
    }
  }
}
