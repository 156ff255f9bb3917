/**
 The generated messages as values: what one record does to a message in the C++ reader and in the C# reader, which
 records a writer emits, what merging and size calculation compute, and the laws that tie these together.
 */
module Messages {
  import opened Bytes
  import opened Varint
  import opened Wire

  datatype StoneInfo = StoneInfo(stoneType: int32, posX: uint32, posY: uint32)
  datatype PlayerInfo = PlayerInfo(playerId: uint64, name: bytes, playerType: int32, playerState: int32)
  datatype EnemyInfo = EnemyInfo(name: bytes, playerType: int32)
  datatype GameRoomInfo = GameRoomInfo(roomId: uint64, playerType: int32, playerState: int32)
  datatype SLogin = SLogin(success: bool, error: int32, playerInfo: Option<PlayerInfo>)
  datatype CPlayStone = CPlayStone(stoneInfo: Option<StoneInfo>)

  const NO_STONE := StoneInfo(0, 0, 0)
  const NO_PLAYER := PlayerInfo(0, [], 0, 0)
  const NO_ENEMY := EnemyInfo([], 0)
  const NO_ROOM := GameRoomInfo(0, 0, 0)
  const NO_LOGIN := SLogin(false, 0, None)
  const NO_PLAY := CPlayStone(None)

  function GetOr<T>(o: Option<T>, default: T): T {
    match o
    case None => default
    case Some(v) => v
  }

  // ---------------------------------------------------------------------------------------------
  // Dispatch: C++ switches on the field number, then tests the low byte; C# switches on the tag
  // ---------------------------------------------------------------------------------------------

  predicate CppCase(r: Record, field: nat, low: nat) {
    r.tag / 8 == field && r.tag % 256 == low
  }

  /** For field numbers below 32 the two dispatches choose the same records, for every 32-bit tag. */
  lemma DispatchAgrees(r: Record, field: nat, low: nat)
    requires low / 8 == field && low < 256
    ensures CppCase(r, field, low) <==> r.tag == low
  {
    var q := r.tag / 256;
    assert r.tag == 256 * q + r.tag % 256;
    if CppCase(r, field, low) {
      assert r.tag / 8 == 32 * q + low / 8;
    }
  }

  function CppStone(m: StoneInfo, r: Record): Option<StoneInfo> {
    if CppCase(r, 1, 8) && r.payload.Number? then Some(m.(stoneType := EnumFromWire(r.payload.n)))
    else if CppCase(r, 2, 16) && r.payload.Number? then Some(m.(posX := r.payload.n % TWO32))
    else if CppCase(r, 3, 24) && r.payload.Number? then Some(m.(posY := r.payload.n % TWO32))
    else Some(m)
  }

  function CSharpStone(m: StoneInfo, r: Record): Option<StoneInfo> {
    if r.tag == 8 && r.payload.Number? then Some(m.(stoneType := EnumFromWire(r.payload.n)))
    else if r.tag == 16 && r.payload.Number? then Some(m.(posX := r.payload.n % TWO32))
    else if r.tag == 24 && r.payload.Number? then Some(m.(posY := r.payload.n % TWO32))
    else Some(m)
  }

  function CppPlayer(m: PlayerInfo, r: Record): Option<PlayerInfo> {
    if CppCase(r, 1, 8) && r.payload.Number? then Some(m.(playerId := r.payload.n))
    else if CppCase(r, 2, 18) && r.payload.Block? then
      if ValidUtf8(r.payload.b) then Some(m.(name := r.payload.b)) else None
    else if CppCase(r, 3, 24) && r.payload.Number? then Some(m.(playerType := EnumFromWire(r.payload.n)))
    else if CppCase(r, 4, 32) && r.payload.Number? then Some(m.(playerState := EnumFromWire(r.payload.n)))
    else Some(m)
  }

  function CSharpPlayer(m: PlayerInfo, r: Record): Option<PlayerInfo> {
    if r.tag == 8 && r.payload.Number? then Some(m.(playerId := r.payload.n))
    else if r.tag == 18 && r.payload.Block? then
      if ValidUtf8(r.payload.b) then Some(m.(name := r.payload.b)) else None
    else if r.tag == 24 && r.payload.Number? then Some(m.(playerType := EnumFromWire(r.payload.n)))
    else if r.tag == 32 && r.payload.Number? then Some(m.(playerState := EnumFromWire(r.payload.n)))
    else Some(m)
  }

  function CppEnemy(m: EnemyInfo, r: Record): Option<EnemyInfo> {
    if CppCase(r, 1, 10) && r.payload.Block? then
      if ValidUtf8(r.payload.b) then Some(m.(name := r.payload.b)) else None
    else if CppCase(r, 2, 16) && r.payload.Number? then Some(m.(playerType := EnumFromWire(r.payload.n)))
    else Some(m)
  }

  function CSharpEnemy(m: EnemyInfo, r: Record): Option<EnemyInfo> {
    if r.tag == 10 && r.payload.Block? then
      if ValidUtf8(r.payload.b) then Some(m.(name := r.payload.b)) else None
    else if r.tag == 16 && r.payload.Number? then Some(m.(playerType := EnumFromWire(r.payload.n)))
    else Some(m)
  }

  function CppRoom(m: GameRoomInfo, r: Record): Option<GameRoomInfo> {
    if CppCase(r, 1, 8) && r.payload.Number? then Some(m.(roomId := r.payload.n))
    else if CppCase(r, 2, 16) && r.payload.Number? then Some(m.(playerType := EnumFromWire(r.payload.n)))
    else if CppCase(r, 3, 24) && r.payload.Number? then Some(m.(playerState := EnumFromWire(r.payload.n)))
    else Some(m)
  }

  function CSharpRoom(m: GameRoomInfo, r: Record): Option<GameRoomInfo> {
    if r.tag == 8 && r.payload.Number? then Some(m.(roomId := r.payload.n))
    else if r.tag == 16 && r.payload.Number? then Some(m.(playerType := EnumFromWire(r.payload.n)))
    else if r.tag == 24 && r.payload.Number? then Some(m.(playerState := EnumFromWire(r.payload.n)))
    else Some(m)
  }

  /** A nested message is read into the one already there, or into a fresh one. */
  function CppLogin(m: SLogin, r: Record): Option<SLogin> {
    if CppCase(r, 1, 8) && r.payload.Number? then Some(m.(success := r.payload.n != 0))
    else if CppCase(r, 2, 16) && r.payload.Number? then Some(m.(error := EnumFromWire(r.payload.n)))
    else if CppCase(r, 3, 26) && r.payload.Block? then
      match ParseLoop(CppPlayer, GetOr(m.playerInfo, NO_PLAYER), r.payload.b, Cpp)
      case None => None
      case Some(p) => Some(m.(playerInfo := Some(p)))
    else Some(m)
  }

  function CSharpLogin(m: SLogin, r: Record): Option<SLogin> {
    if r.tag == 8 && r.payload.Number? then Some(m.(success := r.payload.n != 0))
    else if r.tag == 16 && r.payload.Number? then Some(m.(error := EnumFromWire(r.payload.n)))
    else if r.tag == 26 && r.payload.Block? then
      match ParseLoop(CSharpPlayer, GetOr(m.playerInfo, NO_PLAYER), r.payload.b, CSharp)
      case None => None
      case Some(p) => Some(m.(playerInfo := Some(p)))
    else Some(m)
  }

  function CppPlay(m: CPlayStone, r: Record): Option<CPlayStone> {
    if CppCase(r, 1, 10) && r.payload.Block? then
      match ParseLoop(CppStone, GetOr(m.stoneInfo, NO_STONE), r.payload.b, Cpp)
      case None => None
      case Some(s) => Some(m.(stoneInfo := Some(s)))
    else Some(m)
  }

  function CSharpPlay(m: CPlayStone, r: Record): Option<CPlayStone> {
    if r.tag == 10 && r.payload.Block? then
      match ParseLoop(CSharpStone, GetOr(m.stoneInfo, NO_STONE), r.payload.b, CSharp)
      case None => None
      case Some(s) => Some(m.(stoneInfo := Some(s)))
    else Some(m)
  }

  /** The C# readers of the messages with a single enumeration or bool. */
  function CSharpScalar(n: uint64, r: Record): Option<uint64> {
    if r.tag == 8 && r.payload.Number? then Some(r.payload.n) else Some(n)
  }

  /** The C# reader of S_StartGame, whose one field is the enemy. */
  function CSharpStartGame(m: Option<EnemyInfo>, r: Record): Option<Option<EnemyInfo>> {
    if r.tag == 10 && r.payload.Block? then
      match ParseLoop(CSharpEnemy, GetOr(m, NO_ENEMY), r.payload.b, CSharp)
      case None => None
      case Some(e) => Some(Some(e))
    else Some(m)
  }

  // ---------------------------------------------------------------------------------------------
  // Writing: fields in number order, defaults elided, nested messages by presence
  // ---------------------------------------------------------------------------------------------

  function EnumRecord(tag: uint32, e: int32): Record {
    Record(tag, Number(EnumToWire(e)))
  }

  function StoneRecords(m: StoneInfo): seq<Record> {
    When(m.stoneType != 0, EnumRecord(8, m.stoneType))
    + (When(m.posX != 0, Record(16, Number(m.posX)))
       + When(m.posY != 0, Record(24, Number(m.posY))))
  }

  function PlayerRecords(m: PlayerInfo): seq<Record> {
    When(m.playerId != 0, Record(8, Number(m.playerId)))
    + (When(m.name != [], Record(18, Block(m.name)))
       + (When(m.playerType != 0, EnumRecord(24, m.playerType))
          + When(m.playerState != 0, EnumRecord(32, m.playerState))))
  }

  function EnemyRecords(m: EnemyInfo): seq<Record> {
    When(m.name != [], Record(10, Block(m.name)))
    + When(m.playerType != 0, EnumRecord(16, m.playerType))
  }

  function RoomRecords(m: GameRoomInfo): seq<Record> {
    When(m.roomId != 0, Record(8, Number(m.roomId)))
    + (When(m.playerType != 0, EnumRecord(16, m.playerType))
       + When(m.playerState != 0, EnumRecord(24, m.playerState)))
  }

  function LoginRecords(m: SLogin): seq<Record> {
    When(m.success, Record(8, Number(1)))
    + (When(m.error != 0, EnumRecord(16, m.error))
       + When(m.playerInfo.Some?, Record(26, Block(EmitAll(PlayerRecords(GetOr(m.playerInfo, NO_PLAYER)))))))
  }

  function PlayRecords(m: CPlayStone): seq<Record> {
    When(m.stoneInfo.Some?, Record(10, Block(EmitAll(StoneRecords(GetOr(m.stoneInfo, NO_STONE))))))
  }

  /** The lengths stay below what a reader accepts; everything else is guaranteed by the field types. */
  predicate PlayerFits(m: PlayerInfo) { |m.name| <= MAX_BLOCK }

  predicate EnemyFits(m: EnemyInfo) { |m.name| <= MAX_BLOCK }

  predicate LoginFits(m: SLogin) {
    m.playerInfo.Some? ==> PlayerFits(m.playerInfo.value) && |EmitAll(PlayerRecords(m.playerInfo.value))| <= MAX_BLOCK
  }

  // ---------------------------------------------------------------------------------------------
  // Merging, as MergeImpl and MergeFrom do it
  // ---------------------------------------------------------------------------------------------

  function MergeStone(to: StoneInfo, from: StoneInfo): StoneInfo {
    StoneInfo(
      if from.stoneType != 0 then from.stoneType else to.stoneType,
      if from.posX != 0 then from.posX else to.posX,
      if from.posY != 0 then from.posY else to.posY)
  }

  function MergePlayer(to: PlayerInfo, from: PlayerInfo): PlayerInfo {
    PlayerInfo(
      if from.playerId != 0 then from.playerId else to.playerId,
      if from.name != [] then from.name else to.name,
      if from.playerType != 0 then from.playerType else to.playerType,
      if from.playerState != 0 then from.playerState else to.playerState)
  }

  function MergeEnemy(to: EnemyInfo, from: EnemyInfo): EnemyInfo {
    EnemyInfo(
      if from.name != [] then from.name else to.name,
      if from.playerType != 0 then from.playerType else to.playerType)
  }

  function MergeRoom(to: GameRoomInfo, from: GameRoomInfo): GameRoomInfo {
    GameRoomInfo(
      if from.roomId != 0 then from.roomId else to.roomId,
      if from.playerType != 0 then from.playerType else to.playerType,
      if from.playerState != 0 then from.playerState else to.playerState)
  }

  function MergeLogin(to: SLogin, from: SLogin): SLogin {
    SLogin(
      from.success || to.success,
      if from.error != 0 then from.error else to.error,
      if from.playerInfo.Some? then Some(MergePlayer(GetOr(to.playerInfo, NO_PLAYER), from.playerInfo.value))
      else to.playerInfo)
  }

  function MergePlay(to: CPlayStone, from: CPlayStone): CPlayStone {
    CPlayStone(
      if from.stoneInfo.Some? then Some(MergeStone(GetOr(to.stoneInfo, NO_STONE), from.stoneInfo.value))
      else to.stoneInfo)
  }

  // ---------------------------------------------------------------------------------------------
  // Reading what a writer wrote is merging it in: the law that everything below follows from
  // ---------------------------------------------------------------------------------------------

  /** One field of a written message: applied when it was written, skipped when it was elided. */
  lemma {:induction false} FoldWhen<M>(apply: (M, Record) -> Option<M>, acc: M, present: bool, r: Record, next: M,
                                       rest: seq<Record>)
    requires if present then apply(acc, r) == Some(next) else next == acc
    ensures Fold(apply, acc, When(present, r) + rest) == Fold(apply, next, rest)
  {
    if present {
      FoldCons(apply, acc, r, rest);
    } else {
      assert When(present, r) + rest == rest;
    }
  }

  lemma NothingAfter(present: bool, r: Record)
    ensures When(present, r) + [] == When(present, r) && EmitAll([]) == []
  {
  }

  lemma StoneStep(m: StoneInfo, r: Record)
    ensures CppStone(m, r) == CSharpStone(m, r)
  {
    DispatchAgrees(r, 1, 8); DispatchAgrees(r, 2, 16); DispatchAgrees(r, 3, 24);
  }

  lemma PlayerStep(m: PlayerInfo, r: Record)
    ensures CppPlayer(m, r) == CSharpPlayer(m, r)
  {
    DispatchAgrees(r, 1, 8); DispatchAgrees(r, 2, 18); DispatchAgrees(r, 3, 24); DispatchAgrees(r, 4, 32);
  }

  lemma EnemyStep(m: EnemyInfo, r: Record)
    ensures CppEnemy(m, r) == CSharpEnemy(m, r)
  {
    DispatchAgrees(r, 1, 10); DispatchAgrees(r, 2, 16);
  }

  lemma RoomStep(m: GameRoomInfo, r: Record)
    ensures CppRoom(m, r) == CSharpRoom(m, r)
  {
    DispatchAgrees(r, 1, 8); DispatchAgrees(r, 2, 16); DispatchAgrees(r, 3, 24);
  }

  /** Where the C++ reader takes a record of S_Login, so does the C# reader, with the same effect. */
  lemma LoginStep(m: SLogin, r: Record)
    ensures CppLogin(m, r).Some? ==> CSharpLogin(m, r) == CppLogin(m, r)
  {
    DispatchAgrees(r, 1, 8); DispatchAgrees(r, 2, 16); DispatchAgrees(r, 3, 26);
    if r.tag == 26 && r.payload.Block? && CppLogin(m, r).Some? {
      PlayerDialects(GetOr(m.playerInfo, NO_PLAYER), r.payload.b);
    }
  }

  lemma PlayStep(m: CPlayStone, r: Record)
    ensures CppPlay(m, r).Some? ==> CSharpPlay(m, r) == CppPlay(m, r)
  {
    DispatchAgrees(r, 1, 10);
    if r.tag == 10 && r.payload.Block? && CppPlay(m, r).Some? {
      StoneDialects(GetOr(m.stoneInfo, NO_STONE), r.payload.b);
    }
  }

  // What the two readers make of a byte string, into a message that may already hold something

  function ParseStone(m: StoneInfo, b: bytes, d: Dialect): Option<StoneInfo> {
    if d.Cpp? then ParseLoop(CppStone, m, b, Cpp) else ParseLoop(CSharpStone, m, b, CSharp)
  }

  function ParsePlayer(m: PlayerInfo, b: bytes, d: Dialect): Option<PlayerInfo> {
    if d.Cpp? then ParseLoop(CppPlayer, m, b, Cpp) else ParseLoop(CSharpPlayer, m, b, CSharp)
  }

  function ParseEnemy(m: EnemyInfo, b: bytes, d: Dialect): Option<EnemyInfo> {
    if d.Cpp? then ParseLoop(CppEnemy, m, b, Cpp) else ParseLoop(CSharpEnemy, m, b, CSharp)
  }

  function ParseRoom(m: GameRoomInfo, b: bytes, d: Dialect): Option<GameRoomInfo> {
    if d.Cpp? then ParseLoop(CppRoom, m, b, Cpp) else ParseLoop(CSharpRoom, m, b, CSharp)
  }

  function ParseLogin(m: SLogin, b: bytes, d: Dialect): Option<SLogin> {
    if d.Cpp? then ParseLoop(CppLogin, m, b, Cpp) else ParseLoop(CSharpLogin, m, b, CSharp)
  }

  function ParsePlay(m: CPlayStone, b: bytes, d: Dialect): Option<CPlayStone> {
    if d.Cpp? then ParseLoop(CppPlay, m, b, Cpp) else ParseLoop(CSharpPlay, m, b, CSharp)
  }

  function SerializeStone(m: StoneInfo): bytes { EmitAll(StoneRecords(m)) }

  function SerializePlayer(m: PlayerInfo): bytes { EmitAll(PlayerRecords(m)) }

  function SerializeEnemy(m: EnemyInfo): bytes { EmitAll(EnemyRecords(m)) }

  function SerializeRoom(m: GameRoomInfo): bytes { EmitAll(RoomRecords(m)) }

  function SerializeLogin(m: SLogin): bytes { EmitAll(LoginRecords(m)) }

  function SerializePlay(m: CPlayStone): bytes { EmitAll(PlayRecords(m)) }

  // The C# reader's result is the C++ reader's wherever the C++ reader accepts, on every byte string

  lemma StoneDialects(m: StoneInfo, b: bytes)
    requires ParseStone(m, b, Cpp).Some?
    ensures ParseStone(m, b, CSharp) == ParseStone(m, b, Cpp)
  {
    forall x: StoneInfo, r: Record ensures CppStone(x, r) == CSharpStone(x, r) { StoneStep(x, r); }
    ParseLenient(CppStone, CSharpStone, m, b);
  }

  lemma PlayerDialects(m: PlayerInfo, b: bytes)
    requires ParsePlayer(m, b, Cpp).Some?
    ensures ParsePlayer(m, b, CSharp) == ParsePlayer(m, b, Cpp)
  {
    forall x: PlayerInfo, r: Record ensures CppPlayer(x, r) == CSharpPlayer(x, r) { PlayerStep(x, r); }
    ParseLenient(CppPlayer, CSharpPlayer, m, b);
  }

  lemma EnemyDialects(m: EnemyInfo, b: bytes)
    requires ParseEnemy(m, b, Cpp).Some?
    ensures ParseEnemy(m, b, CSharp) == ParseEnemy(m, b, Cpp)
  {
    forall x: EnemyInfo, r: Record ensures CppEnemy(x, r) == CSharpEnemy(x, r) { EnemyStep(x, r); }
    ParseLenient(CppEnemy, CSharpEnemy, m, b);
  }

  lemma RoomDialects(m: GameRoomInfo, b: bytes)
    requires ParseRoom(m, b, Cpp).Some?
    ensures ParseRoom(m, b, CSharp) == ParseRoom(m, b, Cpp)
  {
    forall x: GameRoomInfo, r: Record ensures CppRoom(x, r) == CSharpRoom(x, r) { RoomStep(x, r); }
    ParseLenient(CppRoom, CSharpRoom, m, b);
  }

  lemma LoginDialects(m: SLogin, b: bytes)
    requires ParseLogin(m, b, Cpp).Some?
    ensures ParseLogin(m, b, CSharp) == ParseLogin(m, b, Cpp)
  {
    forall x: SLogin, r: Record | CppLogin(x, r).Some? ensures CSharpLogin(x, r) == CppLogin(x, r) { LoginStep(x, r); }
    ParseLenient(CppLogin, CSharpLogin, m, b);
  }

  lemma PlayDialects(m: CPlayStone, b: bytes)
    requires ParsePlay(m, b, Cpp).Some?
    ensures ParsePlay(m, b, CSharp) == ParsePlay(m, b, Cpp)
  {
    forall x: CPlayStone, r: Record | CppPlay(x, r).Some? ensures CSharpPlay(x, r) == CppPlay(x, r) { PlayStep(x, r); }
    ParseLenient(CppPlay, CSharpPlay, m, b);
  }

  lemma StoneFold(to: StoneInfo, from: StoneInfo)
    ensures Fold(CppStone, to, StoneRecords(from)) == Some(MergeStone(to, from))
  {
    var r1, r2, r3 := EnumRecord(8, from.stoneType), Record(16, Number(from.posX)), Record(24, Number(from.posY));
    var p1, p2, p3 := from.stoneType != 0, from.posX != 0, from.posY != 0;
    EnumRoundTrip(from.stoneType);
    var m1 := if p1 then to.(stoneType := from.stoneType) else to;
    var m2 := if p2 then m1.(posX := from.posX) else m1;
    FoldWhen(CppStone, to, p1, r1, m1, When(p2, r2) + When(p3, r3));
    FoldWhen(CppStone, m1, p2, r2, m2, When(p3, r3));
    NothingAfter(p3, r3);
    FoldWhen(CppStone, m2, p3, r3, MergeStone(to, from), []);
  }

  lemma StoneMergeLaw(to: StoneInfo, from: StoneInfo, d: Dialect)
    ensures ParseStone(to, SerializeStone(from), d) == Some(MergeStone(to, from))
  {
    StoneFold(to, from);
    ParseOfEmit(CppStone, to, StoneRecords(from), Cpp);
    StoneDialects(to, SerializeStone(from));
  }

  /** The name must be valid UTF-8, or empty and so not written: otherwise the C++ reader refuses it. */
  lemma PlayerFold(to: PlayerInfo, from: PlayerInfo)
    ensures Fold(CppPlayer, to, PlayerRecords(from)) ==
            if ValidUtf8(from.name) then Some(MergePlayer(to, from)) else None
  {
    var r1, r2 := Record(8, Number(from.playerId)), Record(18, Block(from.name));
    var r3, r4 := EnumRecord(24, from.playerType), EnumRecord(32, from.playerState);
    var p1, p2, p3, p4 := from.playerId != 0, from.name != [], from.playerType != 0, from.playerState != 0;
    EnumRoundTrip(from.playerType); EnumRoundTrip(from.playerState);
    var m1 := if p1 then to.(playerId := from.playerId) else to;
    FoldWhen(CppPlayer, to, p1, r1, m1, When(p2, r2) + (When(p3, r3) + When(p4, r4)));
    if ValidUtf8(from.name) {
      var m2 := if p2 then m1.(name := from.name) else m1;
      var m3 := if p3 then m2.(playerType := from.playerType) else m2;
      FoldWhen(CppPlayer, m1, p2, r2, m2, When(p3, r3) + When(p4, r4));
      FoldWhen(CppPlayer, m2, p3, r3, m3, When(p4, r4));
      NothingAfter(p4, r4);
      FoldWhen(CppPlayer, m3, p4, r4, MergePlayer(to, from), []);
    } else {
      assert CppPlayer(m1, r2) == None;
    }
  }

  lemma PlayerMergeLaw(to: PlayerInfo, from: PlayerInfo, d: Dialect)
    requires PlayerFits(from)
    ensures ValidUtf8(from.name) ==> ParsePlayer(to, SerializePlayer(from), d) == Some(MergePlayer(to, from))
    ensures !ValidUtf8(from.name) ==> ParsePlayer(to, SerializePlayer(from), Cpp) == None
  {
    PlayerFold(to, from);
    ParseOfEmit(CppPlayer, to, PlayerRecords(from), Cpp);
    if ValidUtf8(from.name) { PlayerDialects(to, SerializePlayer(from)); }
  }

  lemma EnemyFold(to: EnemyInfo, from: EnemyInfo)
    ensures Fold(CppEnemy, to, EnemyRecords(from)) ==
            if ValidUtf8(from.name) then Some(MergeEnemy(to, from)) else None
  {
    var r1, r2 := Record(10, Block(from.name)), EnumRecord(16, from.playerType);
    var p1, p2 := from.name != [], from.playerType != 0;
    EnumRoundTrip(from.playerType);
    if ValidUtf8(from.name) {
      var m1 := if p1 then to.(name := from.name) else to;
      FoldWhen(CppEnemy, to, p1, r1, m1, When(p2, r2));
      NothingAfter(p2, r2);
      FoldWhen(CppEnemy, m1, p2, r2, MergeEnemy(to, from), []);
    } else {
      assert CppEnemy(to, r1) == None;
    }
  }

  lemma EnemyMergeLaw(to: EnemyInfo, from: EnemyInfo, d: Dialect)
    requires EnemyFits(from)
    ensures ValidUtf8(from.name) ==> ParseEnemy(to, SerializeEnemy(from), d) == Some(MergeEnemy(to, from))
    ensures !ValidUtf8(from.name) ==> ParseEnemy(to, SerializeEnemy(from), Cpp) == None
  {
    EnemyFold(to, from);
    ParseOfEmit(CppEnemy, to, EnemyRecords(from), Cpp);
    if ValidUtf8(from.name) { EnemyDialects(to, SerializeEnemy(from)); }
  }

  lemma RoomFold(to: GameRoomInfo, from: GameRoomInfo)
    ensures Fold(CppRoom, to, RoomRecords(from)) == Some(MergeRoom(to, from))
  {
    var r1, r2, r3 := Record(8, Number(from.roomId)), EnumRecord(16, from.playerType), EnumRecord(24, from.playerState);
    var p1, p2, p3 := from.roomId != 0, from.playerType != 0, from.playerState != 0;
    EnumRoundTrip(from.playerType); EnumRoundTrip(from.playerState);
    var m1 := if p1 then to.(roomId := from.roomId) else to;
    var m2 := if p2 then m1.(playerType := from.playerType) else m1;
    FoldWhen(CppRoom, to, p1, r1, m1, When(p2, r2) + When(p3, r3));
    FoldWhen(CppRoom, m1, p2, r2, m2, When(p3, r3));
    NothingAfter(p3, r3);
    FoldWhen(CppRoom, m2, p3, r3, MergeRoom(to, from), []);
  }

  lemma RoomMergeLaw(to: GameRoomInfo, from: GameRoomInfo, d: Dialect)
    ensures ParseRoom(to, SerializeRoom(from), d) == Some(MergeRoom(to, from))
  {
    RoomFold(to, from);
    ParseOfEmit(CppRoom, to, RoomRecords(from), Cpp);
    RoomDialects(to, SerializeRoom(from));
  }

  predicate LoginNameValid(m: SLogin) {
    m.playerInfo.Some? ==> ValidUtf8(m.playerInfo.value.name)
  }

  lemma LoginFold(to: SLogin, from: SLogin)
    requires LoginFits(from)
    ensures Fold(CppLogin, to, LoginRecords(from)) ==
            if LoginNameValid(from) then Some(MergeLogin(to, from)) else None
  {
    var player := GetOr(from.playerInfo, NO_PLAYER);
    var r1, r2, r3 := Record(8, Number(1)), EnumRecord(16, from.error), Record(26, Block(SerializePlayer(player)));
    var p1, p2, p3 := from.success, from.error != 0, from.playerInfo.Some?;
    EnumRoundTrip(from.error);
    var m1 := if p1 then to.(success := true) else to;
    var m2 := if p2 then m1.(error := from.error) else m1;
    FoldWhen(CppLogin, to, p1, r1, m1, When(p2, r2) + When(p3, r3));
    FoldWhen(CppLogin, m1, p2, r2, m2, When(p3, r3));
    if p3 {
      PlayerMergeLaw(GetOr(to.playerInfo, NO_PLAYER), player, Cpp);
      assert CppLogin(m2, r3) == if LoginNameValid(from) then Some(MergeLogin(to, from)) else None;
    }
    if LoginNameValid(from) {
      NothingAfter(p3, r3);
      FoldWhen(CppLogin, m2, p3, r3, MergeLogin(to, from), []);
    }
  }

  /** Nested player information merges into what is there, whether present in either message, both or neither. */
  lemma LoginMergeLaw(to: SLogin, from: SLogin, d: Dialect)
    requires LoginFits(from)
    ensures LoginNameValid(from) ==> ParseLogin(to, SerializeLogin(from), d) == Some(MergeLogin(to, from))
    ensures !LoginNameValid(from) ==> ParseLogin(to, SerializeLogin(from), Cpp) == None
  {
    hide EmitAll, Fold, ParseLoop, PlayerRecords;
    LoginFold(to, from);
    ParseOfEmit(CppLogin, to, LoginRecords(from), Cpp);
    if LoginNameValid(from) { LoginDialects(to, SerializeLogin(from)); }
  }

  lemma PlayFold(to: CPlayStone, from: CPlayStone)
    ensures Fold(CppPlay, to, PlayRecords(from)) == Some(MergePlay(to, from))
  {
    var stone := GetOr(from.stoneInfo, NO_STONE);
    var r := Record(10, Block(SerializeStone(stone)));
    StoneMergeLaw(GetOr(to.stoneInfo, NO_STONE), stone, Cpp);
    NothingAfter(from.stoneInfo.Some?, r);
    FoldWhen(CppPlay, to, from.stoneInfo.Some?, r, MergePlay(to, from), []);
  }

  lemma PlayMergeLaw(to: CPlayStone, from: CPlayStone, d: Dialect)
    ensures ParsePlay(to, SerializePlay(from), d) == Some(MergePlay(to, from))
  {
    hide EmitAll, StoneRecords, Fold, ParseLoop;
    PlayFold(to, from);
    StoneSize(GetOr(from.stoneInfo, NO_STONE));
    ParseOfEmit(CppPlay, to, PlayRecords(from), Cpp);
    PlayDialects(to, SerializePlay(from));
  }

  // ---------------------------------------------------------------------------------------------
  // Round trips and concatenation
  // ---------------------------------------------------------------------------------------------

  lemma StoneRoundTrip(m: StoneInfo, d: Dialect)
    ensures ParseStone(NO_STONE, SerializeStone(m), d) == Some(m)
  {
    StoneMergeLaw(NO_STONE, m, d);
  }

  lemma PlayerRoundTripIff(m: PlayerInfo)
    requires PlayerFits(m)
    ensures ParsePlayer(NO_PLAYER, SerializePlayer(m), Cpp) == Some(m) <==> ValidUtf8(m.name)
    ensures ValidUtf8(m.name) ==> ParsePlayer(NO_PLAYER, SerializePlayer(m), CSharp) == Some(m)
  {
    PlayerMergeLaw(NO_PLAYER, m, Cpp);
    PlayerMergeLaw(NO_PLAYER, m, CSharp);
  }

  lemma EnemyRoundTripIff(m: EnemyInfo)
    requires EnemyFits(m)
    ensures ParseEnemy(NO_ENEMY, SerializeEnemy(m), Cpp) == Some(m) <==> ValidUtf8(m.name)
    ensures ValidUtf8(m.name) ==> ParseEnemy(NO_ENEMY, SerializeEnemy(m), CSharp) == Some(m)
  {
    EnemyMergeLaw(NO_ENEMY, m, Cpp);
    EnemyMergeLaw(NO_ENEMY, m, CSharp);
  }

  lemma RoomRoundTrip(m: GameRoomInfo, d: Dialect)
    ensures ParseRoom(NO_ROOM, SerializeRoom(m), d) == Some(m)
  {
    RoomMergeLaw(NO_ROOM, m, d);
  }

  lemma LoginRoundTripIff(m: SLogin)
    requires LoginFits(m)
    ensures ParseLogin(NO_LOGIN, SerializeLogin(m), Cpp) == Some(m) <==> LoginNameValid(m)
    ensures LoginNameValid(m) ==> ParseLogin(NO_LOGIN, SerializeLogin(m), CSharp) == Some(m)
  {
    LoginMergeLaw(NO_LOGIN, m, Cpp);
    LoginMergeLaw(NO_LOGIN, m, CSharp);
  }

  lemma PlayRoundTrip(m: CPlayStone, d: Dialect)
    ensures ParsePlay(NO_PLAY, SerializePlay(m), d) == Some(m)
  {
    PlayMergeLaw(NO_PLAY, m, d);
  }

  /** Two written messages back to back read as the first with the second merged into it. */
  lemma StoneConcatIsMerge(m1: StoneInfo, m2: StoneInfo, d: Dialect)
    ensures ParseStone(NO_STONE, SerializeStone(m1) + SerializeStone(m2), d) == Some(MergeStone(m1, m2))
  {
    StoneRoundTrip(m1, d);
    StoneMergeLaw(m1, m2, d);
    if d.Cpp? { ParseConcat(CppStone, NO_STONE, SerializeStone(m1), SerializeStone(m2), Cpp); }
    else { ParseConcat(CSharpStone, NO_STONE, SerializeStone(m1), SerializeStone(m2), CSharp); }
  }

  lemma PlayerConcatIsMerge(m1: PlayerInfo, m2: PlayerInfo, d: Dialect)
    requires PlayerFits(m1) && PlayerFits(m2) && ValidUtf8(m1.name) && ValidUtf8(m2.name)
    ensures ParsePlayer(NO_PLAYER, SerializePlayer(m1) + SerializePlayer(m2), d) == Some(MergePlayer(m1, m2))
  {
    PlayerMergeLaw(NO_PLAYER, m1, d);
    PlayerMergeLaw(m1, m2, d);
    if d.Cpp? { ParseConcat(CppPlayer, NO_PLAYER, SerializePlayer(m1), SerializePlayer(m2), Cpp); }
    else { ParseConcat(CSharpPlayer, NO_PLAYER, SerializePlayer(m1), SerializePlayer(m2), CSharp); }
  }

  lemma EnemyConcatIsMerge(m1: EnemyInfo, m2: EnemyInfo, d: Dialect)
    requires EnemyFits(m1) && EnemyFits(m2) && ValidUtf8(m1.name) && ValidUtf8(m2.name)
    ensures ParseEnemy(NO_ENEMY, SerializeEnemy(m1) + SerializeEnemy(m2), d) == Some(MergeEnemy(m1, m2))
  {
    EnemyMergeLaw(NO_ENEMY, m1, d);
    EnemyMergeLaw(m1, m2, d);
    if d.Cpp? { ParseConcat(CppEnemy, NO_ENEMY, SerializeEnemy(m1), SerializeEnemy(m2), Cpp); }
    else { ParseConcat(CSharpEnemy, NO_ENEMY, SerializeEnemy(m1), SerializeEnemy(m2), CSharp); }
  }

  lemma RoomConcatIsMerge(m1: GameRoomInfo, m2: GameRoomInfo, d: Dialect)
    ensures ParseRoom(NO_ROOM, SerializeRoom(m1) + SerializeRoom(m2), d) == Some(MergeRoom(m1, m2))
  {
    RoomMergeLaw(NO_ROOM, m1, d);
    RoomMergeLaw(m1, m2, d);
    if d.Cpp? { ParseConcat(CppRoom, NO_ROOM, SerializeRoom(m1), SerializeRoom(m2), Cpp); }
    else { ParseConcat(CSharpRoom, NO_ROOM, SerializeRoom(m1), SerializeRoom(m2), CSharp); }
  }

  lemma LoginConcatIsMerge(m1: SLogin, m2: SLogin, d: Dialect)
    requires LoginFits(m1) && LoginFits(m2) && LoginNameValid(m1) && LoginNameValid(m2)
    ensures ParseLogin(NO_LOGIN, SerializeLogin(m1) + SerializeLogin(m2), d) == Some(MergeLogin(m1, m2))
  {
    hide SerializeLogin, CppLogin, CSharpLogin, ParseLoop, LoginFits;
    LoginMergeLaw(NO_LOGIN, m1, d);
    LoginMergeLaw(m1, m2, d);
    if d.Cpp? { ParseConcat(CppLogin, NO_LOGIN, SerializeLogin(m1), SerializeLogin(m2), Cpp); }
    else { ParseConcat(CSharpLogin, NO_LOGIN, SerializeLogin(m1), SerializeLogin(m2), CSharp); }
  }

  lemma PlayConcatIsMerge(m1: CPlayStone, m2: CPlayStone, d: Dialect)
    ensures ParsePlay(NO_PLAY, SerializePlay(m1) + SerializePlay(m2), d) == Some(MergePlay(m1, m2))
  {
    PlayMergeLaw(NO_PLAY, m1, d);
    PlayMergeLaw(m1, m2, d);
    if d.Cpp? { ParseConcat(CppPlay, NO_PLAY, SerializePlay(m1), SerializePlay(m2), Cpp); }
    else { ParseConcat(CSharpPlay, NO_PLAY, SerializePlay(m1), SerializePlay(m2), CSharp); }
  }

  // ---------------------------------------------------------------------------------------------
  // Sizes: ByteSizeLong adds the fields up in storage order, the writer writes them in number order
  // ---------------------------------------------------------------------------------------------

  function Add(present: bool, size: nat): nat {
    if present then size else 0
  }

  /** A length-delimited value: its length prefix and itself. */
  function LengthDelimitedSize(n: nat): nat {
    VarintSize(n) + n
  }

  function ByteSizeStone(m: StoneInfo): nat {
    Add(m.stoneType != 0, 1 + VarintSize(EnumToWire(m.stoneType)))
    + Add(m.posX != 0, 1 + VarintSize(m.posX))
    + Add(m.posY != 0, 1 + VarintSize(m.posY))
  }

  function ByteSizePlayer(m: PlayerInfo): nat {
    Add(m.name != [], 1 + LengthDelimitedSize(|m.name|))
    + Add(m.playerId != 0, 1 + VarintSize(m.playerId))
    + Add(m.playerType != 0, 1 + VarintSize(EnumToWire(m.playerType)))
    + Add(m.playerState != 0, 1 + VarintSize(EnumToWire(m.playerState)))
  }

  function ByteSizeEnemy(m: EnemyInfo): nat {
    Add(m.name != [], 1 + LengthDelimitedSize(|m.name|))
    + Add(m.playerType != 0, 1 + VarintSize(EnumToWire(m.playerType)))
  }

  function ByteSizeRoom(m: GameRoomInfo): nat {
    Add(m.roomId != 0, 1 + VarintSize(m.roomId))
    + Add(m.playerType != 0, 1 + VarintSize(EnumToWire(m.playerType)))
    + Add(m.playerState != 0, 1 + VarintSize(EnumToWire(m.playerState)))
  }

  function ByteSizeLogin(m: SLogin): nat {
    Add(m.playerInfo.Some?, 1 + LengthDelimitedSize(ByteSizePlayer(GetOr(m.playerInfo, NO_PLAYER))))
    + Add(m.success, 1 + 1)
    + Add(m.error != 0, 1 + VarintSize(EnumToWire(m.error)))
  }

  function ByteSizePlay(m: CPlayStone): nat {
    Add(m.stoneInfo.Some?, 1 + LengthDelimitedSize(ByteSizeStone(GetOr(m.stoneInfo, NO_STONE))))
  }

  lemma {:induction false} EmitWhen(present: bool, r: Record, rest: seq<Record>)
    requires r.tag < 128
    ensures |EmitAll(When(present, r) + rest)| == Add(present, |Emit(r)|) + |EmitAll(rest)|
    ensures |EmitAll(When(present, r))| == Add(present, |Emit(r)|)
    ensures r.payload.Number? ==> |Emit(r)| == 1 + VarintSize(r.payload.n)
    ensures r.payload.Block? && |r.payload.b| < TWO64 ==> |Emit(r)| == 1 + LengthDelimitedSize(|r.payload.b|)
  {
    assert present ==> EmitAll(When(present, r)) == Emit(r) + EmitAll([]);
    EmitAllAppend(When(present, r), rest);
    if r.payload.Number? { VarintSizeIsLength(r.payload.n); }
    if r.payload.Block? && |r.payload.b| < TWO64 { VarintSizeIsLength(|r.payload.b|); }
  }

  lemma StoneSize(m: StoneInfo)
    ensures ByteSizeStone(m) == |SerializeStone(m)| <= 23
  {
    var r1, r2, r3 := EnumRecord(8, m.stoneType), Record(16, Number(m.posX)), Record(24, Number(m.posY));
    EmitWhen(m.stoneType != 0, r1, When(m.posX != 0, r2) + When(m.posY != 0, r3));
    EmitWhen(m.posX != 0, r2, When(m.posY != 0, r3));
    EmitWhen(m.posY != 0, r3, []);
    VarintSizeIsLength(EnumToWire(m.stoneType)); VarintSizeIsLength(m.posX); VarintSizeIsLength(m.posY);
  }

  lemma PlayerSize(m: PlayerInfo)
    requires PlayerFits(m)
    ensures ByteSizePlayer(m) == |SerializePlayer(m)|
  {
    hide EmitAll, Encode, VarintSize;
    var r1, r2 := Record(8, Number(m.playerId)), Record(18, Block(m.name));
    var r3, r4 := EnumRecord(24, m.playerType), EnumRecord(32, m.playerState);
    var w3, w4 := When(m.playerType != 0, r3), When(m.playerState != 0, r4);
    EmitWhen(m.playerId != 0, r1, When(m.name != [], r2) + (w3 + w4));
    EmitWhen(m.name != [], r2, w3 + w4);
    EmitWhen(m.playerType != 0, r3, w4);
    EmitWhen(m.playerState != 0, r4, []);
  }

  lemma EnemySize(m: EnemyInfo)
    requires EnemyFits(m)
    ensures ByteSizeEnemy(m) == |SerializeEnemy(m)|
  {
    EmitWhen(m.name != [], Record(10, Block(m.name)), When(m.playerType != 0, EnumRecord(16, m.playerType)));
    EmitWhen(m.playerType != 0, EnumRecord(16, m.playerType), []);
  }

  lemma RoomSize(m: GameRoomInfo)
    ensures ByteSizeRoom(m) == |SerializeRoom(m)|
  {
    var r1, r2, r3 := Record(8, Number(m.roomId)), EnumRecord(16, m.playerType), EnumRecord(24, m.playerState);
    EmitWhen(m.roomId != 0, r1, When(m.playerType != 0, r2) + When(m.playerState != 0, r3));
    EmitWhen(m.playerType != 0, r2, When(m.playerState != 0, r3));
    EmitWhen(m.playerState != 0, r3, []);
  }

  lemma LoginSize(m: SLogin)
    requires LoginFits(m)
    ensures ByteSizeLogin(m) == |SerializeLogin(m)|
  {
    hide EmitAll, Encode, VarintSize;
    var player := GetOr(m.playerInfo, NO_PLAYER);
    PlayerSize(player);
    var r1, r2, r3 := Record(8, Number(1)), EnumRecord(16, m.error), Record(26, Block(SerializePlayer(player)));
    EmitWhen(m.success, r1, When(m.error != 0, r2) + When(m.playerInfo.Some?, r3));
    EmitWhen(m.error != 0, r2, When(m.playerInfo.Some?, r3));
    EmitWhen(m.playerInfo.Some?, r3, []);
    OneByteSize(1);
  }

  lemma PlaySize(m: CPlayStone)
    ensures ByteSizePlay(m) == |SerializePlay(m)| <= 25
  {
    match m.stoneInfo {
      case None =>
      case Some(stone) =>
        StoneSize(stone);
        ShortBlock(10, SerializeStone(stone));
        assert PlayRecords(m) == [Record(10, Block(SerializeStone(stone)))];
    }
  }

  lemma OneByteSize(n: nat)
    requires n < 128
    ensures VarintSize(n) == 1
  {
    VarintSizeIsLength(n);
  }

  lemma ShortBlock(tag: uint32, b: bytes)
    requires tag < 128 && |b| < 128
    ensures |EmitAll([Record(tag, Block(b))])| == 2 + |b| && VarintSize(|b|) == 1
  {
    VarintSizeIsLength(|b|);
    assert EmitAll([Record(tag, Block(b))]) == Emit(Record(tag, Block(b))) + EmitAll([]);
  }

  // ---------------------------------------------------------------------------------------------
  // The written bytes spelled out, and the length prefix taken from a cached size
  // ---------------------------------------------------------------------------------------------

  function Optional(present: bool, b: bytes): bytes {
    if present then b else []
  }

  lemma StoneLayout(m: StoneInfo)
    ensures SerializeStone(m) ==
            Optional(m.stoneType != 0, [8] + Encode(EnumToWire(m.stoneType)))
            + Optional(m.posX != 0, [16] + Encode(m.posX))
            + Optional(m.posY != 0, [24] + Encode(m.posY))
  {
    var r1, r2, r3 := EnumRecord(8, m.stoneType), Record(16, Number(m.posX)), Record(24, Number(m.posY));
    EmitOptional(m.stoneType != 0, r1, When(m.posX != 0, r2) + When(m.posY != 0, r3));
    EmitOptional(m.posX != 0, r2, When(m.posY != 0, r3));
    EmitOptional(m.posY != 0, r3, []);
    NothingAfter(m.posY != 0, r3);
    Assoc3(Optional(m.stoneType != 0, Emit(r1)), Optional(m.posX != 0, Emit(r2)), Optional(m.posY != 0, Emit(r3)));
  }

  lemma PlayerLayout(m: PlayerInfo)
    ensures SerializePlayer(m) ==
            Optional(m.playerId != 0, [8] + Encode(m.playerId))
            + Optional(m.name != [], [18] + Encode(|m.name|) + m.name)
            + Optional(m.playerType != 0, [24] + Encode(EnumToWire(m.playerType)))
            + Optional(m.playerState != 0, [32] + Encode(EnumToWire(m.playerState)))
  {
    hide EmitAll, Emit, Encode;
    var r1, r2 := Record(8, Number(m.playerId)), Record(18, Block(m.name));
    var r3, r4 := EnumRecord(24, m.playerType), EnumRecord(32, m.playerState);
    var w3, w4 := When(m.playerType != 0, r3), When(m.playerState != 0, r4);
    EmitOptional(m.playerId != 0, r1, When(m.name != [], r2) + (w3 + w4));
    EmitOptional(m.name != [], r2, w3 + w4);
    EmitOptional(m.playerType != 0, r3, w4);
    EmitOptional(m.playerState != 0, r4, []);
    NothingAfter(m.playerState != 0, r4);
    EmitOneByteTag(r1); EmitOneByteTag(r2); EmitOneByteTag(r3); EmitOneByteTag(r4);
    Assoc4(Optional(m.playerId != 0, Emit(r1)), Optional(m.name != [], Emit(r2)),
           Optional(m.playerType != 0, Emit(r3)), Optional(m.playerState != 0, Emit(r4)));
  }

  lemma EmitOneByteTag(r: Record)
    requires r.tag < 128
    ensures r.payload.Number? ==> Emit(r) == [r.tag] + Encode(r.payload.n)
    ensures r.payload.Block? ==> Emit(r) == [r.tag] + Encode(|r.payload.b|) + r.payload.b
  {
    if r.payload.Block? { Assoc3([r.tag], Encode(|r.payload.b|), r.payload.b); }
  }

  lemma {:induction false} EmitOptional(present: bool, r: Record, rest: seq<Record>)
    ensures EmitAll(When(present, r) + rest) == Optional(present, Emit(r)) + EmitAll(rest)
  {
    EmitAllAppend(When(present, r), rest);
    assert present ==> EmitAll(When(present, r)) == Emit(r) + EmitAll([]);
  }

  /** A submessage of S_Login as the writer puts it: the prefix is a stored number, not a measurement. */
  function PlayerBlock(p: PlayerInfo, prefix: nat): bytes {
    Encode(26) + Encode(prefix) + SerializePlayer(p)
  }

  function LoginWithPrefix(m: SLogin, prefix: nat): bytes {
    LoginScalars(m) + if m.playerInfo.Some? then PlayerBlock(m.playerInfo.value, prefix) else []
  }

  lemma EmitPlayerBlock(p: PlayerInfo)
    ensures EmitAll([Record(26, Block(SerializePlayer(p)))]) == PlayerBlock(p, |SerializePlayer(p)|)
  {
    var b := SerializePlayer(p);
    var r := Record(26, Block(b));
    assert EmitAll([r]) == Emit(r) + EmitAll([]);
    Assoc3(Encode(26), Encode(|b|), b);
  }

  lemma LoginPrefixSplit(m: SLogin, p: PlayerInfo)
    requires m.playerInfo == Some(p)
    ensures SerializeLogin(m) == LoginWithPrefix(m, |SerializePlayer(p)|)
  {
    var w1, w2 := When(m.success, Record(8, Number(1))), When(m.error != 0, EnumRecord(16, m.error));
    var w3 := [Record(26, Block(SerializePlayer(p)))];
    assert LoginRecords(m) == (w1 + w2) + w3;
    EmitAllAppend(w1 + w2, w3);
    EmitPlayerBlock(p);
  }

  lemma EncodeInjective(x: uint64, y: uint64, tail: bytes)
    requires Encode(x) + tail == Encode(y) + tail
    ensures x == y
  {
    ReadsOfEncode(x, tail);
    ReadsOfEncode(y, tail);
  }

  function LoginScalars(m: SLogin): bytes {
    EmitAll(When(m.success, Record(8, Number(1))) + When(m.error != 0, EnumRecord(16, m.error)))
  }

  lemma PrefixDecides(head: bytes, p: PlayerInfo, x: uint64, y: uint64)
    requires head + PlayerBlock(p, x) == head + PlayerBlock(p, y)
    ensures x == y
  {
    DropHead(head, PlayerBlock(p, x), PlayerBlock(p, y));
    var s := SerializePlayer(p);
    Assoc3(Encode(26), Encode(x), s);
    Assoc3(Encode(26), Encode(y), s);
    DropHead(Encode(26), Encode(x) + s, Encode(y) + s);
    EncodeInjective(x, y, s);
  }

  /** The written S_Login is right exactly when the submessage's cached size is up to date. */
  lemma CachedPrefixRightIff(m: SLogin, prefix: uint64)
    requires LoginFits(m)
    ensures LoginWithPrefix(m, prefix) == SerializeLogin(m) <==>
            m.playerInfo.None? || prefix == ByteSizePlayer(m.playerInfo.value)
  {
    match m.playerInfo {
      case None =>
        assert When(false, Record(26, Block(SerializePlayer(NO_PLAYER)))) == [];
        assert LoginRecords(m) == When(m.success, Record(8, Number(1))) + When(m.error != 0, EnumRecord(16, m.error));
      case Some(p) =>
        PlayerSize(p);
        LoginPrefixSplit(m, p);
        if LoginWithPrefix(m, prefix) == SerializeLogin(m) {
          PrefixDecides(LoginScalars(m), p, prefix, |SerializePlayer(p)|);
        }
    }
  }

  lemma DropHead(head: bytes, x: bytes, y: bytes)
    requires head + x == head + y
    ensures x == y
  {
    assert x == (head + x)[|head|..] && y == (head + y)[|head|..];
  }

  /** A bool on the wire is any number; it is true unless that number is zero. */
  lemma BoolIsNonzero(m: SLogin, n: uint64, d: Dialect)
    ensures ParseLogin(m, Emit(Record(8, Number(n))), d) == Some(m.(success := n != 0))
  {
    hide Emit, ReadRecord;
    var r := Record(8, Number(n));
    ReadRecordOfEmit(r, d, []);
    assert Emit(r) + [] == Emit(r);
    assert CppLogin(m, r) == CSharpLogin(m, r) == Some(m.(success := n != 0));
    assert ParseLoop(CppLogin, m.(success := n != 0), [], Cpp) == Some(m.(success := n != 0));
    assert ParseLoop(CSharpLogin, m.(success := n != 0), [], CSharp) == Some(m.(success := n != 0));
  }

  lemma EnemyLayout(m: EnemyInfo)
    ensures SerializeEnemy(m) ==
            Optional(m.name != [], [10] + Encode(|m.name|) + m.name)
            + Optional(m.playerType != 0, [16] + Encode(EnumToWire(m.playerType)))
  {
    hide EmitAll, Emit, Encode;
    var r1, r2 := Record(10, Block(m.name)), EnumRecord(16, m.playerType);
    EmitOptional(m.name != [], r1, When(m.playerType != 0, r2));
    EmitOptional(m.playerType != 0, r2, []);
    NothingAfter(m.playerType != 0, r2);
    EmitOneByteTag(r1); EmitOneByteTag(r2);
  }

  lemma RoomLayout(m: GameRoomInfo)
    ensures SerializeRoom(m) ==
            Optional(m.roomId != 0, [8] + Encode(m.roomId))
            + Optional(m.playerType != 0, [16] + Encode(EnumToWire(m.playerType)))
            + Optional(m.playerState != 0, [24] + Encode(EnumToWire(m.playerState)))
  {
    hide EmitAll, Emit, Encode;
    var r1, r2, r3 := Record(8, Number(m.roomId)), EnumRecord(16, m.playerType), EnumRecord(24, m.playerState);
    EmitOptional(m.roomId != 0, r1, When(m.playerType != 0, r2) + When(m.playerState != 0, r3));
    EmitOptional(m.playerType != 0, r2, When(m.playerState != 0, r3));
    EmitOptional(m.playerState != 0, r3, []);
    NothingAfter(m.playerState != 0, r3);
    EmitOneByteTag(r1); EmitOneByteTag(r2); EmitOneByteTag(r3);
    Assoc3(Optional(m.roomId != 0, Emit(r1)), Optional(m.playerType != 0, Emit(r2)),
           Optional(m.playerState != 0, Emit(r3)));
  }

  lemma LoginLayout(m: SLogin)
    ensures SerializeLogin(m) ==
            Optional(m.success, [8, 1])
            + Optional(m.error != 0, [16] + Encode(EnumToWire(m.error)))
            + match m.playerInfo
              case None => []
              case Some(p) => [26] + Encode(|SerializePlayer(p)|) + SerializePlayer(p)
  {
    hide EmitAll, Emit, Encode;
    var p := SerializePlayer(GetOr(m.playerInfo, NO_PLAYER));
    var r1, r2, r3 := Record(8, Number(1)), EnumRecord(16, m.error), Record(26, Block(p));
    var w3 := When(m.playerInfo.Some?, r3);
    EmitOptional(m.success, r1, When(m.error != 0, r2) + w3);
    EmitOptional(m.error != 0, r2, w3);
    EmitOptional(m.playerInfo.Some?, r3, []);
    NothingAfter(m.playerInfo.Some?, r3);
    EmitOneByteTag(r1); EmitOneByteTag(r2); EmitOneByteTag(r3);
    EncodeOne();
    Assoc3(Optional(m.success, Emit(r1)), Optional(m.error != 0, Emit(r2)), Optional(m.playerInfo.Some?, Emit(r3)));
  }

  lemma EncodeOne()
    ensures [8] + Encode(1) == [8, 1]
  {
  }

  lemma PlayLayout(stone: StoneInfo)
    ensures SerializePlay(CPlayStone(Some(stone))) ==
            [10] + Encode(|SerializeStone(stone)|) + SerializeStone(stone)
  {
    var r := Record(10, Block(SerializeStone(stone)));
    assert PlayRecords(CPlayStone(Some(stone))) == [r];
    assert EmitAll([r]) == Emit(r) + EmitAll([]);
    Assoc3([10], Encode(|SerializeStone(stone)|), SerializeStone(stone));
  }
}
