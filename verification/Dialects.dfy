/**
 The C++ and the C# reader on the same bytes: fields in any order, exactly which inputs only C# accepts, and a
 concrete one.
 */
module Dialects {
  import opened Bytes
  import opened Varint
  import opened Wire
  import opened Messages

  // ---------------------------------------------------------------------------------------------
  // Any order of the fields
  // ---------------------------------------------------------------------------------------------

  /** What one written record of StoneInfo does to any message. */
  lemma StoneTakes(m: StoneInfo, x: StoneInfo, r: Record)
    requires r in StoneRecords(m)
    ensures CppStone(x, r) ==
            if r.tag == 8 then Some(x.(stoneType := m.stoneType))
            else if r.tag == 16 then Some(x.(posX := m.posX))
            else Some(x.(posY := m.posY))
  {
    StoneTags(m, r);
    EnumRoundTrip(m.stoneType);
    SmallMod(m.posX, TWO32); SmallMod(m.posY, TWO32);
  }

  lemma StoneCommute(m: StoneInfo)
    ensures Commute(CppStone, Elements(StoneRecords(m)))
  {
    forall x: StoneInfo, r: Record, q: Record | r in StoneRecords(m) && q in StoneRecords(m)
      ensures CppStone(x, r).Some? && CppStone(x, q).Some?
      ensures CppStone(CppStone(x, r).value, q).Some?
      ensures CppStone(CppStone(x, r).value, q) == CppStone(CppStone(x, q).value, r)
    {
      StoneTakes(m, x, r); StoneTakes(m, x, q);
      StoneTakes(m, CppStone(x, r).value, q); StoneTakes(m, CppStone(x, q).value, r);
    }
  }

  lemma StoneTags(m: StoneInfo, r: Record)
    requires r in StoneRecords(m)
    ensures r in {EnumRecord(8, m.stoneType), Record(16, Number(m.posX)), Record(24, Number(m.posY))}
    ensures Emittable(r)
  {
  }

  lemma PlayerTags(m: PlayerInfo, r: Record)
    requires r in PlayerRecords(m) && PlayerFits(m)
    ensures r in {Record(8, Number(m.playerId)), Record(18, Block(m.name)), EnumRecord(24, m.playerType),
                  EnumRecord(32, m.playerState)}
    ensures Emittable(r)
  {
  }

  /** What one written record of PlayerInfo does to any message. */
  lemma PlayerTakes(m: PlayerInfo, x: PlayerInfo, r: Record)
    requires r in PlayerRecords(m) && PlayerFits(m) && ValidUtf8(m.name)
    ensures CppPlayer(x, r) ==
            if r.tag == 8 then Some(x.(playerId := m.playerId))
            else if r.tag == 18 then Some(x.(name := m.name))
            else if r.tag == 24 then Some(x.(playerType := m.playerType))
            else Some(x.(playerState := m.playerState))
  {
    PlayerTags(m, r);
    EnumRoundTrip(m.playerType); EnumRoundTrip(m.playerState);
  }

  lemma PlayerCommute(m: PlayerInfo)
    requires PlayerFits(m) && ValidUtf8(m.name)
    ensures Commute(CppPlayer, Elements(PlayerRecords(m)))
  {
    forall x: PlayerInfo, r: Record, q: Record | r in PlayerRecords(m) && q in PlayerRecords(m)
      ensures CppPlayer(x, r).Some? && CppPlayer(x, q).Some?
      ensures CppPlayer(CppPlayer(x, r).value, q).Some?
      ensures CppPlayer(CppPlayer(x, r).value, q) == CppPlayer(CppPlayer(x, q).value, r)
    {
      PlayerTakes(m, x, r); PlayerTakes(m, x, q);
      PlayerTakes(m, CppPlayer(x, r).value, q); PlayerTakes(m, CppPlayer(x, q).value, r);
    }
  }

  lemma {:induction false} SameElements(rs: seq<Record>, qs: seq<Record>, r: Record)
    requires multiset(rs) == multiset(qs) && r in qs
    ensures r in rs
  {
    assert r in multiset(rs);
  }

  /** Every order of the written fields reads as the same message, in both languages. */
  lemma {:induction false} StoneAnyOrder(to: StoneInfo, m: StoneInfo, qs: seq<Record>, d: Dialect)
    requires multiset(qs) == multiset(StoneRecords(m))
    ensures ParseStone(to, EmitAll(qs), d) == Some(MergeStone(to, m))
  {
    forall i | 0 <= i < |qs| ensures Emittable(qs[i]) {
      SameElements(StoneRecords(m), qs, qs[i]); StoneTags(m, qs[i]);
    }
    ParseOfEmit(CppStone, to, qs, Cpp);
    StoneCommute(m);
    FoldPermutation(CppStone, to, Elements(StoneRecords(m)), StoneRecords(m), qs);
    StoneFold(to, m);
    StoneDialects(to, EmitAll(qs));
  }

  lemma {:induction false} PlayerAnyOrder(to: PlayerInfo, m: PlayerInfo, qs: seq<Record>, d: Dialect)
    requires multiset(qs) == multiset(PlayerRecords(m)) && PlayerFits(m) && ValidUtf8(m.name)
    ensures ParsePlayer(to, EmitAll(qs), d) == Some(MergePlayer(to, m))
  {
    forall i | 0 <= i < |qs| ensures Emittable(qs[i]) {
      SameElements(PlayerRecords(m), qs, qs[i]); PlayerTags(m, qs[i]);
    }
    ParseOfEmit(CppPlayer, to, qs, Cpp);
    PlayerCommute(m);
    FoldPermutation(CppPlayer, to, Elements(PlayerRecords(m)), PlayerRecords(m), qs);
    PlayerFold(to, m);
    PlayerDialects(to, EmitAll(qs));
  }

  // The two remaining flat messages: what a record does, that two commute, any order

  lemma EnemyTakes(m: EnemyInfo, x: EnemyInfo, r: Record)
    requires r in EnemyRecords(m) && EnemyFits(m) && ValidUtf8(m.name)
    ensures Emittable(r)
    ensures CppEnemy(x, r) ==
            if r.tag == 10 then Some(x.(name := m.name)) else Some(x.(playerType := m.playerType))
  {
    assert r in {Record(10, Block(m.name)), EnumRecord(16, m.playerType)};
    EnumRoundTrip(m.playerType);
  }

  lemma {:induction false} EnemyAnyOrder(to: EnemyInfo, m: EnemyInfo, qs: seq<Record>, d: Dialect)
    requires multiset(qs) == multiset(EnemyRecords(m)) && EnemyFits(m) && ValidUtf8(m.name)
    ensures ParseEnemy(to, EmitAll(qs), d) == Some(MergeEnemy(to, m))
  {
    forall i | 0 <= i < |qs| ensures Emittable(qs[i]) {
      SameElements(EnemyRecords(m), qs, qs[i]); EnemyTakes(m, to, qs[i]);
    }
    forall x: EnemyInfo, r: Record, q: Record | r in EnemyRecords(m) && q in EnemyRecords(m)
      ensures CppEnemy(x, r).Some? && CppEnemy(x, q).Some?
      ensures CppEnemy(CppEnemy(x, r).value, q) == CppEnemy(CppEnemy(x, q).value, r)
    {
      EnemyTakes(m, x, r); EnemyTakes(m, x, q);
      EnemyTakes(m, CppEnemy(x, r).value, q); EnemyTakes(m, CppEnemy(x, q).value, r);
    }
    ParseOfEmit(CppEnemy, to, qs, Cpp);
    FoldPermutation(CppEnemy, to, Elements(EnemyRecords(m)), EnemyRecords(m), qs);
    EnemyFold(to, m);
    EnemyDialects(to, EmitAll(qs));
  }

  lemma RoomTakes(m: GameRoomInfo, x: GameRoomInfo, r: Record)
    requires r in RoomRecords(m)
    ensures Emittable(r)
    ensures CppRoom(x, r) ==
            if r.tag == 8 then Some(x.(roomId := m.roomId))
            else if r.tag == 16 then Some(x.(playerType := m.playerType))
            else Some(x.(playerState := m.playerState))
  {
    assert r in {Record(8, Number(m.roomId)), EnumRecord(16, m.playerType), EnumRecord(24, m.playerState)};
    EnumRoundTrip(m.playerType); EnumRoundTrip(m.playerState);
  }

  lemma {:induction false} RoomAnyOrder(to: GameRoomInfo, m: GameRoomInfo, qs: seq<Record>, d: Dialect)
    requires multiset(qs) == multiset(RoomRecords(m))
    ensures ParseRoom(to, EmitAll(qs), d) == Some(MergeRoom(to, m))
  {
    forall i | 0 <= i < |qs| ensures Emittable(qs[i]) {
      SameElements(RoomRecords(m), qs, qs[i]); RoomTakes(m, to, qs[i]);
    }
    forall x: GameRoomInfo, r: Record, q: Record | r in RoomRecords(m) && q in RoomRecords(m)
      ensures CppRoom(x, r).Some? && CppRoom(x, q).Some?
      ensures CppRoom(CppRoom(x, r).value, q) == CppRoom(CppRoom(x, q).value, r)
    {
      RoomTakes(m, x, r); RoomTakes(m, x, q);
      RoomTakes(m, CppRoom(x, r).value, q); RoomTakes(m, CppRoom(x, q).value, r);
    }
    ParseOfEmit(CppRoom, to, qs, Cpp);
    FoldPermutation(CppRoom, to, Elements(RoomRecords(m)), RoomRecords(m), qs);
    RoomFold(to, m);
    RoomDialects(to, EmitAll(qs));
  }

  // Nested messages: the fields of the nested message and the fields around it, each in any order

  /** The order of the records does not change how long they are. */
  lemma {:induction false} SameLength(rs: seq<Record>, qs: seq<Record>)
    requires multiset(rs) == multiset(qs)
    ensures |EmitAll(rs)| == |EmitAll(qs)|
    decreases |rs|
  {
    if rs == [] {
      assert |multiset(qs)| == 0;
    } else {
      assert rs == [rs[0]] + rs[1..];
      var pre, post := SplitAround(rs[0], rs[1..], qs);
      SameLength(rs[1..], pre + post);
      assert ([rs[0]] + post)[1..] == post;
      assert EmitAll([rs[0]] + post) == Emit(rs[0]) + EmitAll(post) && EmitAll(rs) == Emit(rs[0]) + EmitAll(rs[1..]);
      hide EmitAll, Emit;
      EmitAllAppend(pre, [rs[0]] + post);
      EmitAllAppend(pre, post);
      assert pre + [rs[0]] + post == pre + ([rs[0]] + post);
    }
  }

  /** The fields of S_Login, with the nested player's fields in the order `ps`. */
  function LoginRecordsWith(m: SLogin, ps: seq<Record>): seq<Record> {
    When(m.success, Record(8, Number(1)))
    + (When(m.error != 0, EnumRecord(16, m.error))
       + When(m.playerInfo.Some?, Record(26, Block(EmitAll(ps)))))
  }

  /** A good login whose nested player's fields are written in the order `ps`. */
  predicate LoginOrder(m: SLogin, ps: seq<Record>) {
    && LoginFits(m) && LoginNameValid(m)
    && (m.playerInfo.Some? ==> multiset(ps) == multiset(PlayerRecords(m.playerInfo.value)))
  }

  function LoginParts(m: SLogin, ps: seq<Record>): set<Record> {
    {Record(8, Number(1)), EnumRecord(16, m.error), Record(26, Block(EmitAll(ps)))}
  }

  lemma {:induction false} LoginTags(m: SLogin, ps: seq<Record>, r: Record)
    requires r in LoginRecordsWith(m, ps) && LoginOrder(m, ps)
    ensures r in LoginParts(m, ps) && Emittable(r)
    ensures r.tag == 26 ==> m.playerInfo.Some?
  {
    hide EmitAll, PlayerRecords;
    if r.tag == 26 { SameLength(ps, PlayerRecords(m.playerInfo.value)); }
  }

  /** What one written record of S_Login does to any message. */
  lemma {:induction false} LoginTakes(m: SLogin, ps: seq<Record>, x: SLogin, r: Record)
    requires LoginOrder(m, ps)
    requires r in LoginParts(m, ps) && (r.tag == 26 ==> m.playerInfo.Some?)
    ensures CppLogin(x, r) ==
            if r.tag == 8 then Some(x.(success := true))
            else if r.tag == 16 then Some(x.(error := m.error))
            else Some(x.(playerInfo := Some(MergePlayer(GetOr(x.playerInfo, NO_PLAYER), m.playerInfo.value))))
  {
    hide EmitAll, PlayerRecords, ParseLoop;
    EnumRoundTrip(m.error);
    if r.tag == 26 {
      PlayerAnyOrder(GetOr(x.playerInfo, NO_PLAYER), m.playerInfo.value, ps, Cpp);
    }
  }

  lemma {:induction false} LoginCommute(m: SLogin, ps: seq<Record>)
    requires LoginOrder(m, ps)
    ensures Commute(CppLogin, Elements(LoginRecordsWith(m, ps)))
  {
    hide CppLogin, EmitAll;
    forall x: SLogin, r: Record, q: Record | r in LoginRecordsWith(m, ps) && q in LoginRecordsWith(m, ps)
      ensures CppLogin(x, r).Some? && CppLogin(x, q).Some?
      ensures CppLogin(CppLogin(x, r).value, q) == CppLogin(CppLogin(x, q).value, r)
    {
      LoginTags(m, ps, r); LoginTags(m, ps, q);
      LoginTakes(m, ps, x, r); LoginTakes(m, ps, x, q);
      LoginTakes(m, ps, CppLogin(x, r).value, q); LoginTakes(m, ps, CppLogin(x, q).value, r);
    }
  }

  lemma {:induction false} LoginFoldWith(to: SLogin, m: SLogin, ps: seq<Record>)
    requires LoginOrder(m, ps)
    ensures Fold(CppLogin, to, LoginRecordsWith(m, ps)) == Some(MergeLogin(to, m))
  {
    hide CppLogin, EmitAll;
    var r1, r2, r3 := Record(8, Number(1)), EnumRecord(16, m.error), Record(26, Block(EmitAll(ps)));
    var p1, p2, p3 := m.success, m.error != 0, m.playerInfo.Some?;
    var m1 := if p1 then to.(success := true) else to;
    var m2 := if p2 then m1.(error := m.error) else m1;
    LoginTakes(m, ps, to, r1);
    LoginTakes(m, ps, m1, r2);
    if p3 { LoginTakes(m, ps, m2, r3); }
    FoldWhen(CppLogin, to, p1, r1, m1, When(p2, r2) + When(p3, r3));
    FoldWhen(CppLogin, m1, p2, r2, m2, When(p3, r3));
    NothingAfter(p3, r3);
    FoldWhen(CppLogin, m2, p3, r3, MergeLogin(to, m), []);
  }

  lemma {:induction false} LoginAnyOrder(to: SLogin, m: SLogin, ps: seq<Record>, qs: seq<Record>, d: Dialect)
    requires LoginOrder(m, ps) && multiset(qs) == multiset(LoginRecordsWith(m, ps))
    ensures ParseLogin(to, EmitAll(qs), d) == Some(MergeLogin(to, m))
  {
    forall i | 0 <= i < |qs| ensures Emittable(qs[i]) {
      SameElements(LoginRecordsWith(m, ps), qs, qs[i]); LoginTags(m, ps, qs[i]);
    }
    ParseOfEmit(CppLogin, to, qs, Cpp);
    LoginCommute(m, ps);
    FoldPermutation(CppLogin, to, Elements(LoginRecordsWith(m, ps)), LoginRecordsWith(m, ps), qs);
    LoginFoldWith(to, m, ps);
    LoginDialects(to, EmitAll(qs));
  }

  /** C_PlayStone has one field; the nested stone's fields may come in any order. */
  lemma {:induction false} PlayAnyOrder(to: CPlayStone, stone: StoneInfo, ss: seq<Record>, d: Dialect)
    requires multiset(ss) == multiset(StoneRecords(stone))
    ensures ParsePlay(to, EmitAll([Record(10, Block(EmitAll(ss)))]), d) ==
            Some(MergePlay(to, CPlayStone(Some(stone))))
  {
    hide EmitAll, StoneRecords, ParseLoop, ByteSizeStone;
    var r := Record(10, Block(EmitAll(ss)));
    SameLength(ss, StoneRecords(stone));
    StoneSize(stone);
    StoneAnyOrder(GetOr(to.stoneInfo, NO_STONE), stone, ss, Cpp);
    ParseOfEmit(CppPlay, to, [r], Cpp);
    FoldCons(CppPlay, to, r, []);
    assert [r] + [] == [r];
    PlayDialects(to, EmitAll([r]));
  }

  // ---------------------------------------------------------------------------------------------
  // Inputs that only the C# reader accepts
  // ---------------------------------------------------------------------------------------------

  /** On bytes that C# accepts, the two readers agree exactly when no tag or length is too long for C++. */
  lemma StoneAgreementIff(m: StoneInfo, b: bytes)
    requires ParseStone(m, b, CSharp).Some?
    ensures ParseStone(m, b, Cpp) == ParseStone(m, b, CSharp) <==> HeadersFit(b)
    ensures !HeadersFit(b) ==> ParseStone(m, b, Cpp) == None
  {
    forall x: StoneInfo, r: Record ensures CppStone(x, r) == CSharpStone(x, r) { StoneStep(x, r); }
    ParseExtensional(CppStone, CSharpStone, m, b, Cpp);
    StrictAcceptsIff(CSharpStone, m, b);
    if ParseStone(m, b, Cpp).Some? { StoneDialects(m, b); }
  }

  // How C# turns the bytes of a string field into a string is a parameter here: it may refuse malformed UTF-8, or
  // repair it, as long as it leaves well-formed UTF-8 alone.

  ghost predicate KeepsUtf8(decode: bytes -> Option<bytes>) {
    forall b: bytes | ValidUtf8(b) :: decode(b) == Some(b)
  }

  function CSharpPlayerWith(decode: bytes -> Option<bytes>, m: PlayerInfo, r: Record): Option<PlayerInfo> {
    if r.tag == 18 && r.payload.Block? then
      match decode(r.payload.b)
      case None => None
      case Some(name) => Some(m.(name := name))
    else CSharpPlayer(m, r)
  }

  function PlayerReader(decode: bytes -> Option<bytes>): (PlayerInfo, Record) -> Option<PlayerInfo> {
    (m, r) => CSharpPlayerWith(decode, m, r)
  }

  /** The record is not a name, or it is well-formed UTF-8. */
  predicate NameOk(r: Record) {
    r.tag == 18 && r.payload.Block? ==> ValidUtf8(r.payload.b)
  }

  /** What C++ needs of bytes that C# reads as a PlayerInfo. */
  predicate PlayerOk(b: bytes) {
    HeadersFit(b) && RecordsOk(NameOk, b)
  }

  /** On bytes that C# accepts, C++ agrees exactly when headers fit and names are UTF-8, whatever C# does with names. */
  lemma PlayerAgreementIff(decode: bytes -> Option<bytes>, m: PlayerInfo, b: bytes)
    requires KeepsUtf8(decode) && ParseLoop(PlayerReader(decode), m, b, CSharp).Some?
    ensures ParsePlayer(m, b, Cpp) == ParseLoop(PlayerReader(decode), m, b, CSharp) <==> PlayerOk(b)
    ensures !PlayerOk(b) ==> ParsePlayer(m, b, Cpp) == None
  {
    forall x: PlayerInfo, r: Record | PlayerReader(decode)(x, r).Some?
      ensures CppPlayer(x, r) == if NameOk(r) then PlayerReader(decode)(x, r) else None
    {
      PlayerStep(x, r);
    }
    ReadersAgreeIff(CppPlayer, NameOk, PlayerReader(decode), m, b);
  }

  function CSharpLoginWith(decode: bytes -> Option<bytes>, m: SLogin, r: Record): Option<SLogin> {
    if r.tag == 26 && r.payload.Block? then
      match ParseLoop(PlayerReader(decode), GetOr(m.playerInfo, NO_PLAYER), r.payload.b, CSharp)
      case None => None
      case Some(p) => Some(m.(playerInfo := Some(p)))
    else CSharpLogin(m, r)
  }

  function LoginReader(decode: bytes -> Option<bytes>): (SLogin, Record) -> Option<SLogin> {
    (m, r) => CSharpLoginWith(decode, m, r)
  }

  predicate PlayerBlockOk(r: Record) {
    r.tag == 26 && r.payload.Block? ==> PlayerOk(r.payload.b)
  }

  /** The same for S_Login: its own headers, and those and the names of every nested player it carries. */
  lemma LoginAgreementIff(decode: bytes -> Option<bytes>, m: SLogin, b: bytes)
    requires KeepsUtf8(decode) && ParseLoop(LoginReader(decode), m, b, CSharp).Some?
    ensures ParseLogin(m, b, Cpp) == ParseLoop(LoginReader(decode), m, b, CSharp) <==>
            HeadersFit(b) && RecordsOk(PlayerBlockOk, b)
    ensures !(HeadersFit(b) && RecordsOk(PlayerBlockOk, b)) ==> ParseLogin(m, b, Cpp) == None
  {
    forall x: SLogin, r: Record | LoginReader(decode)(x, r).Some?
      ensures CppLogin(x, r) == if PlayerBlockOk(r) then LoginReader(decode)(x, r) else None
    {
      DispatchAgrees(r, 1, 8); DispatchAgrees(r, 2, 16); DispatchAgrees(r, 3, 26);
      if r.tag == 26 && r.payload.Block? {
        PlayerAgreementIff(decode, GetOr(x.playerInfo, NO_PLAYER), r.payload.b);
      }
    }
    ReadersAgreeIff(CppLogin, PlayerBlockOk, LoginReader(decode), m, b);
  }

  predicate StoneBlockOk(r: Record) {
    r.tag == 10 && r.payload.Block? ==> HeadersFit(r.payload.b)
  }

  /** The same for C_PlayStone, the message that C# sends to C++: its own headers and those of every nested stone. */
  lemma PlayAgreementIff(m: CPlayStone, b: bytes)
    requires ParsePlay(m, b, CSharp).Some?
    ensures ParsePlay(m, b, Cpp) == ParsePlay(m, b, CSharp) <==> HeadersFit(b) && RecordsOk(StoneBlockOk, b)
    ensures !(HeadersFit(b) && RecordsOk(StoneBlockOk, b)) ==> ParsePlay(m, b, Cpp) == None
  {
    forall x: CPlayStone, r: Record | CSharpPlay(x, r).Some?
      ensures CppPlay(x, r) == if StoneBlockOk(r) then CSharpPlay(x, r) else None
    {
      DispatchAgrees(r, 1, 10);
      if r.tag == 10 && r.payload.Block? {
        StoneAgreementIff(GetOr(x.stoneInfo, NO_STONE), r.payload.b);
      }
    }
    ReadersAgreeIff(CppPlay, StoneBlockOk, CSharpPlay, m, b);
  }

  /** Field 1 with its tag spread over six bytes, then the value 1. */
  lemma SixByteTag(b: bytes)
    requires b == [0x88, 0x80, 0x80, 0x80, 0x80, 0x00, 0x01]
    ensures ParseStone(NO_STONE, b, CSharp) == Some(StoneInfo(1, 0, 0))
    ensures ParseStone(NO_STONE, b, Cpp) == None
  {
    TooManyGroups(b, 5);
    assert Partial(b, 1) == 8;
    assert Partial(b, 2) == 8;
    assert Partial(b, 3) == 8;
    assert Partial(b, 4) == 8;
    assert Partial(b, 5) == 8;
    GroupsEndAt(b, 5, MAX_GROUPS);
    var rest := b[6..];
    assert rest == [1] && rest[1..] == [];
    assert ReadTag(b, CSharp) == Some((8, rest));
    assert Read64(rest) == Some((1, []));
    assert ReadRecord(b, CSharp) == Some((Record(8, Number(1)), []));
    assert CSharpStone(NO_STONE, Record(8, Number(1))) == Some(StoneInfo(1, 0, 0));
    assert ParseLoop(CSharpStone, StoneInfo(1, 0, 0), [], CSharp) == Some(StoneInfo(1, 0, 0));
  }
}
