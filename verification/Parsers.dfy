/** What the parsers that the client registers take and refuse, for any bytes. */
module Parsers {
  import opened Bytes
  import opened Varint
  import opened Wire
  import opened Packets
  import M = Messages

  /** The bytes read as records to their end. */
  function Records(b: bytes): Option<seq<Record>>
    decreases |b|
  {
    if b == [] then Some([])
    else
      match ReadRecord(b, CSharp)
      case None => None
      case Some((r, rest)) =>
        match Records(rest)
        case None => None
        case Some(rs) => Some([r] + rs)
  }

  /** All bytes are records, and this holds of each. */
  ghost predicate AllRecords(b: bytes, good: Record -> bool) {
    Records(b).Some? && forall r | r in Records(b).value :: good(r)
  }

  predicate Any(r: Record) {
    true
  }

  /** Names are UTF-8: field 1 of an enemy, field 2 of a player. */
  predicate EnemyName(r: Record) {
    r.tag == 10 && r.payload.Block? ==> ValidUtf8(r.payload.b)
  }

  predicate PlayerName(r: Record) {
    r.tag == 18 && r.payload.Block? ==> ValidUtf8(r.payload.b)
  }

  /** Nested messages are records themselves, with UTF-8 names. */
  ghost predicate StoneInside(r: Record) {
    r.tag == 10 && r.payload.Block? ==> Records(r.payload.b).Some?
  }

  ghost predicate EnemyInside(r: Record) {
    r.tag == 10 && r.payload.Block? ==> AllRecords(r.payload.b, EnemyName)
  }

  ghost predicate PlayerInside(r: Record) {
    r.tag == 26 && r.payload.Block? ==> AllRecords(r.payload.b, PlayerName)
  }

  /** A reader that decides record by record takes exactly the bytes that are good records. */
  lemma {:induction false} LoopTakesIff<T(!new)>(apply: (T, Record) -> Option<T>, acc: T, b: bytes,
                                                 good: Record -> bool)
    requires forall m: T, r: Record :: apply(m, r).Some? <==> good(r)
    ensures ParseLoop(apply, acc, b, CSharp).Some? <==> AllRecords(b, good)
    decreases |b|
  {
    hide ReadRecord;
    if b != [] && ReadRecord(b, CSharp).Some? {
      var (r, rest) := ReadRecord(b, CSharp).value;
      if good(r) {
        LoopTakesIff(apply, apply(acc, r).value, rest, good);
      }
      if Records(rest).Some? {
        assert Records(b) == Some([r] + Records(rest).value);
        assert r in Records(b).value;
      }
    }
  }

  lemma {:induction false} ScalarTakesIff(b: bytes)
    ensures SScalar(b) <==> Records(b).Some?
  {
    hide ReadRecord;
    LoopTakesIff(M.CSharpScalar, 0, b, Any);
  }

  lemma {:induction false} StoneTakesIff(m: M.StoneInfo, b: bytes)
    ensures ParseLoop(M.CSharpStone, m, b, CSharp).Some? <==> Records(b).Some?
  {
    hide ReadRecord;
    LoopTakesIff(M.CSharpStone, m, b, Any);
  }

  lemma {:induction false} EnemyTakesIff(m: M.EnemyInfo, b: bytes)
    ensures ParseLoop(M.CSharpEnemy, m, b, CSharp).Some? <==> AllRecords(b, EnemyName)
  {
    hide ReadRecord;
    LoopTakesIff(M.CSharpEnemy, m, b, EnemyName);
  }

  lemma {:induction false} PlayerTakesIff(m: M.PlayerInfo, b: bytes)
    ensures ParseLoop(M.CSharpPlayer, m, b, CSharp).Some? <==> AllRecords(b, PlayerName)
  {
    hide ReadRecord;
    LoopTakesIff(M.CSharpPlayer, m, b, PlayerName);
  }

  lemma {:induction false} PlayTakesIff(b: bytes)
    ensures SPlayStone(b) <==> AllRecords(b, StoneInside)
    ensures SThrowResult(b) <==> AllRecords(b, StoneInside)
  {
    hide ReadRecord, ParseLoop, Records;
    forall m: M.CPlayStone, r: Record ensures M.CSharpPlay(m, r).Some? <==> StoneInside(r) {
      if r.payload.Block? { StoneTakesIff(M.GetOr(m.stoneInfo, M.NO_STONE), r.payload.b); }
    }
    LoopTakesIff(M.CSharpPlay, M.NO_PLAY, b, StoneInside);
  }

  lemma {:induction false} StartTakesIff(b: bytes)
    ensures SStartGame(b) <==> AllRecords(b, EnemyInside)
  {
    hide ReadRecord, ParseLoop, AllRecords;
    forall m: Option<M.EnemyInfo>, r: Record ensures M.CSharpStartGame(m, r).Some? <==> EnemyInside(r) {
      if r.payload.Block? { EnemyTakesIff(M.GetOr(m, M.NO_ENEMY), r.payload.b); }
    }
    LoopTakesIff(M.CSharpStartGame, None, b, EnemyInside);
  }

  lemma {:induction false} LoginTakesIff(b: bytes)
    ensures SLogin(b) <==> AllRecords(b, PlayerInside)
  {
    hide ReadRecord, ParseLoop, AllRecords;
    forall m: M.SLogin, r: Record ensures M.CSharpLogin(m, r).Some? <==> PlayerInside(r) {
      if r.payload.Block? { PlayerTakesIff(M.GetOr(m.playerInfo, M.NO_PLAYER), r.payload.b); }
    }
    LoopTakesIff(M.CSharpLogin, M.NO_LOGIN, b, PlayerInside);
  }

  /** Which ids the client registers, and exactly which bodies each of its parsers takes. */
  lemma {:induction false} ClientTakesIff(b: bytes)
    ensures CLIENT.Keys == {1, 3, 5, 6, 8, 9, 10}
    ensures CLIENT[1](b) <==> AllRecords(b, PlayerInside)
    ensures CLIENT[5](b) <==> AllRecords(b, EnemyInside)
    ensures CLIENT[8](b) <==> AllRecords(b, StoneInside)
    ensures CLIENT[10](b) <==> AllRecords(b, StoneInside)
    ensures forall id | id in {3, 6, 9} :: CLIENT[id](b) <==> Records(b).Some?
  {
    hide AllRecords, Records, SLogin, SStartGame, SPlayStone, SThrowResult, SScalar;
    LoginTakesIff(b);
    StartTakesIff(b);
    PlayTakesIff(b);
    ScalarTakesIff(b);
  }

  /** So every one of them refuses a record that was cut off. */
  lemma {:induction false} ClientRefusesCuts(id: nat, r: Record, b: bytes)
    requires id in CLIENT && Emittable(r) && b != [] && b < Emit(r)
    ensures !CLIENT[id](b)
  {
    hide ReadRecord, SLogin, SStartGame, SPlayStone, SThrowResult, SScalar;
    CutRecordIsRefused(r, CSharp, b);
    assert Records(b) == None;
    ClientTakesIff(b);
  }

  // ---------------------------------------------------------------------------------------------
  // What the server writes is taken
  // ---------------------------------------------------------------------------------------------

  /** S_ThrowSignUpError, S_LeaveGame and S_CheckStone: one number, which is left out when it is zero. */
  function SerializeScalar(n: uint64): bytes {
    EmitAll(When(n != 0, Record(8, Number(n))))
  }

  /** S_StartGame: its one field is the enemy. */
  function StartRecord(enemy: M.EnemyInfo): Record {
    Record(10, Block(M.SerializeEnemy(enemy)))
  }

  function SerializeStart(enemy: M.EnemyInfo): bytes {
    Emit(StartRecord(enemy))
  }

  lemma {:induction false} OneRecord(r: Record)
    requires Emittable(r)
    ensures Records(Emit(r)) == Some([r])
  {
    hide Emit, ReadRecord;
    ReadRecordOfEmit(r, CSharp, []);
    assert Emit(r) + [] == Emit(r) && [r] + [] == [r];
    assert Records([]) == Some([]);
  }

  lemma {:induction false} ScalarIsTaken(n: uint64)
    ensures SScalar(SerializeScalar(n))
    ensures ParseLoop(M.CSharpScalar, 0, SerializeScalar(n), CSharp) == Some(n)
  {
    hide SScalar;
    ScalarTakesIff(SerializeScalar(n));
    if n != 0 {
      var r := Record(8, Number(n));
      OneRecord(r);
      ReadRecordOfEmit(r, CSharp, []);
      assert EmitAll([r]) == Emit(r) + EmitAll([]);
      assert Emit(r) + [] == Emit(r);
    }
  }

  lemma {:induction false} StartIsTaken(enemy: M.EnemyInfo)
    requires M.EnemyFits(enemy) && ValidUtf8(enemy.name) && |M.SerializeEnemy(enemy)| <= MAX_BLOCK
    ensures SStartGame(SerializeStart(enemy))
    ensures ParseLoop(M.CSharpStartGame, None, SerializeStart(enemy), CSharp) == Some(Some(enemy))
  {
    hide Emit, M.SerializeEnemy, ReadRecord;
    M.EnemyRoundTripIff(enemy);
    var b := SerializeStart(enemy);
    assert b + [] == b;
    ReadRecordOfEmit(StartRecord(enemy), CSharp, []);
    assert ParseLoop(M.CSharpStartGame, Some(enemy), [], CSharp) == Some(Some(enemy));
  }

  /** Every message that the server writes with UTF-8 names is taken by the parser of its id. */
  lemma {:induction false} ClientTakesWritten(login: M.SLogin, enemy: M.EnemyInfo, play: M.CPlayStone, n: uint64)
    requires M.LoginFits(login) && M.LoginNameValid(login)
    requires M.EnemyFits(enemy) && ValidUtf8(enemy.name) && |M.SerializeEnemy(enemy)| <= MAX_BLOCK
    ensures CLIENT[1](M.SerializeLogin(login)) && CLIENT[5](SerializeStart(enemy))
    ensures CLIENT[8](M.SerializePlay(play)) && CLIENT[10](M.SerializePlay(play))
    ensures forall id | id in {3, 6, 9} :: CLIENT[id](SerializeScalar(n))
  {
    hide M.SerializeLogin, M.SerializePlay, M.SerializeEnemy, M.ParseLogin, M.ParsePlay, SStartGame, SScalar;
    M.LoginRoundTripIff(login);
    M.PlayRoundTrip(play, CSharp);
    StartIsTaken(enemy);
    ScalarIsTaken(n);
  }
}
