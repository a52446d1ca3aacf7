/** The game-start handler of the HTTP server. */
module Server {
  import opened Wrappers
  import opened Board
  import opened Gateways

  /**
   * Starts a game: a new game row, then its turn 0 with DARK to move, then
   * the initial board as that turn's snapshot. The new game becomes the latest.
   */
  method StartGame(db: Database)
    requires db.Valid()
    modifies db
    ensures db.Valid()
    ensures |db.games| == |old(db.games)| + 1 && db.games[..|old(db.games)|] == old(db.games)
    ensures
      var game := db.games[|db.games| - 1];
      var turn := TurnRecord(old(db.nextTurnId), game.id, 0, DARK);
      db.Latest() == Some(game) &&
      db.turns == old(db.turns)[(game.id, 0) := turn] &&
      (forall c :: c != 0 ==> db.TurnAt(game.id, c).None?) &&
      turn.id !in old(db.squares) &&
      db.squares == old(db.squares)[turn.id := Records(InitialBoard())] &&
      db.moves == old(db.moves)
  {
    var game := db.InsertGame();
    var turn := db.InsertTurn(game.id, 0, DARK);
    db.InsertAll(turn.id, InitialBoard());
  }
}

/** What a client of the server can conclude from the contracts alone. */
module Client {
  import opened Wrappers
  import opened Board
  import opened Gateways
  import opened TurnService
  import opened Server

  /** Before any game is started, both turn operations fail on the game lookup. */
  method BeforeAnyGame() {
    var db := new Database();
    var read := FindLatestGameTurnByTurnCount(db, 0);
    assert read == Failure(LatestGameNotFound);
    var placed := RegisterTurn(db, 1, DARK, 2, 3);
    assert placed == Fail(LatestGameNotFound) && db.moves == [];
  }

  /** A new game has turn 0 with DARK to move, and no other turn yet. */
  method NewGame(db: Database)
    requires db.Valid()
    modifies db
  {
    StartGame(db);
    var read := FindLatestGameTurnByTurnCount(db, 0);
    assert read.Success? && read.value.nextDisc == DARK && read.value.winnerDisc == None;
    assert db.TurnAt(db.Latest().value.id, 1).None?;
  }

  /** A turn whose previous turn is missing is refused, and nothing is stored. */
  method SkippedTurn(db: Database, turnCount: int)
    requires db.Valid() && db.Latest().Some? && db.TurnAt(db.Latest().value.id, turnCount).None?
    modifies db
  {
    ghost var moves := db.moves;
    var placed := RegisterTurn(db, turnCount + 1, DARK, 2, 3);
    assert placed == Fail(SpecifiedTurnNotFound) && db.moves == moves;
  }

  /** After any turn of the latest game, the following turn is accepted and hands the move over. */
  method FollowingTurn(db: Database, turnCount: int)
    requires db.Valid() && db.Latest().Some? && db.TurnAt(db.Latest().value.id, turnCount).Some?
    modifies db
  {
    var placed := RegisterTurn(db, turnCount + 1, DARK, 2, 3);
    assert placed == Pass;
    var read := FindLatestGameTurnByTurnCount(db, turnCount + 1);
    assert read.Success? && read.value.nextDisc == LIGHT && read.value.winnerDisc == None;
  }
}
