/**
 * The turn workflow: reading the board of a turn of the latest game, and
 * registering a new turn by placing one disc on the previous turn's board.
 * The GET and POST turn handlers of the HTTP server run the same steps
 * inline, so these two methods model both copies.
 */
module TurnService {
  import opened Wrappers
  import opened Board
  import opened Gateways

  /** The errors the workflow throws. */
  datatype Error =
    | LatestGameNotFound
    | SpecifiedTurnNotFound
      /** `board[y]` is undefined for a row outside the board, so writing to it throws. */
    | RowUndefined

  /** The message each error is thrown with. */
  function Message(e: Error): (m: string)
    ensures e == LatestGameNotFound ==> m == "Latest game not found"
    ensures e == SpecifiedTurnNotFound ==> m == "Specified turn not found"
    ensures e == RowUndefined ==> m == "Cannot set properties of undefined"
  {
    match e
    case LatestGameNotFound => "Latest game not found"
    case SpecifiedTurnNotFound => "Specified turn not found"
    case RowUndefined => "Cannot set properties of undefined"
  }

  /** The state of one turn as the read returns it. */
  datatype TurnView = TurnView(turnCount: int, board: Grid, nextDisc: int, winnerDisc: Option<int>)

  /** Rebuilds a fresh board from a turn's square rows. */
  method ReconstructBoard(records: seq<SquareRecord>) returns (board: array2<Cell>)
    requires AllOnBoard(records)
    ensures fresh(board) && board.Length0 == 8 && board.Length1 == 8
    ensures Contents(board) == Fill(EmptyGrid(), records)
  {
    board := NewBoard();
    FillBoard(board, records);
  }

  /**
   * The board, next disc and winner of turn `turnCount` of the latest game.
   * The game is looked up first, then the turn; each missing row is its own error.
   */
  method FindLatestGameTurnByTurnCount(db: Database, turnCount: int) returns (r: Result<TurnView, Error>)
    requires db.Valid()
    ensures r == Failure(LatestGameNotFound) <==> db.Latest().None?
    ensures r == Failure(SpecifiedTurnNotFound) <==>
      db.Latest().Some? && db.TurnAt(db.Latest().value.id, turnCount).None?
    ensures r.Success? <==>
      db.Latest().Some? && db.TurnAt(db.Latest().value.id, turnCount).Some?
    ensures r.Success? ==>
      var turn := db.TurnAt(db.Latest().value.id, turnCount).value;
      r.value == TurnView(turnCount, Fill(EmptyGrid(), db.SquaresFor(turn.id)), turn.nextDisc, None)
  {
    var game := db.Latest();
    if game.None? {
      return Failure(LatestGameNotFound);
    }
    var turn := db.TurnAt(game.value.id, turnCount);
    if turn.None? {
      return Failure(SpecifiedTurnNotFound);
    }
    var records := db.SquaresFor(turn.value.id);
    var board := ReconstructBoard(records);
    r := Success(TurnView(turnCount, Contents(board), turn.value.nextDisc, None));
  }

  /**
   * Registers turn `turnCount` of the latest game: the board of turn
   * `turnCount - 1` with `disc` placed at (x, y), the toggled next disc, and
   * the move. Every failure happens before the first insert.
   */
  method RegisterTurn(db: Database, turnCount: int, disc: int, x: int, y: int) returns (r: Outcome<Error>)
    requires db.Valid()
    requires 0 <= x < 8
    modifies db
    ensures db.Valid()
    ensures r == Fail(LatestGameNotFound) <==> old(db.Latest()).None?
    ensures r == Fail(SpecifiedTurnNotFound) <==>
      old(db.Latest()).Some? && old(db.TurnAt(db.Latest().value.id, turnCount - 1)).None?
    ensures r == Fail(RowUndefined) <==>
      old(db.Latest()).Some? && old(db.TurnAt(db.Latest().value.id, turnCount - 1)).Some? &&
      !(0 <= y < 8)
    ensures r.Pass? <==>
      old(db.Latest()).Some? && old(db.TurnAt(db.Latest().value.id, turnCount - 1)).Some? &&
      0 <= y < 8
    ensures r.Fail? ==>
      db.games == old(db.games) && db.turns == old(db.turns) &&
      db.squares == old(db.squares) && db.moves == old(db.moves)
    ensures r.Pass? ==>
      var game := old(db.Latest()).value;
      var previous := old(db.TurnAt(game.id, turnCount - 1)).value;
      var board := Put(Fill(EmptyGrid(), old(db.SquaresFor(previous.id))), x, y, Some(disc));
      var turn := TurnRecord(old(db.nextTurnId), game.id, turnCount, NextDisc(disc));
      db.games == old(db.games) &&
      db.turns == old(db.turns)[(game.id, turnCount) := turn] &&
      turn.id !in old(db.squares) &&
      db.squares == old(db.squares)[turn.id := Records(board)] &&
      db.moves == old(db.moves) + [MoveRecord(turn.id, disc, x, y)]
  {
    var game := db.Latest();
    if game.None? {
      return Fail(LatestGameNotFound);
    }
    var previousTurnCount := turnCount - 1;
    var previous := db.TurnAt(game.value.id, previousTurnCount);
    if previous.None? {
      return Fail(SpecifiedTurnNotFound);
    }
    var records := db.SquaresFor(previous.value.id);
    var board := ReconstructBoard(records);
    if !(0 <= y < 8) {
      return Fail(RowUndefined);
    }
    PlaceDisc(board, x, y, disc);
    var nextDisc := NextDisc(disc);
    var turn := db.InsertTurn(game.value.id, turnCount, nextDisc);
    db.InsertAll(turn.id, Contents(board));
    db.InsertMove(turn.id, disc, x, y);
    r := Pass;
  }
}
