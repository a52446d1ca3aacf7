/**
 * The database behind the four record gateways (game, turn, square, move),
 * as abstract state. Only the lookups and inserts the turn workflow uses are
 * modelled: lookups are functions of the state, inserts are methods that
 * change it. Identifiers are handed out like auto-increment columns.
 */
module Gateways {
  import opened Wrappers
  import opened Board

  datatype GameRecord = GameRecord(id: int)

  datatype TurnRecord = TurnRecord(id: int, gameId: int, turnCount: int, nextDisc: int)

  datatype MoveRecord = MoveRecord(turnId: int, disc: int, x: int, y: int)

  class Database {
    /** Game rows in insertion order. */
    var games: seq<GameRecord>
    /** Turn rows keyed by (game id, turn count). */
    var turns: map<(int, int), TurnRecord>
    /** Square rows of each turn id. */
    var squares: map<int, seq<SquareRecord>>
    /** Move rows in insertion order. */
    var moves: seq<MoveRecord>
    /** The next values of the two auto-increment id columns. */
    var nextGameId: int
    var nextTurnId: int

    /**
     * Game ids grow in insertion order, every id in use is below its counter,
     * every turn row sits under its own key, and every stored square lies on
     * the board.
     */
    ghost predicate Valid()
      reads this
    {
      (forall i, j :: 0 <= i < j < |games| ==> games[i].id < games[j].id) &&
      (forall i :: 0 <= i < |games| ==> games[i].id < nextGameId) &&
      (forall k :: k in turns ==>
         turns[k].gameId == k.0 && turns[k].turnCount == k.1 &&
         k.0 < nextGameId && turns[k].id < nextTurnId) &&
      (forall t :: t in squares ==> t < nextTurnId && AllOnBoard(squares[t]))
    }

    /** An empty database. */
    constructor ()
      ensures Valid()
      ensures games == [] && turns == map[] && squares == map[] && moves == []
    {
      games, turns, squares, moves := [], map[], map[], [];
      nextGameId, nextTurnId := 1, 1;
    }

    /** The latest game, or none before the first game is started. */
    function Latest(): (game: Option<GameRecord>)
      reads this
      ensures game.None? <==> games == []
      ensures game.Some? ==> game.value == games[|games| - 1]
      ensures Valid() && game.Some? ==> forall i :: 0 <= i < |games| ==> games[i].id <= game.value.id
    {
      if games == [] then None else Some(games[|games| - 1])
    }

    /** The turn row of a game with a given count, or none. */
    function TurnAt(gameId: int, turnCount: int): (turn: Option<TurnRecord>)
      reads this
      ensures turn.None? <==> (gameId, turnCount) !in turns
      ensures turn.Some? ==> turn.value == turns[(gameId, turnCount)]
      ensures Valid() && turn.Some? ==> turn.value.gameId == gameId && turn.value.turnCount == turnCount
    {
      if (gameId, turnCount) in turns then Some(turns[(gameId, turnCount)]) else None
    }

    /** The square rows of a turn; a turn with no rows yields none. */
    function SquaresFor(turnId: int): (records: seq<SquareRecord>)
      reads this
      requires Valid()
      ensures AllOnBoard(records)
      ensures turnId !in squares ==> records == []
      ensures turnId in squares ==> records == squares[turnId]
    {
      if turnId in squares then squares[turnId] else []
    }

    /** Inserts a game row and returns it; it becomes the latest game. */
    method InsertGame() returns (game: GameRecord)
      requires Valid()
      modifies this
      ensures Valid()
      ensures game.id == old(nextGameId) && game.id < nextGameId && games == old(games) + [game]
      ensures forall c :: TurnAt(game.id, c).None?
      ensures turns == old(turns) && squares == old(squares) && moves == old(moves)
      ensures nextTurnId == old(nextTurnId)
    {
      game := GameRecord(nextGameId);
      games := games + [game];
      nextGameId := nextGameId + 1;
    }

    /** Inserts a turn row of an existing game and returns it with its new id. */
    method InsertTurn(gameId: int, turnCount: int, nextDisc: int) returns (turn: TurnRecord)
      requires Valid() && gameId < nextGameId
      modifies this
      ensures Valid()
      ensures turn == TurnRecord(old(nextTurnId), gameId, turnCount, nextDisc)
      ensures turn.id !in squares
      ensures turns == old(turns)[(gameId, turnCount) := turn]
      ensures games == old(games) && squares == old(squares) && moves == old(moves)
      ensures nextGameId == old(nextGameId)
    {
      turn := TurnRecord(nextTurnId, gameId, turnCount, nextDisc);
      turns := turns[(gameId, turnCount) := turn];
      nextTurnId := nextTurnId + 1;
    }

    /** Inserts one square row per cell of `board` for an existing turn. */
    method InsertAll(turnId: int, board: Grid)
      requires Valid() && turnId < nextTurnId && IsGrid(board)
      modifies this
      ensures Valid()
      ensures squares == old(squares)[turnId := old(SquaresFor(turnId)) + Records(board)]
      ensures turnId !in old(squares) ==> squares == old(squares)[turnId := Records(board)]
      ensures games == old(games) && turns == old(turns) && moves == old(moves)
      ensures nextGameId == old(nextGameId) && nextTurnId == old(nextTurnId)
    {
      assert turnId !in squares ==> SquaresFor(turnId) + Records(board) == Records(board);
      squares := squares[turnId := SquaresFor(turnId) + Records(board)];
    }

    /** Inserts a move row. */
    method InsertMove(turnId: int, disc: int, x: int, y: int)
      requires Valid()
      modifies this
      ensures Valid()
      ensures moves == old(moves) + [MoveRecord(turnId, disc, x, y)]
      ensures games == old(games) && turns == old(turns) && squares == old(squares)
      ensures nextGameId == old(nextGameId) && nextTurnId == old(nextTurnId)
    {
      moves := moves + [MoveRecord(turnId, disc, x, y)];
    }
  }
}
