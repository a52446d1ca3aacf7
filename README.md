# Reversi turn bookkeeping, modelled in Dafny

The server of this Reversi application keeps every game as a series of turns.
Each turn is stored as a turn row (its count and the disc to move next), a
snapshot of 64 square rows, and, for every turn after the first, one move row.
Two operations make up the turn workflow:

- **Reading a turn** (`TurnService.findLatestGameTurnByTurnCount`, and inline in
  the `GET /api/games/latest/turns/:turnCount` handler): look up the latest
  game, then its turn with the requested count, then replay that turn's square
  rows into a fresh 8x8 board (`board[y][x] = disc`, last write wins; cells no
  row names stay `undefined`). The result carries the requested count, the
  board, the stored next disc and a winner that is always null.
- **Registering a turn** (`TurnService.registerTurn`, and inline in the
  `POST /api/games/latest/turns` handler): look up the latest game and its turn
  `turnCount - 1`, rebuild that board, write the submitted disc into one cell,
  and store a new turn row (count `turnCount`, next disc the toggle of the
  submitted disc), the whole new board as its snapshot, and one move row.
  There is no legality check, no flipping and no win detection.

Starting a game (`POST /api/games`) stores a game row, its turn 0 with DARK to
move, and the fixed initial board as turn 0's snapshot.

The database is modelled as plain state (`Gateways.Database`): games in
insertion order, turn rows keyed by (game id, turn count), square rows per turn
id, move rows in insertion order, and two auto-increment id counters. Lookups
are functions of that state; inserts are methods that change it. The board the
service builds and mutates is an `array2<Option<int>>` (`None` is JavaScript's
`undefined`), proved against the value-level functions `Fill` and `Put`.

Files:

- `wrappers.dfy`: `Option`, `Result`, `Outcome`.
- `board.dfy`: disc codes, the grid, the initial board, `Put`, `Fill`, the
  next-disc toggle, the snapshot records, and the in-place board methods.
- `gateways.dfy`: the database state and the lookups and inserts the workflow uses.
- `turn_service.dfy`: the two turn operations.
- `server.dfy`: the game-start handler, and a `Client` module showing what a
  caller can conclude from the contracts alone (a read before any game fails on
  the game lookup; a new game's turn 0 has DARK to move; a turn after a missing
  one is refused with nothing stored; a turn after an existing one is accepted
  and hands the move to LIGHT).

The two turn handlers of `src/main.ts` (lines 77-122 and 124-196) repeat the
service's steps line for line, with the same error messages and the same
order of lookups and inserts; `TurnService.FindLatestGameTurnByTurnCount`
and `TurnService.RegisterTurn` model both copies. The disc codes of
`src/main.ts:10-12` (EMPTY 0, DARK 1, LIGHT 2) are the constants
`Board.EMPTY`, `Board.DARK` and `Board.LIGHT`. `turnService.ts` imports `DARK`
and `LIGHT` from `src/application/constants`, which is not part of this model;
those constants are taken to equal the values of `src/main.ts`.

`src/application/turnService.ts` calls `commit` (line 118) without ever calling
`beginTransaction`, like the inline handler (`src/main.ts:188`); transactions
are left out in both places (see below).

## Model

| member | source | states |
|---|---|---|
| `Board.EmptyGrid` | src/application/turnService.ts:41 | the freshly created board has 8 rows of 8 cells, every one undefined |
| `Board.InitialBoard` | src/main.ts:14-23 | the initial board is 8x8 with DARK at [3][3] and [4][4], LIGHT at [3][4] and [4][3], and EMPTY in every other cell |
| `Board.Put` | src/application/turnService.ts:96-101 | placing a disc sets `board[y][x]` and leaves the other 63 cells as they were (nothing is flipped); the board stays 8x8 |
| `Board.Fill` | src/application/turnService.ts:41-46 | replaying any number of square records keeps the board at exactly 8 rows of 8 cells |
| `Board.FillLastWriteWins` | src/application/turnService.ts:44-46 | after replay, a square named by some record holds the disc of the last record with those coordinates |
| `Board.FillUntouched` | src/application/turnService.ts:41-46 | after replay, a square no record names keeps its previous value (undefined on a fresh board) |
| `Board.NextDisc` | src/application/turnService.ts:104 | the next disc is LIGHT exactly when the placed disc is DARK, and DARK for every other value (LIGHT included); it always differs from the placed disc |
| `Board.NextDiscAlternates` | src/application/turnService.ts:104 | toggling twice gives back DARK or LIGHT; any other code comes back as LIGHT |
| `Board.Records` | src/application/turnService.ts:114 | a stored snapshot is 64 on-board records, one per square, each carrying that square's cell |
| `Board.NewBoard` | src/application/turnService.ts:41 | allocates a fresh 8x8 board whose contents are the all-undefined grid |
| `Board.FillBoard` | src/application/turnService.ts:44-46 | the in-place loop leaves the board equal to `Fill` of its old contents and the records |
| `Board.PlaceDisc` | src/application/turnService.ts:99 | the in-place write leaves the board equal to `Put` of its old contents |
| `Gateways.Database.Latest` | src/application/turnService.ts:18-21 | the latest game is absent exactly when no game was ever inserted, otherwise the last one inserted, which also has the highest id |
| `Gateways.Database.TurnAt` | src/application/turnService.ts:24-28 | the turn lookup finds a row exactly when one is stored under that game id and turn count, and the row found belongs to that game and has that turn count |
| `Gateways.Database.SquaresFor` | src/application/turnService.ts:35-38 | a stored turn yields exactly its stored square rows, a turn with no stored rows yields none, and every row lies on the board |
| `Gateways.Database.InsertGame` | src/main.ts:56 | appends a game with a fresh id that has no turns yet; nothing else changes |
| `Gateways.Database.InsertTurn` | src/application/turnService.ts:106-112 | stores a turn row under its (game, count) key with a fresh id that has no squares yet; nothing else changes |
| `Gateways.Database.InsertAll` | src/application/turnService.ts:114 | adds one record per square of the board under the turn id; nothing else changes |
| `Gateways.Database.InsertMove` | src/application/turnService.ts:116 | appends exactly the move (turn id, disc, x, y); nothing else changes |
| `TurnService.Message` | src/application/turnService.ts:18-32 | the texts of the three errors the workflow throws: "Latest game not found", "Specified turn not found", and the TypeError raised when the target row is undefined |
| `TurnService.ReconstructBoard` | src/application/turnService.ts:88-94 | rebuilds a fresh 8x8 board equal to replaying the records onto the all-undefined grid |
| `TurnService.FindLatestGameTurnByTurnCount` | src/application/turnService.ts:14-58 | fails with "Latest game not found" exactly when there is no game, with "Specified turn not found" exactly when the game has no turn of that count, and otherwise returns the requested count unchanged, the replayed board, the stored next disc and a null winner |
| `TurnService.RegisterTurn` | src/application/turnService.ts:60-122 | reads turn `turnCount - 1` of the latest game; each missing row is its own error and leaves every table unchanged; on success stores turn `turnCount` with the toggled next disc under a fresh id, the previous board with only `[y][x]` changed as its snapshot, and exactly one move `(disc, x, y)` |
| `Server.StartGame` | src/main.ts:49-75 | appends a game that becomes the latest, its turn 0 with DARK to move as its only turn, the initial board as that turn's snapshot, and no move |

## Left out

- `RegisterTurn`: requires `0 <= x < 8`. With a row index outside the board,
  `board[y]` is undefined and the write throws before any insert; the model has
  that error (`RowUndefined`). With a column outside the board, JavaScript adds
  an element or property to the row and the gateway then stores whatever its
  SQL makes of it; that SQL is not part of this model, so such columns are excluded.
- `TurnService.Message`: the text of `RowUndefined` stands for the engine's
  TypeError message, whose exact wording (and the property name it quotes)
  depends on the JavaScript engine.
- The gateways' SQL (`src/dataaccess/*`) is not part of this model. Only the
  lookup and insert shapes the workflow relies on are modelled: "latest game"
  is the last game inserted; a turn row is looked up by (game id, turn count),
  so a second row with the same key replaces the first in the model; a turn's
  square rows are stored as 64 row-major records. No round trip of a snapshot
  through `insertAll` and `findForTurnId` is claimed.
- Database connections, `beginTransaction`, `commit` and `end`: resource
  handling. On the two turn paths no transaction is open, so a failure inside a
  later insert would leave the earlier inserts in place; game start opens a
  transaction (`src/main.ts:54`) and commits it only after its last insert
  (`src/main.ts:69`), so a failed insert there leaves no rows behind. Inserts
  never fail in the model.
- HTTP plumbing: Express setup, morgan, static files, route registration, the
  status codes, the 500 error handler, and the `/api/hello` and `/api/error` stubs.
- `parseInt` coercion of request fields: integer inputs are taken as given
  (a `NaN` input is not modelled).
- `new Date()` timestamps on game and turn rows, and `console.log` output.
- `src/presentation/gameRouter.ts`: it delegates to a `GameService` that is not
  part of this model.
- Two concurrent submissions against the same game can both pass the lookups
  and both insert; the model is sequential.
- Move legality, disc flipping and win detection do not exist in the source
  (only comments mark where they would go), so the model has none either.
