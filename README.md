# Knight rules and game-engine contract of chess-and-variants, in Dafny

This project models two parts of a Java chess engine.

**The knight** (`src/model/pieces/Knight.java`) is modelled in `knight.dfy`, module `Knights`. `Knight` is a class with the fields `team`, `col` and `row` that the Java piece inherits, and its kind is fixed to `Knight`.

- `ValidMove` first runs the inherited base check. It then requires both distances to be non-zero and to add up to 3.
- `PathFree` always holds, and `ValidMove` hands its answer to the base check.
- `CanTakeThese` and `GenerateAllPossibleMoves` make the same eight helper calls as the Java code, in the same order. Each call handles one of the offsets (−1,−2), (1,−2), (−1,2), (1,2), (−2,−1), (2,−1), (−2,1), (2,1). The model uses these integer offsets from the code, not the direction words in its comments.
- `Copy` returns a new knight with the same team and position.

The inherited `APiece.validMove` is not part of this model. It appears as a parameter `base: BaseCheck`, a function of the moving piece, the target cell, the board and the piece's own answer to whether the path is free. Every knight property is stated relative to that check.

**The engine contract** (`src/model/IChessGameModel.java`) is modelled in `game.dfy`, module `ChessGame`. `ChessGameModel` is a class holding:

- the board, as a value;
- the team to move;
- the history of committed moves, each with the piece it took.

Three things depend on the game mode, and no implementation of them is part of this model. They are fields of a `GameMode` value:

- whether a piece may make a given move;
- whether a move would leave the mover in check;
- how a cell name such as the argument of `hasPieceOnCell` maps to a cell.

The class invariant `Valid` says four things:

- replaying the history from the mode's starting layout gives the current board;
- each history entry records the piece that stood on its destination;
- no piece is off the grid;
- the turn alternates with the number of plies, and `One` moves first.

`movePiece` rejects a move when any of the following holds:

- a cell is off the grid;
- the origin is empty;
- the origin holds a piece of the team not to move;
- the mode rejects the move;
- `willCauseInvalidStateFromCheck` reports that the move leaves the mover in check.

A rejection returns `IllegalArgument`, the model of Java's `IllegalArgumentException`, and leaves the state untouched.

Shared values are in `board.dfy`, module `ChessBoard`. A board is a width × height grid given as a map from cells to `PieceInfo(team, kind)`, and a cell missing from the map is empty. `Move(team, fromCol, fromRow, toCol, toRow)` is the move record. The teams are `One` and `Two`, as in `src/view/board/GamePanel.java:98-103`.

## Model

| member | source | states |
|---|---|---|
| `Knights.LShapeIffOffset` | src/model/pieces/Knight.java:37-45 | Both distances are non-zero and sum to 3 exactly when the displacement is one of the eight offsets (±1,±2), (±2,±1) |
| `Knights.KnightTargets` | src/model/pieces/Knight.java:57-72 | The eight target cells in the order the knight visits them: target i is the knight's cell shifted by offset i |
| `Knights.Knight.constructor` | src/model/pieces/Knight.java:21-30 | A new knight has the given team, column and row, and its kind is KNIGHT |
| `Knights.Knight.ValidMove` | src/model/pieces/Knight.java:32-46 | A target the knight accepts is always accepted by the base check: a rejection by the base check is final |
| `Knights.Knight.ValidMoveIffOffset` | src/model/pieces/Knight.java:32-46 | A target is valid if and only if the base check accepts it and the displacement is one of the eight knight offsets |
| `Knights.Knight.PathFree` | src/model/pieces/Knight.java:48-52 | Holds for every target and board; this answer is what the knight hands to the base check |
| `Knights.Knight.NotBlocked` | src/model/pieces/Knight.java:32-52 | Under a base check that sees the board only through its size, the target cell and the path answer, two boards that agree on the target cell give the same validity: no piece between origin and target blocks a knight |
| `Knights.Knight.AdmissibleIsOffset` | src/model/pieces/Knight.java:32-46 | A target that is on the board and valid is at a knight offset, so it is one of the eight targets the knight visits |
| `Knights.Knight.TakeAt` | src/model/pieces/Knight.java:114-121 | One jump takes exactly the piece on the target, and only when the target is on the board, a valid move and held by the other team |
| `Knights.Knight.AddPieceFromJump` | src/model/pieces/Knight.java:106-121 | The set grows by exactly what `TakeAt` gives for the target and loses nothing; after the pieces of the earlier targets it holds those of one target more |
| `Knights.Knight.TakenFromIff` | src/model/pieces/Knight.java:54-74 | A piece is collected from the first n targets exactly when it stands on one of them and the knight can take it |
| `Knights.Knight.KnightTakesProperties` | src/model/pieces/Knight.java:54-74 | The pieces collected from the knight's eight targets are exactly the enemy pieces on board cells where `ValidMove` holds, each at a knight offset |
| `Knights.Knight.CanTakeThese` | src/model/pieces/Knight.java:54-74 | A piece is in the result if and only if it stands on a cell of the board where `ValidMove` holds and belongs to the other team; every such piece is at a knight offset |
| `Knights.Knight.AddMoveIfValid` | src/model/pieces/Knight.java:100-104 | Appends the move from the knight's cell to the target when the target is on the board and a valid move, and nothing otherwise; after the moves of the earlier targets it holds those of one target more |
| `Knights.Knight.GenerateAllPossibleMoves` | src/model/pieces/Knight.java:76-98 | The result holds at most eight moves, in offset order. Each has the knight's team, its origin and a destination on the board where `ValidMove` holds. Every such destination appears, and no destination appears twice |
| `Knights.Knight.MovesToLength` | src/model/pieces/Knight.java:80-97 | Filtering the first n targets yields at most n moves |
| `Knights.Knight.MovesToSound` | src/model/pieces/Knight.java:100-103 | Every move kept from the first n targets has the knight's team and origin and goes to an admissible target among them |
| `Knights.Knight.MovesToComplete` | src/model/pieces/Knight.java:100-103 | Every admissible target among the first n gets a move |
| `Knights.Knight.MovesToDistinct` | src/model/pieces/Knight.java:80-97 | Distinct targets give moves with distinct destinations |
| `Knights.Knight.KnightMovesProperties` | src/model/pieces/Knight.java:80-103 | For the knight's own eight targets: at most eight moves, all sound, every valid in-bounds destination present, destinations distinct |
| `Knights.Knight.CornerHasTwoMoves` | src/model/pieces/Knight.java:80-97 | A knight in the corner of an 8 × 8 board, under a base check that rejects nothing, has exactly the moves to (1,2) and (2,1), in that order |
| `Knights.Knight.CentreHasEightMoves` | src/model/pieces/Knight.java:80-97 | A knight on (3,3) of an 8 × 8 board, under a base check that rejects nothing, has eight moves |
| `Knights.Knight.Copy` | src/model/pieces/Knight.java:123-126 | Returns a new knight with the same team, column and row, of kind KNIGHT |
| `ChessGame.Apply` | src/model/IChessGameModel.java:16-28 | After a move, the moving piece stands on the destination and the origin is empty (unless the two cells coincide). Every other cell is unchanged and the size is kept |
| `ChessGame.UndoRestores` | src/model/IChessGameModel.java:63-66 | Taking a move back with the piece that stood on its destination restores the board exactly |
| `ChessGame.MoveFacts` | src/model/IChessGameModel.java:16-28 | Committing a move of a piece between cells of the grid, recording what stood on the destination, keeps every piece on the grid, keeps the history replaying to the board and keeps the turn alternating |
| `ChessGame.Snapshot` | src/model/IChessGameModel.java:55-61 | The picture has one column per board column and one entry per row; entry [c][r] is the piece on column c, row r |
| `ChessGame.SnapshotInjective` | src/model/IChessGameModel.java:55-61 | Two well-formed boards of the same size with the same [col][row] picture are equal, so the picture loses nothing |
| `ChessGame.ChessGameModel.WillCauseInvalidStateFromCheck` | src/model/IChessGameModel.java:30-39 | The answer is the game mode's check test on the live board; as a function it cannot change the game, and `MovePiece` rejects every move it flags |
| `ChessGame.ChessGameModel.MovePiece` | src/model/IChessGameModel.java:16-28 | Succeeds exactly when the move is legal, and never when it would leave the mover in check. On failure nothing changes. On success the piece is moved, the result is what stood on the target (None when it was empty), the turn passes and the move is recorded |
| `ChessGame.ChessGameModel.WhosTurn` | src/model/IChessGameModel.java:48-53 | The team to move is One after an even number of plies and Two after an odd number |
| `ChessGame.ChessGameModel.GetBoard` | src/model/IChessGameModel.java:55-61 | The result is the [col][row] picture of the live board, which by `SnapshotInjective` determines that board |
| `ChessGame.ChessGameModel.HasPieceOnCell` | src/model/IChessGameModel.java:73-79 | For a name that denotes a cell of the board, true exactly when a piece occupies it; any other name is an illegal argument |
| `ChessGame.ChessGameModel.UndoLastMove` | src/model/IChessGameModel.java:63-66 | Drops the last history entry, restores the board that the shorter history replays to, and passes the turn back; with no history nothing changes |
| `ChessGame.ChessGameModel.RestartGame` | src/model/IChessGameModel.java:68-71 | Back to the mode's starting layout, with team One to move and no history |
| `ChessGame.ChessGameModel.MoveThenUndo` | src/model/IChessGameModel.java:63-66 | A move followed by taking it back leaves board, turn and history as they were |

## Left out

- `APiece.validMove` and `IBoard` are not part of this model. The base check is the parameter `BaseCheck`. The board is a value with a bounds check (`ValidCoordinates`) and a lookup (`PieceAt`).
- The concrete engine that implements `IChessGameModel` is not part of this model. Three of its rules are parameters of `GameMode`: move validity, check detection and cell-name parsing.
- `getGameStatus` and `getGameModeName` are left out. No implementation is visible, and the status would need move generation for every kind of piece.
- `Knights.Knight.PathFree`: "not blocked" is proved only for base checks that look at the board through its size, the target cell and the path answer (`NotBlocked`). `APiece.validMove` is not part of this model, so a base check that looks at other cells is not excluded.
- `ChessGame.ChessGameModel.MovePiece`: the interface says only that an invalid move throws. The model fixes the concrete conditions: a move is rejected when a cell is off the grid, when the origin is empty, or when the origin holds a piece of the team not to move, besides the mode's own rules. Team `One` moves first and the teams alternate.
- `ChessGame.ChessGameModel.MovePiece` returns `Option<PieceInfo>` where Java returns the taken `IPiece`, which also carries its cell. Nothing is lost, because that cell is the move's target.
- `ChessGame.ChessGameModel.MovePiece` has no notion of a finished game, so it does not refuse moves after a win or a draw. This follows from leaving out `getGameStatus`.
- `ChessGame.ChessGameModel.HasPieceOnCell` returns `IllegalArgument` for a name that does not parse or names a cell off the grid. The interface promises only true or false.
- `Knights.Knight.AddMoveIfValid` and `Knights.Knight.AddPieceFromJump` take ghost parameters, the target list and the index of the current target. They require the accumulator to hold what the earlier targets give. The Java helpers accept any list or set; the model calls them only from `GenerateAllPossibleMoves` and `CanTakeThese`, which meet these conditions. The first ensures of each, the direct append or union, does not depend on them.
- `Knights.Knight.CanTakeThese` returns a set of piece values `(team, kind, col, row)`. Java object identity and `HashSet` hashing are not modelled.
- Java's 32-bit `int` arithmetic is not modelled. Columns, rows and the knight offsets are unbounded integers, which agree with the code for any board whose coordinates are far from the `int` limits.
- Moving a piece in place (the setters of `APiece`) is not part of `Knight.java`. No method of the model changes a knight's fields after construction.
- Painting the board and loading piece images (`GamePanel`, the image maps) are left out, because they are presentation.
- A move whose origin and destination coincide is modelled literally: the piece stays, and the "taken" piece is the mover itself. The engine's validity check is expected to exclude such moves.
- Empty cells appear as `None` in the `GetBoard` picture. The rendering code suggests the Java engine fills them with a placeholder `PieceInfo` whose team is neither `ONE` nor `TWO`.
