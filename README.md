# Checkers rules engine in Dafny

This project models the rules engine of an iOS checkers game: the `CheckersGameController` class. The class owns:

- an 8 by 8 board of optional pieces;
- the player to move;
- the selected cell;
- two per-turn flags, `playerHasMoved` and `moveWasJump`;
- one piece counter per colour.

It answers three inputs from the screen: choosing a cell, ending the turn, and resetting the game. The model also covers the piece and player types and an earlier revision of the controller.

Modules, one per file:

- `Wrappers` (wrappers.dfy): `Option`.
- `Pieces` (pieces.dfy): `Player` and `Piece`, from CheckersPiece.swift.
- `Board` (board.dfy): the grid, cell positions, counting pieces on the board, and the rows the setup routine appends.
- `GameRules` (rules.dfy): every controller operation as a function from one snapshot of the fields (`Game`) to the next, plus the lemmas about those functions.
  - `LegalMove` is an independent reference definition of an accepted move.
  - `Consistent` is the invariant every reachable state keeps: each counter is at least the number of that colour's pieces on the board.
- `GameController` (controller.dfy): the class itself.
  - Its fields mirror the Swift fields, and its methods update them in place.
  - Every public method is proved to leave `State()` equal to the matching `GameRules` function of the old state, and to keep `Consistent`.
- `LegacyController` (legacy.dfy): the earlier revision.
  - Its `isLegalMove` is a pure function whose outcome may be a trap: Swift stops the program on an out-of-range index.
  - Its setup routine and row builders are methods with loops.

A cell is `Position(row, column)`. `row` is the `IndexPath` section and `column` is the `IndexPath` row. The delegate callbacks become an append-only log, `events`, of `BoardUpdated`, `Won(p)`, `TurnChanged(p)` and `Selected(pos)`.

How the code differs from the textbook game. The model follows the code.

- Jumps check only the row offset. The jumped cell is one row ahead at the average of the two columns, so straight-ahead and wide jumps are accepted (`GameRules.UncheckedJumpColumns`).
- `resetGame` runs the setup again, and the setup adds 12 to each counter without zeroing it first. After a reset each counter therefore exceeds the 12 pieces on the board by whatever the counter held before the reset (`GameRules.ResetEffect`). Right after `init` that excess is 12 (`GameRules.ResetAfterInitDoublesCounts`).
- Neither `switchPlayers` nor `resetGame` clears the selection.
- `CheckersPiece` is a struct and line 166 binds `piece` with `if let`, so the assignment to `piece.isKing` on line 167 does not compile as given. The nearest compiling reading (`if var piece`) crowns a local copy that never reaches the board. The model writes the crowned piece back into the target cell (see Findings).
- A counter reaching 0 announces the winner from inside the move. The delegate therefore hears `Won` before that move's `BoardUpdated`.

## Model

The first column is a Dafny member. Paths in the second column are relative to the repository root.

| member | source | states |
|---|---|---|
| Pieces.NewPiece | Checkers/Checkers/CheckersPiece.swift:11-17 | a new piece belongs to the given player and is not a king |
| Pieces.Other | Checkers/Checkers/CheckersPiece.swift:20-23 | a player's opponent is never that player, so with two players it is the other one |
| Pieces.Crowned | Checkers/Checkers/CheckersPiece.swift:12-13 | setting `isKing`, the only mutable field, makes a king and keeps the owner |
| Board.Put | Checkers/Checkers/Controllers/CheckersGameController.swift:148 | writing one cell sets that cell and leaves every other cell of the 8 by 8 board as it was |
| Board.PutCount | Checkers/Checkers/Controllers/CheckersGameController.swift:148 | writing one cell changes a player's piece total by the piece that arrived minus the piece that left |
| Board.PieceRowCount | Checkers/Checkers/Controllers/CheckersGameController.swift:214-240 | a piece row holds four pieces of its player and none of the other |
| Board.FlagBeforeParity | Checkers/Checkers/Controllers/CheckersGameController.swift:186-200 | each row builder flips the row-kind flag, so before every even row it is back to its starting value |
| Board.SetupCount | Checkers/Checkers/Controllers/CheckersGameController.swift:182-203 | the setup board holds four pieces per filled row for each player |
| GameRules.InitialGame | Checkers/Checkers/Controllers/CheckersGameController.swift:61-64 | the state after `init` satisfies the invariant |
| GameRules.UpdatedCount | Checkers/Checkers/Controllers/CheckersGameController.swift:35-52 | the player's counter moves by the adjustment and the other counter is unchanged; `Won(opponent)` is logged exactly when the counter reaches 0; nothing else changes; a negative result is excluded |
| GameRules.ShouldBeKing | Checkers/Checkers/Controllers/CheckersGameController.swift:171-179 | a piece should be a king exactly when it already is one or stands on its far row (row 0 for red, row 7 for black) |
| GameRules.MoveTowardLegalIff | Checkers/Checkers/Controllers/CheckersGameController.swift:125-160 | a one-direction move succeeds exactly when it starts from an own piece on an empty target and is a first-move diagonal step or a two-row jump over an opponent at the computed midpoint |
| GameRules.MoveLegalIff | Checkers/Checkers/Controllers/CheckersGameController.swift:108-123 | `performMove` succeeds exactly when the move is legal by the reference rules; kings may go either way, red men toward row 0 and black men toward row 7 |
| GameRules.RejectedMoves | Checkers/Checkers/Controllers/CheckersGameController.swift:125-159 | an empty or foreign start, an occupied target, or a row offset other than 1 or 2 makes the move fail |
| GameRules.MovedGridEffect | Checkers/Checkers/Controllers/CheckersGameController.swift:162-169 | after `movePiece` the target holds the promoted piece, the source is empty, and every other cell is unchanged |
| GameRules.MovedGridCount | Checkers/Checkers/Controllers/CheckersGameController.swift:162-169 | moving onto an empty cell keeps each player's piece total on the board |
| GameRules.MovedGrid | Checkers/Checkers/Controllers/CheckersGameController.swift:162-169 | `movePiece` on the board, with the crowned piece written back: the result is again an 8 by 8 board (its cell-by-cell effect is `MovedGridEffect`) |
| GameRules.AfterMove | Checkers/Checkers/Controllers/CheckersGameController.swift:108-123 | `performMove`: a success starts from an own piece and lands on an empty cell, changes only the board, `moveWasJump`, the counters and the log, and only appends to the log |
| GameRules.AfterMoveToward | Checkers/Checkers/Controllers/CheckersGameController.swift:125-160 | `performMove(towardTop:)`: the same, and a move that is not a jump happens only before the player has moved |
| GameRules.AfterStep | Checkers/Checkers/Controllers/CheckersGameController.swift:130-139 | the one-row branch: a success lands on an empty cell one column to either side and changes only the board, clearing `moveWasJump` |
| GameRules.AfterJump | Checkers/Checkers/Controllers/CheckersGameController.swift:140-159 | the two-row branch: a success lands on an empty cell, sets `moveWasJump`, changes only the board, the counters and the log, and only appends to the log |
| GameRules.CanCapture | Checkers/Checkers/Controllers/CheckersGameController.swift:141-146 | the jump captures exactly when the target is empty and the cell between start and target, on the board, holds an opponent's piece |
| GameRules.Captured | Checkers/Checkers/Controllers/CheckersGameController.swift:147-153 | after a capture the opponent's counter is one lower, the mover's is kept, `moveWasJump` is set, and only the board, the counters and the log change |
| GameRules.CapturedGridCount | Checkers/Checkers/Controllers/CheckersGameController.swift:147-153 | a capture leaves one opponent piece fewer on the board and all of the mover's |
| GameRules.AfterPositionSelected | Checkers/Checkers/Controllers/CheckersGameController.swift:66-80 | `positionSelected` never passes the turn, only appends to the log, and every change it makes is announced by a new event |
| GameRules.AfterSwitchPlayers | Checkers/Checkers/Controllers/CheckersGameController.swift:82-96 | `switchPlayers` passes the turn exactly when the player has moved, and never changes the board, the counters or the selection |
| GameRules.AfterReset | Checkers/Checkers/Controllers/CheckersGameController.swift:98-105 | `resetGame` lays out a board with 12 pieces per side and adds exactly those to each counter; red is to move and the selection is kept |
| GameRules.StepEffect | Checkers/Checkers/Controllers/CheckersGameController.swift:130-139 | a successful step moves the piece one row and one column, changes no counter and leaves `moveWasJump` false |
| GameRules.CaptureEffect | Checkers/Checkers/Controllers/CheckersGameController.swift:140-153 | a successful jump clears the midpoint opponent, takes one from that opponent's counter, moves the piece and sets `moveWasJump` |
| GameRules.MoveTowardEffect | Checkers/Checkers/Controllers/CheckersGameController.swift:125-160 | every successful one-direction move has the full effect stated by `MoveEffects` |
| GameRules.MoveEffect | Checkers/Checkers/Controllers/CheckersGameController.swift:108-123 | every successful `performMove` has that effect: the target, source, midpoint and other cells, both counters, the win announcement and the untouched fields |
| GameRules.StepKeepsCounts | Checkers/Checkers/Controllers/CheckersGameController.swift:130-139 | a step keeps the invariant and each counter's surplus over its pieces on the board |
| GameRules.CaptureKeepsCounts | Checkers/Checkers/Controllers/CheckersGameController.swift:144-153 | a capture keeps the invariant and each surplus: the piece and the counter drop together |
| GameRules.MoveTowardKeepsCounts | Checkers/Checkers/Controllers/CheckersGameController.swift:125-160 | every successful one-direction move keeps the invariant and each surplus |
| GameRules.MoveKeepsCounts | Checkers/Checkers/Controllers/CheckersGameController.swift:108-123 | every successful move keeps the invariant and each surplus |
| GameRules.PromotionAfterMove | Checkers/Checkers/Controllers/CheckersGameController.swift:162-179 | after any move the landed piece is the mover's and is a king exactly when it was one or reached its far row |
| GameRules.NonKingsMoveForward | Checkers/Checkers/Controllers/CheckersGameController.swift:112-122 | a piece that is not a king moves toward row 0 when red and toward row 7 when black |
| GameRules.OnlyJumpsAfterMoving | Checkers/Checkers/Controllers/CheckersGameController.swift:130-140 | once the player has moved, only a two-row jump is still accepted |
| GameRules.PositionSelectedKeepsCounts | Checkers/Checkers/Controllers/CheckersGameController.swift:66-80 | choosing a cell keeps the invariant and each surplus |
| GameRules.PositionSelectedMoves | Checkers/Checkers/Controllers/CheckersGameController.swift:66-73 | after a move the player has moved; the selection is the landed cell after a jump and empty otherwise; the capture is counted; the log gains `Won` (when a counter hits 0) and then `BoardUpdated` |
| GameRules.PositionSelectedWithoutMove | Checkers/Checkers/Controllers/CheckersGameController.swift:74-79 | without a move, only the selection and the log change; an own piece is selected only before moving; re-choosing the selected cell only re-announces it |
| GameRules.SwitchPlayersEffect | Checkers/Checkers/Controllers/CheckersGameController.swift:82-96 | nothing happens before a move; afterwards the turn passes, both flags clear, the selection and board stay, and `TurnChanged(new player)` is logged |
| GameRules.InitialCell | Checkers/Checkers/Controllers/CheckersGameController.swift:182-249 | each initial cell holds a black man on rows 0-2 and a red man on rows 5-7 where row + column is odd, and is empty elsewhere |
| GameRules.InitialLayout | Checkers/Checkers/Controllers/CheckersGameController.swift:61-64 | the initial board has that layout, 12 pieces per side, and counters equal to the pieces on the board |
| GameRules.ResetEffect | Checkers/Checkers/Controllers/CheckersGameController.swift:98-105 | a reset lays out the initial board, gives red the move, clears both flags, keeps the selection, adds 12 to each counter and logs `BoardUpdated` then `TurnChanged(Red)` |
| GameRules.ResetAfterInitDoublesCounts | Checkers/Checkers/Controllers/CheckersGameController.swift:98-99 | a reset right after `init` leaves 24 in each counter with 12 pieces per side on the board |
| GameRules.AfterInput | Checkers/Checkers/Controllers/CheckersGameController.swift:66-105 | each of the three public inputs keeps the invariant |
| GameRules.Run | Checkers/Checkers/Controllers/CheckersGameController.swift:66-105 | any sequence of public inputs keeps the invariant, so no counter ever goes negative |
| GameRules.RunKeepsSurplus | Checkers/Checkers/Controllers/CheckersGameController.swift:140-153 | any run of inputs without a reset keeps each counter's surplus |
| GameRules.CountsMatchBoard | Checkers/Checkers/Controllers/CheckersGameController.swift:35-52 | from `init`, through any inputs other than a reset, each counter equals that colour's pieces on the board |
| GameRules.CaptureExample | Checkers/Checkers/Controllers/CheckersGameController.swift:66-80 | a worked capture: red selects (3,3) and jumps to (1,1); black's last piece goes, red is announced winner before the board update, and (1,1) stays selected |
| GameRules.StraightJumpAccepted | Checkers/Checkers/Controllers/CheckersGameController.swift:140-146 | a red man jumping the black man straight ahead of it is accepted |
| GameRules.WideJumpAccepted | Checkers/Checkers/Controllers/CheckersGameController.swift:140-146 | a red man landing six columns away, over the black man at the average column, is accepted |
| GameRules.UncheckedJumpColumns | Checkers/Checkers/Controllers/CheckersGameController.swift:140-146 | a straight jump and a six-column jump are both accepted |
| GameRules.MovedGridAsWritten | Checkers/Checkers/Controllers/CheckersGameController.swift:162-168 | `movePiece` under the nearest compiling reading of line 166 (`if var piece`): the target gets the source's piece unchanged and the source is emptied |
| GameRules.PromotionLostAsWritten | Checkers/Checkers/Controllers/CheckersGameController.swift:166-167 | a red man stepping onto row 0 stays a man under that reading, and becomes a king in the corrected move |
| GameController.CheckersGameController.constructor | Checkers/Checkers/Controllers/CheckersGameController.swift:61-64 | `init` yields the initial game, with nothing logged |
| GameController.CheckersGameController.PositionSelected | Checkers/Checkers/Controllers/CheckersGameController.swift:66-80 | the new fields are `AfterPositionSelected` of the old ones and the invariant holds |
| GameController.CheckersGameController.SwitchPlayers | Checkers/Checkers/Controllers/CheckersGameController.swift:82-96 | the new fields are `AfterSwitchPlayers` of the old ones |
| GameController.CheckersGameController.ResetGame | Checkers/Checkers/Controllers/CheckersGameController.swift:98-105 | the new fields are `AfterReset` of the old ones and the invariant holds |
| GameController.CheckersGameController.PerformMove | Checkers/Checkers/Controllers/CheckersGameController.swift:108-123 | returns whether `AfterMove` succeeds; the fields become its result, or stay unchanged on failure |
| GameController.CheckersGameController.PerformMoveToward | Checkers/Checkers/Controllers/CheckersGameController.swift:125-160 | the same, for one direction |
| GameController.CheckersGameController.PerformStep | Checkers/Checkers/Controllers/CheckersGameController.swift:130-139 | the same, for the one-row branch |
| GameController.CheckersGameController.PerformJump | Checkers/Checkers/Controllers/CheckersGameController.swift:140-160 | the same, for the two-row branch |
| GameController.CheckersGameController.Capture | Checkers/Checkers/Controllers/CheckersGameController.swift:147-153 | clearing the jumped cell, uncounting it, moving and marking the jump yields `Captured` of the old fields |
| GameController.CheckersGameController.MovePiece | Checkers/Checkers/Controllers/CheckersGameController.swift:162-169 | the board becomes `MovedGrid` of the old board and `moveWasJump` is false |
| GameController.CheckersGameController.UpdatePiecesCount | Checkers/Checkers/Controllers/CheckersGameController.swift:205-212 | the fields become `UpdatedCount` of the old ones, including the win announcement of the `didSet` observers |
| GameController.CheckersGameController.SetupInitialBoard | Checkers/Checkers/Controllers/CheckersGameController.swift:182-203 | returns the setup layout for the flag's starting value; the flag ends as it began; each counter gains 12; nothing is logged |
| GameController.CheckersGameController.CreateRowWithEmptyStart | Checkers/Checkers/Controllers/CheckersGameController.swift:214-226 | pieces exactly at the odd columns; the player's counter gains 4 and the other is unchanged; the flag becomes true |
| GameController.CheckersGameController.CreateRowWithFilledStart | Checkers/Checkers/Controllers/CheckersGameController.swift:228-240 | pieces exactly at the even columns; the player's counter gains 4; the flag becomes false |
| GameController.CheckersGameController.CreateEmptyRow | Checkers/Checkers/Controllers/CheckersGameController.swift:242-249 | eight empty cells; the flag is negated |
| LegacyController.CheckMove | Checkers/Checkers/CheckersGameController.swift:46-73 | the shared body of both versions: it traps only on an out-of-range read, and a true answer needs an own piece at the start and an empty target |
| LegacyController.IsLegalMove | Checkers/Checkers/CheckersGameController.swift:46-73 | `isLegalMove` as written: on an 8 by 8 board it can trap only when black moves onto row 0 |
| LegacyController.IsLegalMoveCorrected | Checkers/Checkers/CheckersGameController.swift:46-73 | `isLegalMove` with the jumped row fixed: it never traps on an 8 by 8 board |
| LegacyController.ForeignStartRejected | Checkers/Checkers/CheckersGameController.swift:46-49 | an empty start cell or an opponent's piece gives false |
| LegacyController.WrittenOutcome | Checkers/Checkers/CheckersGameController.swift:50-73 | when it does not trap, `isLegalMove` is true exactly for an own piece on an empty target with a one-row step or a two-row move forward, where red goes toward higher rows; the jump checks the row above the target |
| LegacyController.WrittenTrapsIff | Checkers/Checkers/CheckersGameController.swift:60-64 | on an 8 by 8 board `isLegalMove` traps exactly when black jumps onto an empty cell of row 0 |
| LegacyController.WrittenBlackJumpReadsWrongRow | Checkers/Checkers/CheckersGameController.swift:64-69 | a black jump is judged by the cell three rows ahead of the start, not by the cell it passes over |
| LegacyController.RedAgrees | Checkers/Checkers/CheckersGameController.swift:50-64 | for red the code as written and the corrected check agree |
| LegacyController.CorrectedLegalIff | Checkers/Checkers/CheckersGameController.swift:46-73 | with the midpoint row fixed, the check never traps on an 8 by 8 board and accepts exactly the legal moves |
| LegacyController.BlackJumpToRowZeroTraps | Checkers/Checkers/CheckersGameController.swift:64 | a concrete legal black capture onto row 0 makes the code as written trap |
| LegacyController.BlackJumpMissesCapture | Checkers/Checkers/CheckersGameController.swift:64-69 | a concrete legal black capture is refused by the code as written |
| LegacyController.BlackJumpOverNothingAccepted | Checkers/Checkers/CheckersGameController.swift:64-69 | a concrete black move over an empty cell is accepted by the code as written |
| LegacyController.UnsetBoardTraps | Checkers/Checkers/CheckersGameController.swift:25-47 | on the empty board the controller keeps, every check traps |
| LegacyController.CheckersGameController.constructor | Checkers/Checkers/CheckersGameController.swift:21-37 | after `init` the board is still empty, red is to move, nothing is selected, and the flag is false |
| LegacyController.CheckersGameController.SetupInitialBoard | Checkers/Checkers/CheckersGameController.swift:75-95 | builds two black rows, two empty rows and two red rows, and leaves the flag as it was |
| LegacyController.CheckersGameController.CreateRowPrototype1 | Checkers/Checkers/CheckersGameController.swift:97-108 | pieces exactly at the odd columns; the flag becomes true |
| LegacyController.CheckersGameController.CreateRowPrototype2 | Checkers/Checkers/CheckersGameController.swift:110-121 | pieces exactly at the even columns; the flag becomes false |
| LegacyController.CheckersGameController.CreateEmptyRow | Checkers/Checkers/CheckersGameController.swift:123-130 | eight empty cells; the flag is negated |

## Left out

- Both view controllers: UIKit presentation, cell colours and images, alerts, and floating-point layout.
- The commented-out persistence code (JSON files). It is inactive.
- The earlier revision's delegate protocol and its commented-out `positionSelected`. That revision never calls its delegate.
- The `weak` delegate reference. Its callbacks are recorded in the `events` log instead. During `init` no delegate can be attached yet, so setup logs nothing.
- `IndexPath`: reduced to two integers. The current controller indexes without bounds checks, so its operations require positions on the 8 by 8 board.
- The `fatalError` on a negative counter: a precondition of `UpdatePiecesCount` and `UpdatedCount`. The invariant proves it cannot be reached from `init`.
- GameController.CheckersGameController.PerformMoveToward: the one-row and two-row branches are split out into `PerformStep`, `PerformJump` and `Capture`. The Swift code has them inline in one method; the steps and their order are unchanged.
- LegacyController.CheckersGameController.SetupInitialBoard: returns the board it builds so that its layout can be stated. The Swift code drops it, as the constructor here does.
- The legacy `isLegalMove` has no caller. It is modelled as a function of the board and the player to move rather than of the object's fields. This makes it read-only by construction.

## Findings

| source | as written | input that shows it | evidently intended | confidence | as-written member | corrected member |
|---|---|---|---|---|---|---|
| Checkers/Checkers/CheckersGameController.swift:64 | the jumped cell is read from row `end.section - 1` for both colours | black at (2, 1) jumping red at (1, 2) onto the empty (0, 3): row -1 is read and the program traps | read row `end.section - direction`, the midpoint row, as the later controller does | high, not executed | LegacyController.BlackJumpToRowZeroTraps | LegacyController.CorrectedLegalIff |
| Checkers/Checkers/CheckersGameController.swift:64 | a black jump from row r is judged by row r - 3 | black at (4, 1), red at (3, 2), empty (2, 3): the capture is refused; with red at (1, 2) and (3, 2) empty, the move is accepted | judge the jump by the cell it passes over | high, not executed | LegacyController.BlackJumpMissesCapture | LegacyController.CorrectedLegalIff |
| Checkers/Checkers/Controllers/CheckersGameController.swift:166-167 | `piece` is bound with `if let` to a struct value, so assigning `piece.isKing` does not compile as given; under the nearest compiling reading (`if var piece`) the crowning changes only a local copy | under that reading, a red man at (1, 1) moving to the empty (0, 0) stays a man on the board | write the crowned piece back into the target cell, so pieces reaching the far row become kings | high, not executed | GameRules.PromotionLostAsWritten | GameRules.PromotionAfterMove |
