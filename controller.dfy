/** The game controller of Controllers/CheckersGameController.swift: the object that owns
    the board, the turn and the counters, and tells its delegate what changed. Each
    method is proved to move the fields exactly as the matching function of GameRules
    says, and to keep GameRules.Consistent. */
module GameController {
  import opened Wrappers
  import opened Pieces
  import opened Board
  import opened GameRules

  class CheckersGameController {
    var currentPlayer: Player
    var boardState: Grid
    var playerHasMoved: bool
    var moveWasJump: bool
    var currentlySelectedPosition: Option<Position>
    var blackPieces: int
    var redPieces: int
    var lastRowStartedWithEmptySpace: bool
    /** The notifications sent to the delegate, oldest first. */
    var events: seq<Event>

    /** The fields as one value. */
    function State(): Game
      reads this
    {
      Game(currentPlayer, boardState, playerHasMoved, moveWasJump, currentlySelectedPosition,
           blackPieces, redPieces, lastRowStartedWithEmptySpace, events)
    }

    ghost predicate Valid()
      reads this
    {
      Consistent(State())
    }

    /** `init`: every field at its declared default, then the board is set up. The
        delegate cannot be set yet, so nothing is announced. */
    constructor ()
      ensures Valid()
      ensures State() == InitialGame()
    {
      currentPlayer := Red;
      boardState := [];
      playerHasMoved := false;
      moveWasJump := false;
      currentlySelectedPosition := None;
      blackPieces := 0;
      redPieces := 0;
      lastRowStartedWithEmptySpace := false;
      events := [];
      new;
      boardState := SetupInitialBoard();
      assert State() == InitialGame();
    }

    // Public methods

    /** `positionSelected`: a move from the selected cell when one is legal, otherwise a
        selection of an own piece, a repeated selection, or nothing. */
    method PositionSelected(chosenPosition: Position)
      requires Valid() && InBounds(chosenPosition)
      modifies this
      ensures Valid()
      ensures State() == AfterPositionSelected(old(State()), chosenPosition)
    {
      PositionSelectedKeepsCounts(State(), chosenPosition, Red);
      var moved := false;
      if currentlySelectedPosition.Some? {
        moved := PerformMove(currentlySelectedPosition.value, chosenPosition);
      }
      if moved {
        events := events + [BoardUpdated];
        currentlySelectedPosition := None;
        playerHasMoved := true;
        if moveWasJump {
          currentlySelectedPosition := Some(chosenPosition);
        }
      } else {
        var chosen := boardState[chosenPosition.row][chosenPosition.column];
        if chosen.Some? && chosen.value.owner == currentPlayer && !playerHasMoved {
          currentlySelectedPosition := Some(chosenPosition);
          events := events + [Selected(chosenPosition)];
        } else if currentlySelectedPosition == Some(chosenPosition) {
          events := events + [Selected(chosenPosition)];
        }
      }
    }

    /** `switchPlayers`: only once the player has moved. */
    method SwitchPlayers()
      requires Valid()
      modifies this
      ensures Valid()
      ensures State() == AfterSwitchPlayers(old(State()))
    {
      if !playerHasMoved {
        return;
      }
      match currentPlayer {
        case Red => currentPlayer := Black;
        case Black => currentPlayer := Red;
      }
      playerHasMoved := false;
      moveWasJump := false;
      events := events + [TurnChanged(currentPlayer)];
    }

    /** `resetGame`. */
    method ResetGame()
      requires Valid()
      modifies this
      ensures Valid()
      ensures State() == AfterReset(old(State()))
    {
      ResetEffect(State(), Red);
      boardState := SetupInitialBoard();
      currentPlayer := Red;
      playerHasMoved := false;
      moveWasJump := false;
      events := events + [BoardUpdated];
      events := events + [TurnChanged(Red)];
    }

    // Movement

    /** `performMove(start:end:)`: false, with nothing changed, when the move is refused. */
    method PerformMove(start: Position, end: Position) returns (moved: bool)
      requires Valid() && InBounds(start) && InBounds(end)
      modifies this
      ensures moved == AfterMove(old(State()), start, end).Some?
      ensures moved ==> State() == AfterMove(old(State()), start, end).value
      ensures !moved ==> State() == old(State())
    {
      var piece := boardState[start.row][start.column];
      if piece.None? || piece.value.owner != currentPlayer {
        return false;
      }
      if piece.value.isKing {
        moved := PerformMoveToward(start, end, true);
        if !moved {
          moved := PerformMoveToward(start, end, false);
        }
      } else if currentPlayer == Red {
        moved := PerformMoveToward(start, end, true);
      } else {
        moved := PerformMoveToward(start, end, false);
      }
    }

    /** `performMove(start:end:towardTop:)`. */
    method PerformMoveToward(start: Position, end: Position, towardTop: bool) returns (moved: bool)
      requires Valid() && InBounds(start) && InBounds(end)
      modifies this
      ensures moved == AfterMoveToward(old(State()), start, end, towardTop).Some?
      ensures moved ==> State() == AfterMoveToward(old(State()), start, end, towardTop).value
      ensures !moved ==> State() == old(State())
    {
      var piece := boardState[start.row][start.column];
      if piece.None? || piece.value.owner != currentPlayer {
        return false;
      }
      var directionMultiplier := if towardTop then -1 else 1;
      if end.row == start.row + directionMultiplier && !playerHasMoved {
        moved := PerformStep(start, end);
      } else if end.row == start.row + directionMultiplier * 2 {
        moved := PerformJump(start, end, directionMultiplier);
      } else {
        return false;
      }
    }

    /** The one-row branch of `performMove(start:end:towardTop:)`. */
    method PerformStep(start: Position, end: Position) returns (moved: bool)
      requires Valid() && InBounds(start) && InBounds(end)
      modifies this
      ensures moved == AfterStep(old(State()), start, end).Some?
      ensures moved ==> State() == AfterStep(old(State()), start, end).value
      ensures !moved ==> State() == old(State())
    {
      if boardState[end.row][end.column].Some? {
        return false;
      }
      if end.column == start.column + 1 || end.column == start.column - 1 {
        MovePiece(start, end);
        return true;
      } else {
        return false;
      }
    }

    /** The two-row branch of `performMove(start:end:towardTop:)`. */
    method PerformJump(start: Position, end: Position, directionMultiplier: int) returns (moved: bool)
      requires Valid() && InBounds(start) && InBounds(end)
      requires (directionMultiplier == 1 || directionMultiplier == -1)
      requires end.row == start.row + directionMultiplier * 2
      modifies this
      ensures moved == AfterJump(old(State()), start, end, directionMultiplier).Some?
      ensures moved ==> State() == AfterJump(old(State()), start, end, directionMultiplier).value
      ensures !moved ==> State() == old(State())
    {
      ghost var g := State();
      if boardState[end.row][end.column].Some? {
        assert !CanCapture(g, start, end, directionMultiplier);
        return false;
      }
      var jumped := Position(end.row - directionMultiplier, (start.column + end.column) / 2);
      var jumpedPiece := boardState[jumped.row][jumped.column];
      if jumpedPiece.Some? && jumpedPiece.value.owner != currentPlayer {
        assert CanCapture(g, start, end, directionMultiplier);
        Capture(start, end, directionMultiplier, jumped);
        return true;
      } else {
        assert !CanCapture(g, start, end, directionMultiplier);
        return false;
      }
    }

    /** The successful end of the two-row branch: the jumped piece is removed and
        uncounted, then the jumping piece moves and the move is marked as a jump. */
    method Capture(start: Position, end: Position, directionMultiplier: int, jumped: Position)
      requires Valid() && InBounds(start) && InBounds(end)
      requires (directionMultiplier == 1 || directionMultiplier == -1)
      requires end.row == start.row + directionMultiplier * 2
      requires jumped == JumpedCell(start, end, directionMultiplier)
      requires CanCapture(State(), start, end, directionMultiplier)
      modifies this
      ensures State() == Captured(old(State()), start, end, directionMultiplier)
    {
      ghost var g := State();
      var jumpedOwner := boardState[jumped.row][jumped.column].value.owner;
      PutCount(boardState, jumped, None, jumpedOwner);
      ghost var removed := g.(boardState := Put(g.boardState, jumped, None));
      ghost var result := UpdatedCount(removed, jumpedOwner, -1).(boardState := MovedGrid(removed.boardState, start, end), moveWasJump := true);
      assert Captured(g, start, end, directionMultiplier) == result;
      // Remove the jumped piece
      boardState := boardState[jumped.row := boardState[jumped.row][jumped.column := None]];
      assert State() == removed;
      UpdatePiecesCount(jumpedOwner, -1);
      MovePiece(start, end);
      moveWasJump := true;
      assert State() == result;
    }

    /** `movePiece`. */
    method MovePiece(from: Position, to: Position)
      requires WellFormed(boardState) && InBounds(from) && InBounds(to)
      modifies this`boardState, this`moveWasJump
      ensures boardState == MovedGrid(old(boardState), from, to)
      ensures !moveWasJump
    {
      boardState := boardState[to.row := boardState[to.row][to.column := boardState[from.row][from.column]]];
      boardState := boardState[from.row := boardState[from.row][from.column := None]];
      moveWasJump := false;
      var arrived := boardState[to.row][to.column];
      if arrived.Some? && ShouldBeKing(arrived.value, to) {
        boardState := boardState[to.row := boardState[to.row][to.column := Some(Crowned(arrived.value))]];
      }
    }

    // Counting

    /** `updatePiecesCount` and the counters' `didSet` observers. A negative counter is
        fatal in the source, so it is excluded here. */
    method UpdatePiecesCount(player: Player, adjustBy: int)
      requires PieceCount(State(), player) + adjustBy >= 0
      modifies this`blackPieces, this`redPieces, this`events
      ensures State() == UpdatedCount(old(State()), player, adjustBy)
    {
      match player {
        case Black =>
          blackPieces := blackPieces + adjustBy;
          if blackPieces == 0 {
            events := events + [Won(Red)];
          }
        case Red =>
          redPieces := redPieces + adjustBy;
          if redPieces == 0 {
            events := events + [Won(Black)];
          }
      }
    }

    // Setup

    /** `setupInitialBoard`: three black rows, two empty rows, three red rows, each row
        builder flipping `lastRowStartedWithEmptySpace`, which ends as it began. */
    method SetupInitialBoard() returns (board: Grid)
      requires blackPieces >= 0 && redPieces >= 0
      modifies this`blackPieces, this`redPieces, this`lastRowStartedWithEmptySpace, this`events
      ensures board == SetupBoard(old(lastRowStartedWithEmptySpace), PlayerSpace)
      ensures lastRowStartedWithEmptySpace == old(lastRowStartedWithEmptySpace)
      ensures blackPieces == old(blackPieces) + 4 * PlayerSpace
      ensures redPieces == old(redPieces) + 4 * PlayerSpace
      ensures events == old(events)
    {
      ghost var f := lastRowStartedWithEmptySpace;
      ghost var layout := SetupBoard(f, PlayerSpace);
      board := [];
      var playerSpace := BoardSize / 2 - 1;
      for i := 0 to playerSpace
        invariant |board| == i && board == layout[..|board|]
        invariant lastRowStartedWithEmptySpace == FlagBefore(f, |board|)
        invariant blackPieces == old(blackPieces) + 4 * i && redPieces == old(redPieces)
        invariant events == old(events)
      {
        var row;
        if lastRowStartedWithEmptySpace {
          row := CreateRowWithFilledStart(Black);
        } else {
          row := CreateRowWithEmptyStart(Black);
        }
        assert layout[|board|] == row;
        assert layout[..|board| + 1] == layout[..|board|] + [row];
        board := board + [row];
      }
      var empty := CreateEmptyRow();
      assert layout[|board|] == empty;
      assert layout[..|board| + 1] == layout[..|board|] + [empty];
      board := board + [empty];
      empty := CreateEmptyRow();
      assert layout[|board|] == empty;
      assert layout[..|board| + 1] == layout[..|board|] + [empty];
      board := board + [empty];
      for i := 0 to playerSpace
        invariant |board| == playerSpace + 2 + i && board == layout[..|board|]
        invariant lastRowStartedWithEmptySpace == FlagBefore(f, |board|)
        invariant blackPieces == old(blackPieces) + 4 * playerSpace && redPieces == old(redPieces) + 4 * i
        invariant events == old(events)
      {
        var row;
        if lastRowStartedWithEmptySpace {
          row := CreateRowWithFilledStart(Red);
        } else {
          row := CreateRowWithEmptyStart(Red);
        }
        assert layout[|board|] == row;
        assert layout[..|board| + 1] == layout[..|board|] + [row];
        board := board + [row];
      }
      assert layout[..|layout|] == layout;
      FlagBeforeParity(f, |layout|);
    }

    /** `createRowWithEmptyStart`: pieces at the odd columns, each counted as it is placed. */
    method CreateRowWithEmptyStart(player: Player) returns (row: seq<Cell>)
      requires PieceCount(State(), player) >= 0
      modifies this`blackPieces, this`redPieces, this`events, this`lastRowStartedWithEmptySpace
      ensures row == PieceRow(player, true)
      ensures lastRowStartedWithEmptySpace
      ensures PieceCount(State(), player) == old(PieceCount(State(), player)) + 4
      ensures PieceCount(State(), Other(player)) == old(PieceCount(State(), Other(player)))
      ensures events == old(events)
    {
      row := [];
      for position := 0 to BoardSize
        invariant row == PieceRow(player, true)[..position]
        invariant PieceCount(State(), player) == old(PieceCount(State(), player)) + position / 2
        invariant PieceCount(State(), Other(player)) == old(PieceCount(State(), Other(player)))
        invariant events == old(events)
      {
        if position % 2 == 0 {
          row := row + [None];
        } else {
          row := row + [Some(NewPiece(player))];
          UpdatePiecesCount(player, 1);
        }
        assert PieceRow(player, true)[..position + 1] == PieceRow(player, true)[..position] + [PieceRow(player, true)[position]];
      }
      lastRowStartedWithEmptySpace := true;
      assert PieceRow(player, true)[..BoardSize] == PieceRow(player, true);
    }

    /** `createRowWithFilledStart`: pieces at the even columns, each counted as it is placed. */
    method CreateRowWithFilledStart(player: Player) returns (row: seq<Cell>)
      requires PieceCount(State(), player) >= 0
      modifies this`blackPieces, this`redPieces, this`events, this`lastRowStartedWithEmptySpace
      ensures row == PieceRow(player, false)
      ensures !lastRowStartedWithEmptySpace
      ensures PieceCount(State(), player) == old(PieceCount(State(), player)) + 4
      ensures PieceCount(State(), Other(player)) == old(PieceCount(State(), Other(player)))
      ensures events == old(events)
    {
      row := [];
      for position := 0 to BoardSize
        invariant row == PieceRow(player, false)[..position]
        invariant PieceCount(State(), player) == old(PieceCount(State(), player)) + (position + 1) / 2
        invariant PieceCount(State(), Other(player)) == old(PieceCount(State(), Other(player)))
        invariant events == old(events)
      {
        if position % 2 != 0 {
          row := row + [None];
        } else {
          row := row + [Some(NewPiece(player))];
          UpdatePiecesCount(player, 1);
        }
        assert PieceRow(player, false)[..position + 1] == PieceRow(player, false)[..position] + [PieceRow(player, false)[position]];
      }
      lastRowStartedWithEmptySpace := false;
      assert PieceRow(player, false)[..BoardSize] == PieceRow(player, false);
    }

    /** `createEmptyRow`: eight empty cells; the flag is negated. */
    method CreateEmptyRow() returns (row: seq<Cell>)
      modifies this`lastRowStartedWithEmptySpace
      ensures row == EmptyRow()
      ensures lastRowStartedWithEmptySpace == !old(lastRowStartedWithEmptySpace)
    {
      row := [];
      for position := 0 to BoardSize
        invariant row == EmptyRow()[..position]
      {
        row := row + [None];
        assert EmptyRow()[..position + 1] == EmptyRow()[..position] + [EmptyRow()[position]];
      }
      lastRowStartedWithEmptySpace := !lastRowStartedWithEmptySpace;
      assert EmptyRow()[..BoardSize] == EmptyRow();
    }
  }
}
