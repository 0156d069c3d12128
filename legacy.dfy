/** The earlier controller of Checkers/CheckersGameController.swift. It only has a move
    checker, `isLegalMove`, and a setup routine whose board is built and then dropped.
    Red moves toward higher rows here and black toward lower rows. Swift traps on an
    out-of-range array index, so a check that reads outside the board is modelled as
    the outcome `Trapped`. */
module LegacyController {
  import opened Wrappers
  import opened Pieces
  import opened Board
  import opened GameRules

  /** What a call of `isLegalMove` does: it returns an answer or it traps. */
  datatype Outcome = Returned(legal: bool) | Trapped

  /** Whether `b[p.row][p.column]` can be read without trapping. */
  predicate Readable(b: Grid, p: Position) {
    0 <= p.row < |b| && 0 <= p.column < |b[p.row]|
  }

  /** The direction pieces of `p` travel in this revision: red toward higher rows. */
  function LegacyDirection(p: Player): int {
    if p == Red then 1 else -1
  }

  /** The jumped cell as written: always the row just above the landing row. */
  function WrittenJumpedCell(start: Position, end: Position): Position {
    Position(end.row - 1, (start.column + end.column) / 2)
  }

  /** `isLegalMove` with a jumped-cell rule as a parameter, so that the code as written
      and the corrected code share every other step. Once the start and the landing
      cell are readable both columns are non-negative, so `/` agrees with Swift's
      truncating division. */
  function CheckMove(b: Grid, currentPlayer: Player, start: Position, end: Position, jumped: Position): (r: Outcome)
    ensures r.Trapped? ==> !Readable(b, start) || !Readable(b, end) || !Readable(b, jumped)
    ensures r == Returned(true) ==> && Readable(b, start) && Readable(b, end)
                                    && b[start.row][start.column].Some?
                                    && b[start.row][start.column].value.owner == currentPlayer
                                    && b[end.row][end.column].None?
  {
    if !Readable(b, start) then Trapped
    else
      var piece := b[start.row][start.column];
      if piece.None? || piece.value.owner != currentPlayer then Returned(false)
      else
        var dir := LegacyDirection(currentPlayer);
        if end.row == start.row + dir then
          if !Readable(b, end) then Trapped
          else if b[end.row][end.column].Some? then Returned(false)
          else Returned(end.column == start.column + 1 || end.column == start.column - 1)
        else if end.row == start.row + dir * 2 then
          if !Readable(b, end) then Trapped
          else if b[end.row][end.column].Some? then Returned(false)
          else if !Readable(b, jumped) then Trapped
          else
            var jumpedSpace := b[jumped.row][jumped.column];
            Returned(jumpedSpace.Some? && jumpedSpace.value.owner != currentPlayer)
        else Returned(false)
  }

  /** `isLegalMove` as written: the jumped cell is read from the row above the landing
      row, whichever way the piece travels. On an 8 by 8 board it can only trap on a
      black move onto row 0. */
  function IsLegalMove(b: Grid, currentPlayer: Player, start: Position, end: Position): (r: Outcome)
    ensures WellFormed(b) && InBounds(start) && InBounds(end) && r.Trapped?
            ==> currentPlayer == Black && end.row == 0
  {
    CheckMove(b, currentPlayer, start, end, WrittenJumpedCell(start, end))
  }

  /** `isLegalMove` with the jumped cell one row from the start in the direction of
      travel, as the later controller computes it. */
  function IsLegalMoveCorrected(b: Grid, currentPlayer: Player, start: Position, end: Position): (r: Outcome)
    ensures WellFormed(b) && InBounds(start) && InBounds(end) ==> r.Returned?
  {
    CheckMove(b, currentPlayer, start, end, Position(end.row - LegacyDirection(currentPlayer), (start.column + end.column) / 2))
  }

  /** The rule `isLegalMove` is meant to decide: an own piece, an empty landing cell,
      and a diagonal step forward or a jump two rows forward over an opponent's piece
      at the midpoint. */
  predicate LegalByRules(b: Grid, currentPlayer: Player, start: Position, end: Position)
    requires WellFormed(b) && InBounds(start) && InBounds(end)
  {
    var dir := LegacyDirection(currentPlayer);
    var piece := At(b, start);
    && piece.Some? && piece.value.owner == currentPlayer
    && At(b, end).None?
    && ((end.row == start.row + dir && (end.column == start.column + 1 || end.column == start.column - 1))
        || (end.row == start.row + 2 * dir
            && var over := At(b, Midpoint(start, end));
               over.Some? && over.value.owner != currentPlayer))
  }

  /** A start cell that is empty or holds an opponent's piece is never a legal start. */
  lemma ForeignStartRejected(b: Grid, currentPlayer: Player, start: Position, end: Position)
    requires WellFormed(b) && InBounds(start)
    requires At(b, start).None? || At(b, start).value.owner != currentPlayer
    ensures IsLegalMove(b, currentPlayer, start, end) == Returned(false)
    ensures IsLegalMoveCorrected(b, currentPlayer, start, end) == Returned(false)
  {
  }

  /** The corrected check never traps on an 8 by 8 board and decides exactly the rule. */
  lemma CorrectedLegalIff(b: Grid, currentPlayer: Player, start: Position, end: Position)
    requires WellFormed(b) && InBounds(start) && InBounds(end)
    ensures IsLegalMoveCorrected(b, currentPlayer, start, end)
            == Returned(LegalByRules(b, currentPlayer, start, end))
  {
    var dir := LegacyDirection(currentPlayer);
    if end.row == start.row + dir * 2 {
      assert Midpoint(start, end) == Position(end.row - dir, (start.column + end.column) / 2);
    }
  }

  /** For red the row above the landing row is the midpoint row, so the code as
      written agrees with the corrected check. */
  lemma RedAgrees(b: Grid, start: Position, end: Position)
    ensures IsLegalMove(b, Red, start, end) == IsLegalMoveCorrected(b, Red, start, end)
  {
  }

  /** On an 8 by 8 board the code as written traps exactly when black jumps an own
      piece onto an empty cell of row 0: it then reads row -1. */
  lemma WrittenTrapsIff(b: Grid, currentPlayer: Player, start: Position, end: Position)
    requires WellFormed(b) && InBounds(start) && InBounds(end)
    ensures IsLegalMove(b, currentPlayer, start, end) == Trapped
            <==> && currentPlayer == Black
                 && At(b, start).Some? && At(b, start).value.owner == Black
                 && end.row == start.row - 2 && end.row == 0
                 && At(b, end).None?
  {
    if currentPlayer == Black && end.row == start.row - 2 && end.row > 0 {
      assert Readable(b, WrittenJumpedCell(start, end));
    }
  }

  /** What the code as written answers when it does not trap: an own piece, an empty
      target, and either a one-row step forward to a neighbouring column or a two-row
      move forward with an opponent's piece in the row above the target, at the average
      column. Forward is toward higher rows for red and toward lower rows for black. */
  lemma WrittenOutcome(b: Grid, currentPlayer: Player, start: Position, end: Position)
    requires WellFormed(b) && InBounds(start) && InBounds(end)
    requires IsLegalMove(b, currentPlayer, start, end) != Trapped
    ensures var dir := LegacyDirection(currentPlayer);
            var seen := WrittenJumpedCell(start, end);
            var piece := At(b, start);
            IsLegalMove(b, currentPlayer, start, end) == Returned(
              && piece.Some? && piece.value.owner == currentPlayer
              && At(b, end).None?
              && ((end.row == start.row + dir && (end.column == start.column + 1 || end.column == start.column - 1))
                  || (end.row == start.row + 2 * dir && InBounds(seen)
                      && At(b, seen).Some? && At(b, seen).value.owner != currentPlayer)))
  {
  }

  /** A black jump that does not land on row 0 is judged by the cell three rows ahead of
      the start, not by the cell it passes over. */
  lemma WrittenBlackJumpReadsWrongRow(b: Grid, start: Position, end: Position)
    requires WellFormed(b) && InBounds(start) && InBounds(end)
    requires At(b, start).Some? && At(b, start).value.owner == Black
    requires end.row == start.row - 2 && end.row > 0 && At(b, end).None?
    ensures var seen := Position(start.row - 3, (start.column + end.column) / 2);
            && InBounds(seen)
            && IsLegalMove(b, Black, start, end)
               == Returned(At(b, seen).Some? && At(b, seen).value.owner == Red)
  {
    assert WrittenJumpedCell(start, end) == Position(start.row - 3, (start.column + end.column) / 2);
  }

  /** Black at (2, 1) jumping the red man at (1, 2) onto the empty (0, 3): the code as
      written traps, while the move is legal. */
  lemma BlackJumpToRowZeroTraps()
    ensures var b := TwoPieces(Position(2, 1), NewPiece(Black), Position(1, 2), NewPiece(Red));
            && LegalByRules(b, Black, Position(2, 1), Position(0, 3))
            && IsLegalMove(b, Black, Position(2, 1), Position(0, 3)) == Trapped
            && IsLegalMoveCorrected(b, Black, Position(2, 1), Position(0, 3)) == Returned(true)
  {
    var b := TwoPieces(Position(2, 1), NewPiece(Black), Position(1, 2), NewPiece(Red));
    assert At(b, Position(2, 1)) == Some(NewPiece(Black));
    assert At(b, Position(1, 2)) == Some(NewPiece(Red));
    assert At(b, Position(0, 3)) == None;
    assert Midpoint(Position(2, 1), Position(0, 3)) == Position(1, 2);
    CorrectedLegalIff(b, Black, Position(2, 1), Position(0, 3));
  }

  /** Black at (4, 1) jumping the red man at (3, 2) onto the empty (2, 3): the code as
      written looks at the empty (1, 2) and refuses the capture. */
  lemma BlackJumpMissesCapture()
    ensures var b := TwoPieces(Position(4, 1), NewPiece(Black), Position(3, 2), NewPiece(Red));
            && LegalByRules(b, Black, Position(4, 1), Position(2, 3))
            && IsLegalMove(b, Black, Position(4, 1), Position(2, 3)) == Returned(false)
            && IsLegalMoveCorrected(b, Black, Position(4, 1), Position(2, 3)) == Returned(true)
  {
    var b := TwoPieces(Position(4, 1), NewPiece(Black), Position(3, 2), NewPiece(Red));
    assert At(b, Position(4, 1)) == Some(NewPiece(Black));
    assert At(b, Position(3, 2)) == Some(NewPiece(Red));
    assert At(b, Position(2, 3)) == None;
    assert At(b, Position(1, 2)) == None;
    assert Midpoint(Position(4, 1), Position(2, 3)) == Position(3, 2);
    CorrectedLegalIff(b, Black, Position(4, 1), Position(2, 3));
  }

  /** Black at (4, 1) "jumping" an empty (3, 2) onto (2, 3) while a red man sits at
      (1, 2): the code as written accepts a move the rules refuse. */
  lemma BlackJumpOverNothingAccepted()
    ensures var b := TwoPieces(Position(4, 1), NewPiece(Black), Position(1, 2), NewPiece(Red));
            && !LegalByRules(b, Black, Position(4, 1), Position(2, 3))
            && IsLegalMove(b, Black, Position(4, 1), Position(2, 3)) == Returned(true)
            && IsLegalMoveCorrected(b, Black, Position(4, 1), Position(2, 3)) == Returned(false)
  {
    var b := TwoPieces(Position(4, 1), NewPiece(Black), Position(1, 2), NewPiece(Red));
    assert At(b, Position(4, 1)) == Some(NewPiece(Black));
    assert At(b, Position(1, 2)) == Some(NewPiece(Red));
    assert At(b, Position(2, 3)) == None;
    assert At(b, Position(3, 2)) == None;
    assert Midpoint(Position(4, 1), Position(2, 3)) == Position(3, 2);
    CorrectedLegalIff(b, Black, Position(4, 1), Position(2, 3));
  }

  /** The board this revision keeps is never filled in, so any check on it traps. */
  lemma UnsetBoardTraps(currentPlayer: Player, start: Position, end: Position)
    ensures IsLegalMove([], currentPlayer, start, end) == Trapped
    ensures IsLegalMoveCorrected([], currentPlayer, start, end) == Trapped
  {
  }

  /** The earlier controller object. */
  class CheckersGameController {
    var currentPlayer: Player
    var boardState: Grid
    var currentlySelectedPosition: Option<Position>
    /** Whether the last row built had its pieces at the odd columns. */
    var justDidType1Row: bool

    /** `init`: the setup routine runs, but its board is dropped, so the controller is
        left with an empty board; the six row builders leave the flag as it was. */
    constructor ()
      ensures currentPlayer == Red
      ensures boardState == []
      ensures currentlySelectedPosition == None
      ensures !justDidType1Row
    {
      currentPlayer := Red;
      boardState := [];
      currentlySelectedPosition := None;
      justDidType1Row := false;
      new;
      var _ := SetupInitialBoard();
    }

    /** `setupInitialBoard`: two black rows, two empty rows and two red rows, built into
        a local board. The source drops that board; it is returned here so that its
        layout can be stated. The builders flip the flag six times. */
    method SetupInitialBoard() returns (board: Grid)
      modifies this`justDidType1Row
      ensures board == SetupBoard(old(justDidType1Row), 2)
      ensures justDidType1Row == old(justDidType1Row)
    {
      ghost var f := justDidType1Row;
      ghost var layout := SetupBoard(f, 2);
      board := [];
      var playerSpace := BoardSize / 2 - 2;
      for i := 0 to playerSpace
        invariant |board| == i && board == layout[..|board|]
        invariant justDidType1Row == FlagBefore(f, |board|)
      {
        var row;
        if justDidType1Row {
          row := CreateRowPrototype2(Black);
        } else {
          row := CreateRowPrototype1(Black);
        }
        assert layout[|board|] == row;
        assert layout[..|board| + 1] == layout[..|board|] + [row];
        board := board + [row];
      }
      var empty := CreateEmptyRow();
      assert layout[|board|] == empty;
      assert layout[..|board| + 1] == layout[..|board|] + [empty];
      board := board + [empty];
      empty := CreateEmptyRow();
      assert layout[|board|] == empty;
      assert layout[..|board| + 1] == layout[..|board|] + [empty];
      board := board + [empty];
      for i := 0 to playerSpace
        invariant |board| == playerSpace + 2 + i && board == layout[..|board|]
        invariant justDidType1Row == FlagBefore(f, |board|)
      {
        var row;
        if justDidType1Row {
          row := CreateRowPrototype2(Red);
        } else {
          row := CreateRowPrototype1(Red);
        }
        assert layout[|board|] == row;
        assert layout[..|board| + 1] == layout[..|board|] + [row];
        board := board + [row];
      }
      assert layout[..|layout|] == layout;
      FlagBeforeParity(f, |layout|);
    }

    /** `createRowPrototype1`: pieces at the odd columns. */
    method CreateRowPrototype1(player: Player) returns (row: seq<Cell>)
      modifies this`justDidType1Row
      ensures row == PieceRow(player, true)
      ensures justDidType1Row
    {
      row := [];
      for position := 0 to BoardSize
        invariant row == PieceRow(player, true)[..position]
      {
        if position % 2 == 0 {
          row := row + [None];
        } else {
          row := row + [Some(NewPiece(player))];
        }
        assert PieceRow(player, true)[..position + 1] == PieceRow(player, true)[..position] + [PieceRow(player, true)[position]];
      }
      justDidType1Row := true;
      assert PieceRow(player, true)[..BoardSize] == PieceRow(player, true);
    }

    /** `createRowPrototype2`: pieces at the even columns. */
    method CreateRowPrototype2(player: Player) returns (row: seq<Cell>)
      modifies this`justDidType1Row
      ensures row == PieceRow(player, false)
      ensures !justDidType1Row
    {
      row := [];
      for position := 0 to BoardSize
        invariant row == PieceRow(player, false)[..position]
      {
        if position % 2 != 0 {
          row := row + [None];
        } else {
          row := row + [Some(NewPiece(player))];
        }
        assert PieceRow(player, false)[..position + 1] == PieceRow(player, false)[..position] + [PieceRow(player, false)[position]];
      }
      justDidType1Row := false;
      assert PieceRow(player, false)[..BoardSize] == PieceRow(player, false);
    }

    /** `createEmptyRow`: eight empty cells; the flag is negated. */
    method CreateEmptyRow() returns (row: seq<Cell>)
      modifies this`justDidType1Row
      ensures row == EmptyRow()
      ensures justDidType1Row == !old(justDidType1Row)
    {
      row := [];
      for position := 0 to BoardSize
        invariant row == EmptyRow()[..position]
      {
        row := row + [None];
        assert EmptyRow()[..position + 1] == EmptyRow()[..position] + [None];
      }
      justDidType1Row := !justDidType1Row;
      assert EmptyRow()[..BoardSize] == EmptyRow();
    }
  }
}
