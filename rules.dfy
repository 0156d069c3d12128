/** The rules the game controller (Controllers/CheckersGameController.swift) applies,
    written as functions from one snapshot of its fields to the next. The class in
    module GameController is proved to follow them; the lemmas here state what the
    rules guarantee. */
module GameRules {
  import opened Wrappers
  import opened Pieces
  import opened Board

  /** The notifications the delegate receives. */
  datatype Event =
    | BoardUpdated
    | Won(winner: Player)
    | TurnChanged(player: Player)
    | Selected(position: Position)

  /** Every field of the controller, plus the notifications sent so far. */
  datatype Game = Game(
    currentPlayer: Player,
    boardState: Grid,
    playerHasMoved: bool,
    moveWasJump: bool,
    selection: Option<Position>,
    blackPieces: int,
    redPieces: int,
    lastRowStartedWithEmptySpace: bool,
    events: seq<Event>)

  /** Rows of pieces each side starts with. */
  const PlayerSpace: nat := BoardSize / 2 - 1

  function PieceCount(g: Game, p: Player): int {
    if p == Black then g.blackPieces else g.redPieces
  }

  /** How far a counter is above the number of that player's pieces on the board. */
  function Surplus(g: Game, p: Player): int {
    PieceCount(g, p) - GridCount(g.boardState, p)
  }

  /** What every reachable state satisfies: an 8 by 8 board, the row-kind flag false
      (each setup leaves it as it found it), no counter below its pieces on the board
      (so a capture can never drive a counter negative) and a selection on the board. */
  predicate Consistent(g: Game) {
    && WellFormed(g.boardState)
    && !g.lastRowStartedWithEmptySpace
    && g.blackPieces >= GridCount(g.boardState, Black)
    && g.redPieces >= GridCount(g.boardState, Red)
    && (g.selection.Some? ==> InBounds(g.selection.value))
  }

  /** The board `setupInitialBoard` builds when the flag starts false. */
  function InitialBoard(): Grid {
    SetupBoard(false, PlayerSpace)
  }

  /** The state right after `init`. */
  function InitialGame(): (g: Game)
    ensures Consistent(g)
  {
    SetupCount(false, PlayerSpace);
    Game(Red, InitialBoard(), false, false, None, 12, 12, false, [])
  }

  /** `updatePiecesCount` followed by the counter's `didSet` observer: a counter that
      reaches 0 announces the other player as the winner. A negative counter is fatal,
      so callers must keep it non-negative. */
  function UpdatedCount(g: Game, p: Player, adjustBy: int): (r: Game)
    requires PieceCount(g, p) + adjustBy >= 0
    ensures PieceCount(r, p) == PieceCount(g, p) + adjustBy
    ensures PieceCount(r, Other(p)) == PieceCount(g, Other(p))
    ensures r.events == g.events + (if PieceCount(r, p) == 0 then [Won(Other(p))] else [])
    ensures r.(blackPieces := g.blackPieces, redPieces := g.redPieces, events := g.events) == g
  {
    var n := PieceCount(g, p) + adjustBy;
    var counted := if p == Black then g.(blackPieces := n) else g.(redPieces := n);
    counted.(events := g.events + if n == 0 then [Won(Other(p))] else [])
  }

  /** The row a piece of `p` is crowned on. */
  function FarRow(p: Player): int {
    if p == Red then 0 else BoardSize - 1
  }

  function ShouldBeKing(piece: Piece, at: Position): (r: bool)
    ensures r <==> piece.isKing || at.row == FarRow(piece.owner)
  {
    if piece.isKing then true
    else match piece.owner
      case Red => at.row == 0
      case Black => at.row == BoardSize - 1
  }

  /** The piece as it stands after arriving at `at`. */
  function Promoted(piece: Piece, at: Position): Piece {
    if ShouldBeKing(piece, at) then Crowned(piece) else piece
  }

  /** `movePiece` on the board: the source cell's value is written to the destination,
      the source is cleared, and the arrived piece is written back crowned when
      `shouldBeKing` holds. */
  function MovedGrid(b: Grid, from: Position, to: Position): (r: Grid)
    requires WellFormed(b) && InBounds(from) && InBounds(to)
    ensures WellFormed(r)
  {
    var cleared := Put(Put(b, to, At(b, from)), from, None);
    var arrived := At(cleared, to);
    if arrived.Some? && ShouldBeKing(arrived.value, to) then Put(cleared, to, Some(Crowned(arrived.value)))
    else cleared
  }

  /** -1 is toward row 0 (`towardTop`), +1 toward row 7. */
  function Direction(towardTop: bool): int {
    if towardTop then -1 else 1
  }

  /** The jumped cell the controller inspects: one row from the start in the move's
      direction, at the average of the two columns. */
  function Midpoint(start: Position, end: Position): Position {
    Position((start.row + end.row) / 2, (start.column + end.column) / 2)
  }

  /** `performMove(start:end:towardTop:)`: None when it returns false (nothing changes). */
  function AfterMoveToward(g: Game, start: Position, end: Position, towardTop: bool): (r: Option<Game>)
    requires Consistent(g) && InBounds(start) && InBounds(end)
    ensures r.Some? ==> At(g.boardState, start).Some? && At(g.boardState, start).value.owner == g.currentPlayer
    ensures r.Some? ==> At(g.boardState, end).None?
    ensures r.Some? && !r.value.moveWasJump ==> !g.playerHasMoved
    ensures r.Some? ==> r.value.(boardState := g.boardState, moveWasJump := g.moveWasJump, blackPieces := g.blackPieces,
                                   redPieces := g.redPieces, events := g.events) == g
    ensures r.Some? ==> g.events <= r.value.events
  {
    var cell := At(g.boardState, start);
    if cell.None? || cell.value.owner != g.currentPlayer then None
    else
      var dir := Direction(towardTop);
      if end.row == start.row + dir && !g.playerHasMoved then AfterStep(g, start, end)
      else if end.row == start.row + dir * 2 then AfterJump(g, start, end, dir)
      else None
  }

  /** The one-row branch: the target must be empty and one column to either side. A
      step changes only the board and clears `moveWasJump`. */
  function AfterStep(g: Game, start: Position, end: Position): (r: Option<Game>)
    requires Consistent(g) && InBounds(start) && InBounds(end)
    ensures r.Some? ==> At(g.boardState, end).None?
    ensures r.Some? ==> end.column - start.column == 1 || start.column - end.column == 1
    ensures r.Some? ==> r.value.(boardState := g.boardState, moveWasJump := g.moveWasJump) == g && !r.value.moveWasJump
  {
    if At(g.boardState, end).Some? then None
    else if end.column == start.column + 1 || end.column == start.column - 1 then
      Some(g.(boardState := MovedGrid(g.boardState, start, end), moveWasJump := false))
    else None
  }

  /** The two-row branch: the target must be empty and the cell one row ahead, at the
      average column, must hold an opponent's piece, which is removed and uncounted. */
  function AfterJump(g: Game, start: Position, end: Position, dir: int): (r: Option<Game>)
    requires Consistent(g) && InBounds(start) && InBounds(end)
    requires (dir == 1 || dir == -1) && end.row == start.row + dir * 2
    ensures r.Some? ==> At(g.boardState, end).None? && r.value.moveWasJump
    ensures r.Some? ==> r.value.(boardState := g.boardState, moveWasJump := g.moveWasJump, blackPieces := g.blackPieces,
                                   redPieces := g.redPieces, events := g.events) == g
    ensures r.Some? ==> g.events <= r.value.events
  {
    if CanCapture(g, start, end, dir) then Some(Captured(g, start, end, dir)) else None
  }

  /** The cell a two-row move toward `dir` jumps over, as the controller computes it. */
  function JumpedCell(start: Position, end: Position, dir: int): Position {
    Position(end.row - dir, (start.column + end.column) / 2)
  }

  /** Whether the two-row branch captures: the target is empty and the cell between
      start and target holds an opponent's piece. */
  predicate CanCapture(g: Game, start: Position, end: Position, dir: int): (ok: bool)
    requires Consistent(g) && InBounds(start) && InBounds(end)
    requires (dir == 1 || dir == -1) && end.row == start.row + dir * 2
    ensures ok <==> && At(g.boardState, end).None?
                    && InBounds(Midpoint(start, end))
                    && At(g.boardState, Midpoint(start, end)).Some?
                    && At(g.boardState, Midpoint(start, end)).value.owner == Other(g.currentPlayer)
  {
    var jumpedPiece := At(g.boardState, JumpedCell(start, end, dir));
    At(g.boardState, end).None? && jumpedPiece.Some? && jumpedPiece.value.owner != g.currentPlayer
  }

  /** The state after a capture: the opponent loses one from its counter, the mover's
      counter stays, the move is marked as a jump, and only the board, the counters and
      the log change. */
  function Captured(g: Game, start: Position, end: Position, dir: int): (m: Game)
    requires Consistent(g) && InBounds(start) && InBounds(end)
    requires (dir == 1 || dir == -1) && end.row == start.row + dir * 2
    requires CanCapture(g, start, end, dir)
    ensures m.moveWasJump
    ensures PieceCount(m, Other(g.currentPlayer)) == PieceCount(g, Other(g.currentPlayer)) - 1
    ensures PieceCount(m, g.currentPlayer) == PieceCount(g, g.currentPlayer)
    ensures m.(boardState := g.boardState, moveWasJump := g.moveWasJump, blackPieces := g.blackPieces,
               redPieces := g.redPieces, events := g.events) == g
    ensures g.events <= m.events
  {
    var b := g.boardState;
    var jumped := JumpedCell(start, end, dir);
    var owner := At(b, jumped).value.owner;
    var removed := g.(boardState := Put(b, jumped, None));
    PutCount(b, jumped, None, owner);
    var counted := UpdatedCount(removed, owner, -1);
    counted.(boardState := MovedGrid(counted.boardState, start, end), moveWasJump := true)
  }

  /** `performMove(start:end:)`: a king tries toward row 0 first, then toward row 7;
      other pieces move toward row 0 for red and toward row 7 for black. */
  function AfterMove(g: Game, start: Position, end: Position): (r: Option<Game>)
    requires Consistent(g) && InBounds(start) && InBounds(end)
    ensures r.Some? ==> At(g.boardState, start).Some? && At(g.boardState, start).value.owner == g.currentPlayer
    ensures r.Some? ==> At(g.boardState, end).None?
    ensures r.Some? ==> r.value.(boardState := g.boardState, moveWasJump := g.moveWasJump, blackPieces := g.blackPieces,
                                   redPieces := g.redPieces, events := g.events) == g
    ensures r.Some? ==> g.events <= r.value.events
  {
    var cell := At(g.boardState, start);
    if cell.None? || cell.value.owner != g.currentPlayer then None
    else if cell.value.isKing then
      var up := AfterMoveToward(g, start, end, true);
      if up.Some? then up else AfterMoveToward(g, start, end, false)
    else AfterMoveToward(g, start, end, g.currentPlayer == Red)
  }

  /** `positionSelected`: choosing a cell never passes the turn, only adds to the log,
      and every change it makes is announced. */
  function AfterPositionSelected(g: Game, chosen: Position): (r: Game)
    requires Consistent(g) && InBounds(chosen)
    ensures r.currentPlayer == g.currentPlayer
    ensures g.events <= r.events
    ensures r != g ==> |r.events| > |g.events|
  {
    var moved := if g.selection.Some? then AfterMove(g, g.selection.value, chosen) else None;
    if moved.Some? then
      var m := moved.value;
      m.(events := m.events + [BoardUpdated],
         selection := if m.moveWasJump then Some(chosen) else None,
         playerHasMoved := true)
    else
      var cell := At(g.boardState, chosen);
      if cell.Some? && cell.value.owner == g.currentPlayer && !g.playerHasMoved then
        g.(selection := Some(chosen), events := g.events + [Selected(chosen)])
      else if g.selection == Some(chosen) then
        g.(events := g.events + [Selected(chosen)])
      else g
  }

  /** `switchPlayers`: the turn passes exactly when the player has moved; the board, the
      counters and the selection never change. */
  function AfterSwitchPlayers(g: Game): (r: Game)
    ensures r.currentPlayer != g.currentPlayer <==> g.playerHasMoved
    ensures r.boardState == g.boardState && r.selection == g.selection
    ensures r.blackPieces == g.blackPieces && r.redPieces == g.redPieces
  {
    if !g.playerHasMoved then g
    else
      var next := Other(g.currentPlayer);
      g.(currentPlayer := next, playerHasMoved := false, moveWasJump := false,
         events := g.events + [TurnChanged(next)])
  }

  /** `resetGame`: the setup runs again and adds its pieces to the counters, so each
      counter gains exactly the 12 pieces the new board holds per side. */
  function AfterReset(g: Game): (r: Game)
    requires g.blackPieces >= 0 && g.redPieces >= 0
    ensures GridCount(r.boardState, Black) == 12 && GridCount(r.boardState, Red) == 12
    ensures r.blackPieces == g.blackPieces + GridCount(r.boardState, Black)
    ensures r.redPieces == g.redPieces + GridCount(r.boardState, Red)
    ensures r.currentPlayer == Red && r.selection == g.selection
  {
    SetupCount(g.lastRowStartedWithEmptySpace, PlayerSpace);
    g.(boardState := SetupBoard(g.lastRowStartedWithEmptySpace, PlayerSpace),
       blackPieces := g.blackPieces + 4 * PlayerSpace,
       redPieces := g.redPieces + 4 * PlayerSpace,
       currentPlayer := Red, playerHasMoved := false, moveWasJump := false,
       events := g.events + [BoardUpdated, TurnChanged(Red)])
  }

  // The rules as a reference definition

  /** Whether `piece` may travel in direction `dir`: kings both ways, red toward row 0,
      black toward row 7. */
  predicate MayMoveToward(piece: Piece, dir: int) {
    piece.isKing || dir == (if piece.owner == Red then -1 else 1)
  }

  /** A single diagonal step in direction `dir`, only as the first move of a turn. */
  predicate IsStep(g: Game, start: Position, end: Position, dir: int) {
    && !g.playerHasMoved
    && end.row == start.row + dir
    && (end.column == start.column + 1 || end.column == start.column - 1)
  }

  /** A jump two rows in direction `dir` over an opponent at the midpoint; the column
      of the landing cell is not constrained. */
  predicate IsJump(g: Game, start: Position, end: Position, dir: int)
    requires WellFormed(g.boardState) && InBounds(start) && InBounds(end)
  {
    && end.row == start.row + 2 * dir
    && (dir == 1 || dir == -1)
    && var over := At(g.boardState, Midpoint(start, end));
       over.Some? && over.value.owner != g.currentPlayer
  }

  predicate LegalToward(g: Game, start: Position, end: Position, dir: int)
    requires WellFormed(g.boardState) && InBounds(start) && InBounds(end)
    requires At(g.boardState, start).Some?
  {
    MayMoveToward(At(g.boardState, start).value, dir) && (IsStep(g, start, end, dir) || IsJump(g, start, end, dir))
  }

  /** A move the controller accepts: an own piece at the start, an empty landing cell,
      and a step or a jump in a direction the piece may travel. */
  predicate LegalMove(g: Game, start: Position, end: Position)
    requires WellFormed(g.boardState) && InBounds(start) && InBounds(end)
  {
    var cell := At(g.boardState, start);
    && cell.Some? && cell.value.owner == g.currentPlayer
    && At(g.boardState, end).None?
    && (LegalToward(g, start, end, -1) || LegalToward(g, start, end, 1))
  }

  lemma MoveTowardLegalIff(g: Game, start: Position, end: Position, towardTop: bool)
    requires Consistent(g) && InBounds(start) && InBounds(end)
    ensures AfterMoveToward(g, start, end, towardTop).Some? <==>
            && At(g.boardState, start).Some? && At(g.boardState, start).value.owner == g.currentPlayer
            && At(g.boardState, end).None?
            && (IsStep(g, start, end, Direction(towardTop)) || IsJump(g, start, end, Direction(towardTop)))
  {
    var dir := Direction(towardTop);
    if end.row == start.row + 2 * dir {
      assert Midpoint(start, end) == Position(end.row - dir, (start.column + end.column) / 2);
    }
  }

  /** A move succeeds exactly when it is legal by the reference rules. */
  lemma MoveLegalIff(g: Game, start: Position, end: Position)
    requires Consistent(g) && InBounds(start) && InBounds(end)
    ensures AfterMove(g, start, end).Some? <==> LegalMove(g, start, end)
  {
    MoveTowardLegalIff(g, start, end, true);
    MoveTowardLegalIff(g, start, end, false);
  }

  /** A move is refused when the start cell is empty or holds the opponent's piece, when
      the target is occupied, or when the target is not one or two rows away. */
  lemma RejectedMoves(g: Game, start: Position, end: Position)
    requires Consistent(g) && InBounds(start) && InBounds(end)
    ensures At(g.boardState, start).None? ==> AfterMove(g, start, end).None?
    ensures At(g.boardState, start).Some? && At(g.boardState, start).value.owner != g.currentPlayer
            ==> AfterMove(g, start, end).None?
    ensures At(g.boardState, end).Some? ==> AfterMove(g, start, end).None?
    ensures !(end.row - start.row in {-2, -1, 1, 2}) ==> AfterMove(g, start, end).None?
  {
    MoveLegalIff(g, start, end);
  }

  // What a move does

  lemma MovedGridEffect(b: Grid, from: Position, to: Position)
    requires WellFormed(b) && InBounds(from) && InBounds(to) && from != to
    ensures At(MovedGrid(b, from, to), to) == if At(b, from).Some? then Some(Promoted(At(b, from).value, to)) else None
    ensures At(MovedGrid(b, from, to), from) == None
    ensures forall q :: InBounds(q) && q != from && q != to ==> At(MovedGrid(b, from, to), q) == At(b, q)
  {
  }

  /** Moving onto an empty cell keeps every player's count on the board. */
  lemma MovedGridCount(b: Grid, from: Position, to: Position, p: Player)
    requires WellFormed(b) && InBounds(from) && InBounds(to) && At(b, to).None?
    ensures GridCount(MovedGrid(b, from, to), p) == GridCount(b, p)
  {
    var placed := Put(b, to, At(b, from));
    PutCount(b, to, At(b, from), p);
    PutCount(placed, from, None, p);
    var cleared := Put(placed, from, None);
    var arrived := At(cleared, to);
    if arrived.Some? && ShouldBeKing(arrived.value, to) {
      PutCount(cleared, to, Some(Crowned(arrived.value)), p);
    }
  }

  /** Everything a successful move from `start` to `end` does; `m` is the state after it. */
  ghost predicate MoveEffects(g: Game, start: Position, end: Position, m: Game)
    requires WellFormed(g.boardState) && InBounds(start) && InBounds(end)
  {
    var b, after := g.boardState, m.boardState;
    var piece := At(b, start);
    var mover := g.currentPlayer;
    var jump := m.moveWasJump;
    var mid := Midpoint(start, end);
    && WellFormed(after)
    && piece.Some? && piece.value.owner == mover
    && At(b, end).None?
    && At(after, end) == Some(Promoted(piece.value, end))
    && At(after, start) == None
    && (jump <==> end.row - start.row == 2 || start.row - end.row == 2)
    && (!jump ==> && !g.playerHasMoved
                  && (end.row - start.row == 1 || start.row - end.row == 1)
                  && (end.column - start.column == 1 || start.column - end.column == 1))
    && (jump ==> && InBounds(mid)
                 && At(b, mid).Some? && At(b, mid).value.owner == Other(mover)
                 && At(after, mid) == None)
    && (forall q :: InBounds(q) && q != start && q != end && (jump ==> q != mid) ==> At(after, q) == At(b, q))
    && PieceCount(m, mover) == PieceCount(g, mover)
    && PieceCount(m, Other(mover)) == PieceCount(g, Other(mover)) - (if jump then 1 else 0)
    && m.events == g.events + (if jump && PieceCount(m, Other(mover)) == 0 then [Won(mover)] else [])
    && m.currentPlayer == mover
    && m.playerHasMoved == g.playerHasMoved
    && m.selection == g.selection
    && m.lastRowStartedWithEmptySpace == g.lastRowStartedWithEmptySpace
  }

  lemma StepEffect(g: Game, start: Position, end: Position, dir: int)
    requires Consistent(g) && InBounds(start) && InBounds(end)
    requires At(g.boardState, start).Some? && At(g.boardState, start).value.owner == g.currentPlayer
    requires (dir == 1 || dir == -1) && end.row == start.row + dir && !g.playerHasMoved
    requires AfterStep(g, start, end).Some?
    ensures MoveEffects(g, start, end, AfterStep(g, start, end).value)
  {
    MovedGridEffect(g.boardState, start, end);
  }

  lemma CaptureEffect(g: Game, start: Position, end: Position, dir: int)
    requires Consistent(g) && InBounds(start) && InBounds(end)
    requires At(g.boardState, start).Some? && At(g.boardState, start).value.owner == g.currentPlayer
    requires (dir == 1 || dir == -1) && end.row == start.row + dir * 2
    requires CanCapture(g, start, end, dir)
    ensures MoveEffects(g, start, end, Captured(g, start, end, dir))
  {
    var jumped := JumpedCell(start, end, dir);
    assert jumped == Midpoint(start, end);
    MovedGridEffect(Put(g.boardState, jumped, None), start, end);
  }

  lemma MoveTowardEffect(g: Game, start: Position, end: Position, towardTop: bool)
    requires Consistent(g) && InBounds(start) && InBounds(end)
    requires AfterMoveToward(g, start, end, towardTop).Some?
    ensures MoveEffects(g, start, end, AfterMoveToward(g, start, end, towardTop).value)
  {
    var dir := Direction(towardTop);
    if end.row == start.row + dir && !g.playerHasMoved {
      StepEffect(g, start, end, dir);
    } else {
      CaptureEffect(g, start, end, dir);
    }
  }

  /** The effect of a successful `performMove`: the piece (crowned where due) lands on the
      empty target and leaves its start; a step is a first move with a one-column shift;
      a jump clears the opponent's piece at the midpoint and takes one from that
      opponent's counter, announcing the mover as winner when it reaches 0; nothing
      else changes. */
  lemma MoveEffect(g: Game, start: Position, end: Position)
    requires Consistent(g) && InBounds(start) && InBounds(end)
    requires AfterMove(g, start, end).Some?
    ensures MoveEffects(g, start, end, AfterMove(g, start, end).value)
  {
    var piece := At(g.boardState, start).value;
    if piece.isKing && AfterMoveToward(g, start, end, true).Some? {
      MoveTowardEffect(g, start, end, true);
    } else if piece.isKing {
      MoveTowardEffect(g, start, end, false);
    } else {
      MoveTowardEffect(g, start, end, g.currentPlayer == Red);
    }
  }

  lemma StepKeepsCounts(g: Game, start: Position, end: Position, p: Player)
    requires Consistent(g) && InBounds(start) && InBounds(end) && At(g.boardState, end).None?
    ensures var m := g.(boardState := MovedGrid(g.boardState, start, end), moveWasJump := false);
            Consistent(m) && Surplus(m, p) == Surplus(g, p)
  {
    MovedGridCount(g.boardState, start, end, p);
    MovedGridCount(g.boardState, start, end, Other(p));
  }

  /** A capture removes one opponent piece from the board and keeps the mover's. */
  lemma CapturedGridCount(g: Game, start: Position, end: Position, dir: int, q: Player)
    requires Consistent(g) && InBounds(start) && InBounds(end)
    requires (dir == 1 || dir == -1) && end.row == start.row + dir * 2
    requires CanCapture(g, start, end, dir)
    ensures GridCount(Captured(g, start, end, dir).boardState, q)
            == GridCount(g.boardState, q) - (if q == g.currentPlayer then 0 else 1)
  {
    var b := g.boardState;
    var jumped := JumpedCell(start, end, dir);
    var removed := Put(b, jumped, None);
    PutCount(b, jumped, None, q);
    MovedGridCount(removed, start, end, q);
    assert Captured(g, start, end, dir).boardState == MovedGrid(removed, start, end);
  }

  lemma CaptureKeepsCounts(g: Game, start: Position, end: Position, dir: int, p: Player)
    requires Consistent(g) && InBounds(start) && InBounds(end)
    requires (dir == 1 || dir == -1) && end.row == start.row + dir * 2
    requires CanCapture(g, start, end, dir)
    ensures Consistent(Captured(g, start, end, dir))
    ensures Surplus(Captured(g, start, end, dir), p) == Surplus(g, p)
  {
    CapturedGridCount(g, start, end, dir, p);
    CapturedGridCount(g, start, end, dir, Other(p));
  }

  lemma MoveTowardKeepsCounts(g: Game, start: Position, end: Position, towardTop: bool, p: Player)
    requires Consistent(g) && InBounds(start) && InBounds(end)
    requires AfterMoveToward(g, start, end, towardTop).Some?
    ensures Consistent(AfterMoveToward(g, start, end, towardTop).value)
    ensures Surplus(AfterMoveToward(g, start, end, towardTop).value, p) == Surplus(g, p)
  {
    var dir := Direction(towardTop);
    if end.row == start.row + dir && !g.playerHasMoved {
      StepKeepsCounts(g, start, end, p);
    } else {
      CaptureKeepsCounts(g, start, end, dir, p);
    }
  }

  /** A move keeps the state consistent, and each counter stays exactly as far above
      that player's pieces on the board as it was. */
  lemma MoveKeepsCounts(g: Game, start: Position, end: Position, p: Player)
    requires Consistent(g) && InBounds(start) && InBounds(end)
    requires AfterMove(g, start, end).Some?
    ensures Consistent(AfterMove(g, start, end).value)
    ensures Surplus(AfterMove(g, start, end).value, p) == Surplus(g, p)
  {
    var piece := At(g.boardState, start).value;
    if piece.isKing && AfterMoveToward(g, start, end, true).Some? {
      MoveTowardKeepsCounts(g, start, end, true, p);
    } else if piece.isKing {
      MoveTowardKeepsCounts(g, start, end, false, p);
    } else {
      MoveTowardKeepsCounts(g, start, end, g.currentPlayer == Red, p);
    }
  }

  /** After any successful move the piece on the target keeps its owner, stays a king if
      it was one, and is a king when it stands on its far row (row 0 for red, row 7 for
      black). */
  lemma PromotionAfterMove(g: Game, start: Position, end: Position)
    requires Consistent(g) && InBounds(start) && InBounds(end)
    requires AfterMove(g, start, end).Some?
    ensures var landed := At(AfterMove(g, start, end).value.boardState, end);
            var piece := At(g.boardState, start).value;
            && landed.Some? && landed.value.owner == g.currentPlayer
            && (landed.value.isKing <==> piece.isKing
                                         || (g.currentPlayer == Red && end.row == 0)
                                         || (g.currentPlayer == Black && end.row == BoardSize - 1))
  {
    MoveEffect(g, start, end);
  }

  /** A piece that is not a king moves only forward: red toward row 0, black toward row 7. */
  lemma NonKingsMoveForward(g: Game, start: Position, end: Position)
    requires Consistent(g) && InBounds(start) && InBounds(end)
    requires AfterMove(g, start, end).Some? && !At(g.boardState, start).value.isKing
    ensures g.currentPlayer == Red ==> end.row < start.row
    ensures g.currentPlayer == Black ==> end.row > start.row
  {
    MoveLegalIff(g, start, end);
  }

  /** Once the player has moved this turn, the only move still accepted is a jump. */
  lemma OnlyJumpsAfterMoving(g: Game, start: Position, end: Position)
    requires Consistent(g) && InBounds(start) && InBounds(end)
    requires g.playerHasMoved && AfterMove(g, start, end).Some?
    ensures AfterMove(g, start, end).value.moveWasJump
    ensures end.row - start.row == 2 || start.row - end.row == 2
  {
    MoveEffect(g, start, end);
  }

  // Choosing a cell

  /** `positionSelected` keeps the state consistent and every counter's surplus. */
  lemma PositionSelectedKeepsCounts(g: Game, chosen: Position, p: Player)
    requires Consistent(g) && InBounds(chosen)
    ensures Consistent(AfterPositionSelected(g, chosen))
    ensures Surplus(AfterPositionSelected(g, chosen), p) == Surplus(g, p)
  {
    if g.selection.Some? && AfterMove(g, g.selection.value, chosen).Some? {
      MoveKeepsCounts(g, g.selection.value, chosen, p);
    }
  }

  /** When the chosen cell completes a move from the selected one: the player has moved,
      the selection stays on the landed piece after a jump and is cleared otherwise, and
      the delegate hears of a win (from a counter reaching 0) before the board update. */
  lemma PositionSelectedMoves(g: Game, chosen: Position)
    requires Consistent(g) && InBounds(chosen)
    requires g.selection.Some? && AfterMove(g, g.selection.value, chosen).Some?
    ensures var r := AfterPositionSelected(g, chosen);
            var mover := g.currentPlayer;
            && r.playerHasMoved
            && r.currentPlayer == mover
            && r.selection == (if r.moveWasJump then Some(chosen) else None)
            && At(r.boardState, g.selection.value) == None
            && At(r.boardState, chosen).Some? && At(r.boardState, chosen).value.owner == mover
            && PieceCount(r, Other(mover)) == PieceCount(g, Other(mover)) - (if r.moveWasJump then 1 else 0)
            && r.events == g.events
                           + (if r.moveWasJump && PieceCount(r, Other(mover)) == 0 then [Won(mover)] else [])
                           + [BoardUpdated]
  {
    MoveEffect(g, g.selection.value, chosen);
  }

  /** When no move happens: only the selection and the notifications can change. A new
      own piece is selected only before the player has moved; re-choosing the selected
      cell re-announces it; anything else is ignored. */
  lemma PositionSelectedWithoutMove(g: Game, chosen: Position)
    requires Consistent(g) && InBounds(chosen)
    requires g.selection.None? || AfterMove(g, g.selection.value, chosen).None?
    ensures var r := AfterPositionSelected(g, chosen);
            var cell := At(g.boardState, chosen);
            var pick := cell.Some? && cell.value.owner == g.currentPlayer && !g.playerHasMoved;
            && r.(selection := g.selection, events := g.events) == g
            && r.selection == (if pick then Some(chosen) else g.selection)
            && r.events == g.events + (if pick || g.selection == Some(chosen) then [Selected(chosen)] else [])
  {
  }

  // Ending a turn, resetting

  /** `switchPlayers` does nothing before the player has moved; afterwards it hands the
      turn to the other player, clears both per-turn flags, keeps the selection and the
      board, and announces the new player. */
  lemma SwitchPlayersEffect(g: Game)
    ensures var r := AfterSwitchPlayers(g);
            && (!g.playerHasMoved ==> r == g)
            && (g.playerHasMoved ==>
                  && r.currentPlayer == Other(g.currentPlayer)
                  && !r.playerHasMoved && !r.moveWasJump
                  && r.selection == g.selection
                  && r.(currentPlayer := g.currentPlayer, playerHasMoved := true,
                        moveWasJump := g.moveWasJump, events := g.events) == g
                  && r.events == g.events + [TurnChanged(r.currentPlayer)])
  {
  }

  /** One cell of the initial board: dark squares of rows 0 to 2 hold black men, dark
      squares of rows 5 to 7 hold red men, everything else is empty. */
  lemma InitialCell(r: int, c: int)
    requires 0 <= r < BoardSize && 0 <= c < BoardSize
    ensures WellFormed(InitialBoard())
    ensures At(InitialBoard(), Position(r, c))
            == if (r + c) % 2 == 1 && r < 3 then Some(NewPiece(Black))
               else if (r + c) % 2 == 1 && r >= 5 then Some(NewPiece(Red))
               else None
  {
    FlagBeforeParity(false, r);
    assert (c % 2 == 1) == (r % 2 == 0) <==> (r + c) % 2 == 1;
  }

  /** The board after `init`: black pieces exactly on rows 0-2 where row + column is odd,
      red pieces exactly on rows 5-7 where row + column is odd, rows 3 and 4 empty, no
      kings, and twelve pieces per side on the board and in each counter. */
  lemma InitialLayout()
    ensures WellFormed(InitialBoard())
    ensures forall r, c :: 0 <= r < BoardSize && 0 <= c < BoardSize ==>
              At(InitialBoard(), Position(r, c))
              == if (r + c) % 2 == 1 && r < 3 then Some(NewPiece(Black))
                 else if (r + c) % 2 == 1 && r >= 5 then Some(NewPiece(Red))
                 else None
    ensures GridCount(InitialBoard(), Black) == 12 && GridCount(InitialBoard(), Red) == 12
    ensures Consistent(InitialGame())
    ensures Surplus(InitialGame(), Black) == 0 && Surplus(InitialGame(), Red) == 0
  {
    SetupCount(false, PlayerSpace);
    forall r, c | 0 <= r < BoardSize && 0 <= c < BoardSize
      ensures At(InitialBoard(), Position(r, c))
              == if (r + c) % 2 == 1 && r < 3 then Some(NewPiece(Black))
                 else if (r + c) % 2 == 1 && r >= 5 then Some(NewPiece(Red))
                 else None
    {
      InitialCell(r, c);
    }
  }

  /** `resetGame` lays out the initial board again and gives red the move with both
      per-turn flags cleared, but it adds twelve to each counter instead of resetting it
      and leaves the selection alone; the delegate hears of the board and then of red's
      turn. */
  lemma ResetEffect(g: Game, p: Player)
    requires Consistent(g)
    ensures var r := AfterReset(g);
            && Consistent(r)
            && r.boardState == InitialBoard()
            && r.currentPlayer == Red && !r.playerHasMoved && !r.moveWasJump
            && r.selection == g.selection
            && PieceCount(r, p) == PieceCount(g, p) + 12
            && Surplus(r, p) == PieceCount(g, p)
            && r.events == g.events + [BoardUpdated, TurnChanged(Red)]
  {
    SetupCount(false, PlayerSpace);
  }

  /** Resetting a fresh game leaves 24 in each counter with 12 pieces per side on the board. */
  lemma ResetAfterInitDoublesCounts()
    ensures AfterReset(InitialGame()).blackPieces == 24
    ensures AfterReset(InitialGame()).redPieces == 24
    ensures GridCount(AfterReset(InitialGame()).boardState, Black) == 12
  {
    InitialLayout();
  }

  // Sequences of inputs

  /** What the presentation layer can send. */
  datatype Input = Choose(position: Position) | EndTurn | Reset

  predicate ValidInput(i: Input) {
    i.Choose? ==> InBounds(i.position)
  }

  function AfterInput(g: Game, i: Input): (r: Game)
    requires Consistent(g) && ValidInput(i)
    ensures Consistent(r)
  {
    match i
    case Choose(pos) =>
      PositionSelectedKeepsCounts(g, pos, Red);
      AfterPositionSelected(g, pos)
    case EndTurn => AfterSwitchPlayers(g)
    case Reset =>
      ResetEffect(g, Red);
      AfterReset(g)
  }

  function Run(g: Game, inputs: seq<Input>): (r: Game)
    requires Consistent(g) && forall k :: 0 <= k < |inputs| ==> ValidInput(inputs[k])
    ensures Consistent(r)
    decreases |inputs|
  {
    if inputs == [] then g else Run(AfterInput(g, inputs[0]), inputs[1..])
  }

  /** Without a reset, any run of inputs keeps each counter's surplus. */
  lemma {:induction false} RunKeepsSurplus(g: Game, inputs: seq<Input>, p: Player)
    requires Consistent(g) && forall k :: 0 <= k < |inputs| ==> ValidInput(inputs[k])
    requires forall k :: 0 <= k < |inputs| ==> !inputs[k].Reset?
    ensures Surplus(Run(g, inputs), p) == Surplus(g, p)
    decreases |inputs|
  {
    if inputs != [] {
      if inputs[0].Choose? {
        PositionSelectedKeepsCounts(g, inputs[0].position, p);
      }
      RunKeepsSurplus(AfterInput(g, inputs[0]), inputs[1..], p);
    }
  }

  /** From `init`, through any inputs other than a reset, each counter equals the number of
      that player's pieces on the board. */
  lemma CountsMatchBoard(inputs: seq<Input>, p: Player)
    requires forall k :: 0 <= k < |inputs| ==> ValidInput(inputs[k]) && !inputs[k].Reset?
    ensures PieceCount(Run(InitialGame(), inputs), p) == GridCount(Run(InitialGame(), inputs).boardState, p)
  {
    InitialLayout();
    RunKeepsSurplus(InitialGame(), inputs, p);
  }

  // Worked examples

  function EmptyBoard(): (b: Grid)
    ensures WellFormed(b)
  {
    seq(BoardSize, r => EmptyRow())
  }

  lemma {:induction false} EmptyBoardPrefixCount(k: int, p: Player)
    requires 0 <= k <= BoardSize
    ensures GridCount(EmptyBoard()[..k], p) == 0
  {
    if k > 0 {
      assert EmptyBoard()[..k][..k - 1] == EmptyBoard()[..k - 1];
      EmptyBoardPrefixCount(k - 1, p);
      EmptyRowPrefixCount(BoardSize, p);
      assert EmptyRow()[..BoardSize] == EmptyRow();
    }
  }

  /** A board holding only the two given pieces. */
  function TwoPieces(a: Position, pa: Piece, b: Position, pb: Piece): (board: Grid)
    requires InBounds(a) && InBounds(b) && a != b
    ensures WellFormed(board)
    ensures GridCount(board, Red) == Holds(Some(pa), Red) + Holds(Some(pb), Red)
    ensures GridCount(board, Black) == Holds(Some(pa), Black) + Holds(Some(pb), Black)
  {
    var empty := EmptyBoard();
    EmptyBoardPrefixCount(BoardSize, Red);
    EmptyBoardPrefixCount(BoardSize, Black);
    assert empty[..BoardSize] == empty;
    var one := Put(empty, a, Some(pa));
    PutCount(empty, a, Some(pa), Red);
    PutCount(empty, a, Some(pa), Black);
    PutCount(one, b, Some(pb), Red);
    PutCount(one, b, Some(pb), Black);
    Put(one, b, Some(pb))
  }

  /** Red at (3,3) and black at (2,2), one piece each: choosing (3,3) and then (1,1)
      captures the black piece, moves red to (1,1), takes black's counter to 0, and keeps
      (1,1) selected; the delegate hears the selection, red's win, then the board update. */
  lemma CaptureExample()
    ensures var board := TwoPieces(Position(3, 3), NewPiece(Red), Position(2, 2), NewPiece(Black));
            var g := Game(Red, board, false, false, None, 1, 1, false, []);
            && Consistent(g)
            && var g1 := AfterPositionSelected(g, Position(3, 3));
               && Consistent(g1)
               && var r := AfterPositionSelected(g1, Position(1, 1));
                  && At(r.boardState, Position(1, 1)) == Some(NewPiece(Red))
                  && At(r.boardState, Position(2, 2)) == None
                  && At(r.boardState, Position(3, 3)) == None
                  && r.blackPieces == 0 && r.redPieces == 1
                  && r.selection == Some(Position(1, 1))
                  && r.playerHasMoved && r.moveWasJump
                  && r.events == [Selected(Position(3, 3)), Won(Red), BoardUpdated]
  {
    var board := TwoPieces(Position(3, 3), NewPiece(Red), Position(2, 2), NewPiece(Black));
    var g := Game(Red, board, false, false, None, 1, 1, false, []);
    PositionSelectedKeepsCounts(g, Position(3, 3), Red);
    var g1 := AfterPositionSelected(g, Position(3, 3));
    assert g1 == g.(selection := Some(Position(3, 3)), events := [Selected(Position(3, 3))]);
    PositionSelectedMoves(g1, Position(1, 1));
    MoveEffect(g1, Position(3, 3), Position(1, 1));
  }

  /** Red at (5, 2) jumps the black man straight ahead at (4, 2) onto (3, 2). */
  lemma StraightJumpAccepted()
    ensures var straight := TwoPieces(Position(5, 2), NewPiece(Red), Position(4, 2), NewPiece(Black));
            var g := Game(Red, straight, false, false, None, 1, 1, false, []);
            Consistent(g) && AfterMove(g, Position(5, 2), Position(3, 2)).Some?
  {
    var straight := TwoPieces(Position(5, 2), NewPiece(Red), Position(4, 2), NewPiece(Black));
    var g := Game(Red, straight, false, false, None, 1, 1, false, []);
    MoveLegalIff(g, Position(5, 2), Position(3, 2));
    assert LegalToward(g, Position(5, 2), Position(3, 2), -1);
  }

  /** Red at (5, 0) lands on (3, 6), six columns away, over the black man at (4, 3). */
  lemma WideJumpAccepted()
    ensures var wide := TwoPieces(Position(5, 0), NewPiece(Red), Position(4, 3), NewPiece(Black));
            var g := Game(Red, wide, false, false, None, 1, 1, false, []);
            Consistent(g) && AfterMove(g, Position(5, 0), Position(3, 6)).Some?
  {
    var wide := TwoPieces(Position(5, 0), NewPiece(Red), Position(4, 3), NewPiece(Black));
    var g := Game(Red, wide, false, false, None, 1, 1, false, []);
    MoveLegalIff(g, Position(5, 0), Position(3, 6));
    assert LegalToward(g, Position(5, 0), Position(3, 6), -1);
  }

  /** The jump rule checks only the row offset: a straight jump over the piece directly
      ahead, and a jump that lands six columns away over the piece at the average
      column, are both accepted. */
  lemma UncheckedJumpColumns()
    ensures var straight := TwoPieces(Position(5, 2), NewPiece(Red), Position(4, 2), NewPiece(Black));
            var g := Game(Red, straight, false, false, None, 1, 1, false, []);
            Consistent(g) && AfterMove(g, Position(5, 2), Position(3, 2)).Some?
    ensures var wide := TwoPieces(Position(5, 0), NewPiece(Red), Position(4, 3), NewPiece(Black));
            var g := Game(Red, wide, false, false, None, 1, 1, false, []);
            Consistent(g) && AfterMove(g, Position(5, 0), Position(3, 6)).Some?
  {
    StraightJumpAccepted();
    WideJumpAccepted();
  }

  // Promotion as written

  /** `movePiece` under the nearest compiling reading of its crowning step. As given,
      the step assigns to a property of an `if let` binding of a struct, which Swift
      rejects; with `if var piece` it crowns a local copy, so the board only sees the
      move. */
  function MovedGridAsWritten(b: Grid, from: Position, to: Position): (r: Grid)
    requires WellFormed(b) && InBounds(from) && InBounds(to) && from != to
    ensures WellFormed(r)
    ensures At(r, to) == At(b, from) && At(r, from) == None
  {
    Put(Put(b, to, At(b, from)), from, None)
  }

  /** A red man stepping from (1, 1) onto row 0: under that reading it arrives
      uncrowned, while the corrected move leaves a red king there. */
  lemma PromotionLostAsWritten()
    ensures var b := TwoPieces(Position(1, 1), NewPiece(Red), Position(7, 7), NewPiece(Black));
            && !At(MovedGridAsWritten(b, Position(1, 1), Position(0, 0)), Position(0, 0)).value.isKing
            && At(MovedGrid(b, Position(1, 1), Position(0, 0)), Position(0, 0)) == Some(Crowned(NewPiece(Red)))
  {
    var b := TwoPieces(Position(1, 1), NewPiece(Red), Position(7, 7), NewPiece(Black));
    assert At(b, Position(1, 1)) == Some(NewPiece(Red));
    MovedGridEffect(b, Position(1, 1), Position(0, 0));
  }
}
