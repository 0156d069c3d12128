/** The board both controllers keep: rows of optional pieces, how pieces are
    counted on it, and the rows the setup routines build. */
module Board {
  import opened Wrappers
  import opened Pieces

  const BoardSize: nat := 8

  /** A board cell. `row` is the IndexPath section and `column` is the IndexPath row. */
  datatype Position = Position(row: int, column: int)

  type Cell = Option<Piece>

  /** `[[CheckersPiece?]]`: a list of rows. */
  type Grid = seq<seq<Cell>>

  predicate InBounds(p: Position) {
    0 <= p.row < BoardSize && 0 <= p.column < BoardSize
  }

  /** An 8 by 8 board. */
  predicate WellFormed(b: Grid) {
    |b| == BoardSize && forall r :: 0 <= r < |b| ==> |b[r]| == BoardSize
  }

  function At(b: Grid, p: Position): Cell
    requires WellFormed(b) && InBounds(p)
  {
    b[p.row][p.column]
  }

  /** The board with cell `p` set to `x`; every other cell is kept. */
  function Put(b: Grid, p: Position, x: Cell): (r: Grid)
    requires WellFormed(b) && InBounds(p)
    ensures WellFormed(r)
    ensures At(r, p) == x
    ensures forall q :: InBounds(q) && q != p ==> At(r, q) == At(b, q)
  {
    b[p.row := b[p.row][p.column := x]]
  }

  // Counting pieces

  /** 1 when the cell holds a piece of `p`, 0 otherwise. */
  function Holds(c: Cell, p: Player): nat {
    if c.Some? && c.value.owner == p then 1 else 0
  }

  /** The number of pieces of `p` in a row. */
  function RowCount(row: seq<Cell>, p: Player): nat {
    if row == [] then 0 else RowCount(row[..|row| - 1], p) + Holds(row[|row| - 1], p)
  }

  /** The number of pieces of `p` on a board. */
  function GridCount(b: Grid, p: Player): nat {
    if b == [] then 0 else GridCount(b[..|b| - 1], p) + RowCount(b[|b| - 1], p)
  }

  lemma {:induction false} RowCountUpdate(row: seq<Cell>, c: int, x: Cell, p: Player)
    requires 0 <= c < |row|
    ensures RowCount(row[c := x], p) == RowCount(row, p) - Holds(row[c], p) + Holds(x, p)
  {
    var n := |row|;
    if c == n - 1 {
      assert row[c := x][..n - 1] == row[..n - 1];
    } else {
      assert row[c := x][..n - 1] == row[..n - 1][c := x];
      RowCountUpdate(row[..n - 1], c, x, p);
    }
  }

  lemma {:induction false} GridCountUpdate(b: Grid, r: int, newRow: seq<Cell>, p: Player)
    requires 0 <= r < |b|
    ensures GridCount(b[r := newRow], p) == GridCount(b, p) - RowCount(b[r], p) + RowCount(newRow, p)
  {
    var n := |b|;
    if r == n - 1 {
      assert b[r := newRow][..n - 1] == b[..n - 1];
    } else {
      assert b[r := newRow][..n - 1] == b[..n - 1][r := newRow];
      GridCountUpdate(b[..n - 1], r, newRow, p);
    }
  }

  /** Writing one cell changes the count of `p` by what left and what arrived. */
  lemma PutCount(b: Grid, pos: Position, x: Cell, p: Player)
    requires WellFormed(b) && InBounds(pos)
    ensures GridCount(Put(b, pos, x), p) == GridCount(b, p) - Holds(At(b, pos), p) + Holds(x, p)
  {
    RowCountUpdate(b[pos.row], pos.column, x, p);
    GridCountUpdate(b, pos.row, b[pos.row][pos.column := x], p);
  }

  // The rows the setup routines build

  /** A row of fresh pieces of `p`. A row that starts with an empty space has its
      pieces at the odd columns; the other kind has them at the even columns. */
  function PieceRow(p: Player, startsEmpty: bool): (row: seq<Cell>)
    ensures |row| == BoardSize
  {
    seq(BoardSize, c => if (c % 2 == 1) == startsEmpty then Some(NewPiece(p)) else None)
  }

  function EmptyRow(): (row: seq<Cell>)
    ensures |row| == BoardSize
  {
    seq(BoardSize, c => None)
  }

  lemma {:induction false} PieceRowPrefixCount(p: Player, startsEmpty: bool, k: int)
    requires 0 <= k <= BoardSize
    ensures RowCount(PieceRow(p, startsEmpty)[..k], p) == if startsEmpty then k / 2 else (k + 1) / 2
    ensures RowCount(PieceRow(p, startsEmpty)[..k], Other(p)) == 0
  {
    var row := PieceRow(p, startsEmpty);
    if k > 0 {
      assert row[..k][..k - 1] == row[..k - 1];
      PieceRowPrefixCount(p, startsEmpty, k - 1);
    }
  }

  /** Each piece row holds four pieces of its player and none of the other. */
  lemma PieceRowCount(p: Player, startsEmpty: bool)
    ensures RowCount(PieceRow(p, startsEmpty), p) == 4
    ensures RowCount(PieceRow(p, startsEmpty), Other(p)) == 0
  {
    PieceRowPrefixCount(p, startsEmpty, BoardSize);
    assert PieceRow(p, startsEmpty)[..BoardSize] == PieceRow(p, startsEmpty);
  }

  lemma {:induction false} EmptyRowPrefixCount(k: int, p: Player)
    requires 0 <= k <= BoardSize
    ensures RowCount(EmptyRow()[..k], p) == 0
  {
    if k > 0 {
      assert EmptyRow()[..k][..k - 1] == EmptyRow()[..k - 1];
      EmptyRowPrefixCount(k - 1, p);
    }
  }

  /** The value of the row-kind flag just before row `r` is built, when it was `f`
      before row 0: every row builder leaves it flipped. */
  function FlagBefore(f: bool, r: nat): bool {
    if r == 0 then f else !FlagBefore(f, r - 1)
  }

  /** The flag alternates, so it is back to `f` before every even row. */
  lemma {:induction false} FlagBeforeParity(f: bool, r: nat)
    ensures FlagBefore(f, r) == if r % 2 == 0 then f else !f
  {
    if r > 0 {
      FlagBeforeParity(f, r - 1);
    }
  }

  /** Row `r` of a setup board with `playerSpace` black rows, two empty rows and
      `playerSpace` red rows, when the flag was `f` before row 0. A row built while
      the flag is false starts with an empty space. */
  function SetupRow(f: bool, playerSpace: nat, r: nat): seq<Cell> {
    if r < playerSpace then PieceRow(Black, !FlagBefore(f, r))
    else if r < playerSpace + 2 then EmptyRow()
    else PieceRow(Red, !FlagBefore(f, r))
  }

  function SetupBoard(f: bool, playerSpace: nat): (b: Grid)
    ensures |b| == 2 * playerSpace + 2
    ensures forall r :: 0 <= r < |b| ==> b[r] == SetupRow(f, playerSpace, r)
  {
    seq(2 * playerSpace + 2, r requires 0 <= r => SetupRow(f, playerSpace, r))
  }

  lemma {:induction false} SetupPrefixCount(f: bool, playerSpace: nat, k: int)
    requires 0 <= k <= 2 * playerSpace + 2
    ensures GridCount(SetupBoard(f, playerSpace)[..k], Black)
            == 4 * (if k < playerSpace then k else playerSpace)
    ensures GridCount(SetupBoard(f, playerSpace)[..k], Red)
            == 4 * (if k < playerSpace + 2 then 0 else k - playerSpace - 2)
  {
    var b := SetupBoard(f, playerSpace);
    if k > 0 {
      assert b[..k][..k - 1] == b[..k - 1];
      SetupPrefixCount(f, playerSpace, k - 1);
      var r := k - 1;
      if r < playerSpace {
        PieceRowCount(Black, !FlagBefore(f, r));
      } else if r < playerSpace + 2 {
        EmptyRowPrefixCount(BoardSize, Black);
        EmptyRowPrefixCount(BoardSize, Red);
        assert EmptyRow()[..BoardSize] == EmptyRow();
      } else {
        PieceRowCount(Red, !FlagBefore(f, r));
      }
    }
  }

  /** A setup board holds four pieces per filled row for each player. */
  lemma SetupCount(f: bool, playerSpace: nat)
    ensures GridCount(SetupBoard(f, playerSpace), Black) == 4 * playerSpace
    ensures GridCount(SetupBoard(f, playerSpace), Red) == 4 * playerSpace
  {
    var b := SetupBoard(f, playerSpace);
    SetupPrefixCount(f, playerSpace, |b|);
    assert b[..|b|] == b;
  }
}
