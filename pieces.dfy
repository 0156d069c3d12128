/** The piece and player types of the game (CheckersPiece.swift). */
module Pieces {

  /** The two sides; every piece belongs to exactly one of them. */
  datatype Player = Red | Black

  /** A piece is a value: its owner is fixed when it is built, and the king flag is
      the only part of it that can change. */
  datatype Piece = Piece(owner: Player, isKing: bool)

  /** `CheckersPiece(owner:)`: a fresh piece belongs to its argument and is not a king. */
  function NewPiece(owner: Player): (piece: Piece)
    ensures piece.owner == owner
    ensures !piece.isKing
  {
    Piece(owner, false)
  }

  /** The opponent of `p`. */
  function Other(p: Player): (q: Player)
    ensures q != p
  {
    match p
    case Red => Black
    case Black => Red
  }

  /** The only update the game makes to a piece: setting `isKing`. The owner is kept. */
  function Crowned(piece: Piece): (king: Piece)
    ensures king.owner == piece.owner
    ensures king.isKing
  {
    piece.(isKing := true)
  }
}
