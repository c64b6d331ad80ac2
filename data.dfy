/** Values shared by the board and the pieces: players, squares, piece kinds and pieces. */
module ChessData {

  datatype Option<T> = None | Some(value: T)

  /** The two sides. WHITE advances towards higher rows, BLACK towards lower rows. */
  datatype Player = White | Black

  /** A square as a (row, col) pair. Squares are built without a bounds check,
      so a value of this type may lie off the board. */
  datatype Square = Square(row: int, col: int)

  /** The six piece classes; a closed sum replaces the abstract base class. */
  datatype Kind = Pawn | Knight | Bishop | Rook | Queen | King

  /** A piece: the class it is an instance of, its owner, and a number that
      stands for the object's identity (two white pawns are different pieces). */
  datatype Piece = Piece(kind: Kind, player: Player, id: nat)

  /** The board has Size rows and Size columns. */
  const Size: int := 8

  predicate OnBoard(s: Square) {
    0 <= s.row < Size && 0 <= s.col < Size
  }

  /** The row a pawn of player p starts on. */
  function StartingRow(p: Player): (r: int) {
    if p == White then 1 else 6
  }

  /** The farthest row in player p's direction of travel. */
  function LastRow(p: Player): (r: int) {
    if p == White then Size - 1 else 0
  }

  /** The square `steps` rows ahead of s from player p's side, in the same column. */
  function Ahead(s: Square, p: Player, steps: nat): (r: Square) {
    if p == White then Square(s.row + steps, s.col) else Square(s.row - steps, s.col)
  }
}
