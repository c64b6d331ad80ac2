/** The pieces and their move generation. Only the pawn has a rule: it steps one
    square forward when that square is empty, and from its starting row it may
    also step two squares forward; the other five kinds offer no moves. */
module Pieces {
  import opened ChessData
  import opened Boards

  /** The destinations the pawn rule offers a pawn of `player` standing on `from`,
      single step first. The double step looks only at the single-step square. */
  function PawnMoves(cells: map<Square, Piece>, from: Square, player: Player): (r: seq<Square>)
    // blocked: a piece directly ahead leaves the pawn no move at all
    ensures Ahead(from, player, 1) in cells ==> r == []
    // otherwise the first move is the square directly ahead
    ensures Ahead(from, player, 1) !in cells ==> |r| >= 1 && r[0] == Ahead(from, player, 1)
    // the double step is offered exactly when the way ahead is clear and the pawn is on its starting row
    ensures Ahead(from, player, 2) in r <==> Ahead(from, player, 1) !in cells && from.row == StartingRow(player)
    // off the starting row there is at most one move
    ensures from.row != StartingRow(player) ==> |r| <= 1
    // at most two moves, in the order single then double, all in the pawn's column
    ensures |r| <= 2
    ensures forall i | 0 <= i < |r| :: r[i] == Ahead(from, player, i + 1)
    ensures forall m | m in r :: m.col == from.col
  {
    if Ahead(from, player, 1) in cells then []
    else if from.row == StartingRow(player) then [Ahead(from, player, 1), Ahead(from, player, 2)]
    else [Ahead(from, player, 1)]
  }

  /** What a pawn may move to depends only on whether the square directly ahead
      is occupied: in particular an occupied double-step square does not stop the
      double step. */
  lemma PawnIgnoresDoubleStepSquare(cells: map<Square, Piece>, other: map<Square, Piece>, from: Square, player: Player)
    requires Ahead(from, player, 1) in cells <==> Ahead(from, player, 1) in other
    ensures PawnMoves(cells, from, player) == PawnMoves(other, from, player)
  {
  }

  /** A white pawn on (1, 0) may move to (3, 0) although a piece stands there. */
  lemma PawnLandsOnOccupiedDoubleStepSquare(blocker: Piece)
    ensures Square(3, 0) in PawnMoves(map[Square(3, 0) := blocker], Square(1, 0), White)
  {
  }

  /** From any square of the board other than its last row, a pawn's moves stay on the board. */
  lemma PawnMovesOnBoard(cells: map<Square, Piece>, from: Square, player: Player)
    requires OnBoard(from) && from.row != LastRow(player)
    ensures forall m | m in PawnMoves(cells, from, player) :: OnBoard(m)
  {
  }

  /** The pieces get_available_moves may be asked about: any non-pawn, and a pawn
      standing on a well-formed board short of its last row. */
  ghost predicate MayAsk(board: Board, piece: Piece)
    reads board
  {
    piece.kind == Pawn ==>
      board.Valid() && piece in board.cells.Values &&
      Where(board.cells, piece).row != LastRow(piece.player)
  }

  /** The destinations piece may move to. Reads the board and changes nothing. */
  method GetAvailableMoves(piece: Piece, board: Board) returns (moves: seq<Square>)
    requires MayAsk(board, piece)
    ensures piece.kind != Pawn ==> moves == []
    ensures piece.kind == Pawn ==> moves == PawnMoves(board.cells, Where(board.cells, piece), piece.player)
    ensures forall m | m in moves :: OnBoard(m)
  {
    match piece.kind
    case Pawn =>
      moves := PawnAvailableMoves(piece, board);
    case Knight =>
      moves := [];
    case Bishop =>
      moves := [];
    case Rook =>
      moves := [];
    case Queen =>
      moves := [];
    case King =>
      moves := [];
  }

  /** The pawn rule: builds the list of moves by appending to it. */
  method PawnAvailableMoves(pawn: Piece, board: Board) returns (moves: seq<Square>)
    requires pawn.kind == Pawn && MayAsk(board, pawn)
    ensures moves == PawnMoves(board.cells, Where(board.cells, pawn), pawn.player)
    ensures forall m | m in moves :: OnBoard(m)
  {
    moves := [];
    var squareOnBoard := board.FindPiece(pawn);
    var squareOneInFront;
    if pawn.player == White {
      squareOneInFront := Square(squareOnBoard.row + 1, squareOnBoard.col);
    } else {
      squareOneInFront := Square(squareOnBoard.row - 1, squareOnBoard.col);
    }
    if board.GetPiece(squareOneInFront).None? {
      moves := SingleMove(pawn, moves, squareOnBoard);
      if (squareOnBoard.row == 1 && pawn.player == White) || (squareOnBoard.row == 6 && pawn.player == Black) {
        moves := DoubleMove(pawn, moves, squareOnBoard);
      }
    }
    PawnMovesOnBoard(board.cells, squareOnBoard, pawn.player);
  }

  /** Appends the square one row ahead of the pawn. */
  method SingleMove(pawn: Piece, moves: seq<Square>, squareOnBoard: Square) returns (r: seq<Square>)
    ensures |r| == |moves| + 1 && r[..|moves|] == moves
    ensures r[|moves|].col == squareOnBoard.col && r[|moves|] == Ahead(squareOnBoard, pawn.player, 1)
  {
    if pawn.player == White {
      r := moves + [Square(squareOnBoard.row + 1, squareOnBoard.col)];
    } else {
      r := moves + [Square(squareOnBoard.row - 1, squareOnBoard.col)];
    }
  }

  /** Appends the square two rows ahead of the pawn. */
  method DoubleMove(pawn: Piece, moves: seq<Square>, squareOnBoard: Square) returns (r: seq<Square>)
    ensures |r| == |moves| + 1 && r[..|moves|] == moves
    ensures r[|moves|].col == squareOnBoard.col && r[|moves|] == Ahead(squareOnBoard, pawn.player, 2)
  {
    if pawn.player == White {
      r := moves + [Square(squareOnBoard.row + 2, squareOnBoard.col)];
    } else {
      r := moves + [Square(squareOnBoard.row - 2, squareOnBoard.col)];
    }
  }

  /** After the piece on `from` moves to `to`: it is found on `to`, `from` is
      empty unless it is `to`, and every other square keeps its occupant. */
  lemma {:induction false} MovedPieceFoundOnDestination(cells: map<Square, Piece>, piece: Piece, to: Square)
    requires Placement(cells) && piece in cells.Values && OnBoard(to)
    ensures var from := Where(cells, piece);
      var after := Relocate(cells, from, to);
      && Placement(after)
      && piece in after.Values && Where(after, piece) == to
      && (from != to ==> from !in after)
      && forall s | s != from && s != to :: (s in after <==> s in cells) && (s in after ==> after[s] == cells[s])
  {
    var from := Where(cells, piece);
    var after := Relocate(cells, from, to);
    RelocateKeepsPlacement(cells, from, to);
    WhereUnique(after, piece, to);
  }

  /** A piece standing on the destination is captured: it is no longer on the board. */
  lemma CapturedPieceLeavesBoard(cells: map<Square, Piece>, piece: Piece, to: Square)
    requires Placement(cells) && piece in cells.Values && OnBoard(to)
    requires to in cells && cells[to] != piece
    ensures cells[to] !in Relocate(cells, Where(cells, piece), to).Values
  {
  }

  /** Every piece other than the mover and the captured piece keeps its square. */
  lemma {:induction false} BystanderStays(cells: map<Square, Piece>, piece: Piece, to: Square, other: Piece)
    requires Placement(cells) && piece in cells.Values && OnBoard(to)
    requires other in cells.Values && other != piece && (to in cells ==> other != cells[to])
    ensures var after := Relocate(cells, Where(cells, piece), to);
      other in after.Values && Where(after, other) == Where(cells, other)
  {
    var from := Where(cells, piece);
    var after := Relocate(cells, from, to);
    var at := Where(cells, other);
    assert at != from && at != to;
    assert after[at] == other;
    RelocateKeepsPlacement(cells, from, to);
    WhereUnique(after, other, at);
  }

  /** Moves piece to new_square: looks up its square and has the board move it.
      Whether the destination is among its available moves is not checked. */
  method MoveTo(piece: Piece, board: Board, newSquare: Square)
    requires board.Valid() && piece in board.cells.Values && OnBoard(newSquare)
    modifies board
    ensures board.Valid()
    ensures board.cells == Relocate(old(board.cells), Where(old(board.cells), piece), newSquare)
    ensures piece in board.cells.Values && Where(board.cells, piece) == newSquare
  {
    var currentSquare := board.FindPiece(piece);
    MovedPieceFoundOnDestination(board.cells, piece, newSquare);
    board.MovePiece(currentSquare, newSquare);
  }
}
