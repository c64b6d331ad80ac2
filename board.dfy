/** The board as the pieces see it. Only the three queries the pieces use are
    modelled: the occupant of a square, the square a piece stands on, and
    relocating a piece. The board is an 8x8 grid holding at most one piece per
    square; the grid is kept as a map from the occupied squares to their pieces. */
module Boards {
  import opened ChessData

  /** A well-formed placement: every occupied square is on the board, and no
      piece stands on two squares, so the reverse lookup has one answer. */
  ghost predicate Placement(cells: map<Square, Piece>) {
    (forall s | s in cells :: OnBoard(s)) &&
    (forall a, b | a in cells && b in cells && cells[a] == cells[b] :: a == b)
  }

  /** The square piece p occupies. */
  ghost function Where(cells: map<Square, Piece>, p: Piece): (s: Square)
    requires p in cells.Values
    ensures s in cells && cells[s] == p
  {
    var s :| s in cells && cells[s] == p; s
  }

  /** The occupancy after the piece on `from` is relocated to `to`, overwriting
      whatever stood there. */
  function Relocate(cells: map<Square, Piece>, from: Square, to: Square): (r: map<Square, Piece>)
    requires from in cells
  {
    (cells - {from})[to := cells[from]]
  }

  /** In a well-formed placement, any square holding p is the square Where finds. */
  lemma WhereUnique(cells: map<Square, Piece>, p: Piece, s: Square)
    requires Placement(cells) && s in cells && cells[s] == p
    ensures p in cells.Values && Where(cells, p) == s
  {
  }

  /** Relocating a piece to a square on the board keeps the placement well formed. */
  lemma RelocateKeepsPlacement(cells: map<Square, Piece>, from: Square, to: Square)
    requires Placement(cells) && from in cells && OnBoard(to)
    ensures Placement(Relocate(cells, from, to))
  {
  }

  class Board {
    var cells: map<Square, Piece>

    ghost predicate Valid()
      reads this
    {
      Placement(cells)
    }

    constructor (cells: map<Square, Piece>)
      requires Placement(cells)
      ensures Valid() && this.cells == cells
    {
      this.cells := cells;
    }

    /** The occupant of s, or None when s is empty. */
    function GetPiece(s: Square): (r: Option<Piece>)
      requires OnBoard(s)
      reads this
      ensures r.None? <==> s !in cells
      ensures r.Some? ==> cells[s] == r.value
    {
      if s in cells then Some(cells[s]) else None
    }

    /** The square p stands on (a reverse lookup by identity). */
    method FindPiece(p: Piece) returns (s: Square)
      requires Valid() && p in cells.Values
      ensures s in cells && cells[s] == p
      ensures s == Where(cells, p)
    {
      s :| s in cells && cells[s] == p;
      WhereUnique(cells, p, s);
    }

    /** Moves the piece on `from` to `to`, capturing any occupant of `to`. */
    method MovePiece(from: Square, to: Square)
      requires Valid() && from in cells && OnBoard(to)
      modifies this
      ensures Valid()
      ensures cells == Relocate(old(cells), from, to)
    {
      RelocateKeepsPlacement(cells, from, to);
      cells := Relocate(cells, from, to);
    }
  }
}
