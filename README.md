# Chessington move generation, modelled in Dafny

This project models `chessington/engine/pieces.py`, the piece definitions of a
small chess engine. Each piece has an owner (WHITE or BLACK) and can be asked
for the squares it may move to on a board, and can be moved to a square.

- **Pawn.** A white pawn advances towards higher rows, a black pawn towards lower
  rows. If the square directly ahead is empty, the pawn may step onto it. If in
  addition the pawn is on its starting row (row 1 for WHITE, row 6 for BLACK), it
  may also step two squares ahead. The double step looks only at the first
  square, so a pawn may land on an occupied square two rows ahead. The model
  keeps this behaviour and proves it (`PawnLandsOnOccupiedDoubleStepSquare`).
  There are no diagonal captures, no en passant and no promotion.
- **Knight, Bishop, Rook, Queen, King.** Each offers no moves.
- **move_to.** Looks up the piece's square and asks the board to move it there.
  It does not check that the destination is one of the piece's moves.

The model has three modules:

- `ChessData` (data.dfy): players, squares as (row, col) pairs, piece kinds, and
  pieces. A closed datatype of kinds replaces the abstract base class and its
  subclasses. A piece carries an `id` that stands for the object's identity,
  because the board finds a piece by identity.
- `Boards` (board.dfy): the board. It is a class whose one field maps each
  occupied square to its piece. Its invariant is that occupied squares lie on
  the 8x8 grid and that no piece stands on two squares. It offers `GetPiece`,
  `FindPiece` and `MovePiece`, the three board operations that pieces.py calls.
  The board's own source is not part of this model. These three are written
  from how pieces.py uses them. `MovePiece` relocates the piece and overwrites
  any occupant of the destination.
- `Pieces` (pieces.dfy): the move rules. `PawnAvailableMoves`, `SingleMove` and
  `DoubleMove` build the list of moves by appending, as the source does. They
  are proved against the function `PawnMoves`, which states the pawn rule's
  properties in its `ensures`. `GetAvailableMoves` dispatches on the kind.
  `MoveTo` moves a piece, and lemmas state what the board looks like afterwards.

## Model

| member | source | states |
|---|---|---|
| `Pieces.PawnMoves` | chessington/engine/pieces.py:36-62 | A piece directly ahead leaves no move. Otherwise the first move is the square directly ahead. The two-square step is offered iff the square ahead is empty and the pawn is on its starting row (row 1 for WHITE, row 6 for BLACK). Off the starting row there is at most one move. There are at most two moves: move i is i+1 rows ahead, in the pawn's own column. |
| `Pieces.PawnIgnoresDoubleStepSquare` | chessington/engine/pieces.py:46-49 | Two boards that agree on whether the square directly ahead is occupied give the same moves. The double-step square's occupant never matters. |
| `Pieces.PawnLandsOnOccupiedDoubleStepSquare` | chessington/engine/pieces.py:48-49 | A white pawn on (1,0) is offered (3,0) even when a piece stands on (3,0). |
| `Pieces.PawnMovesOnBoard` | chessington/engine/pieces.py:41-44 | A pawn on the board and not on its last row gets only moves that lie on the board. |
| `Pieces.GetAvailableMoves` | chessington/engine/pieces.py:71-108 | Knight, Bishop, Rook, Queen and King return the empty sequence. A pawn returns exactly `PawnMoves` from its own square. The board is only read: the method has no `modifies` clause. |
| `Pieces.PawnAvailableMoves` | chessington/engine/pieces.py:36-50 | The list built by finding the pawn, testing the square ahead and appending the single and then the double step equals `PawnMoves` for the pawn's square and owner. Every move is on the board. The board is not modified. |
| `Pieces.SingleMove` | chessington/engine/pieces.py:52-56 | Keeps the given moves and appends one square: one row ahead for the owner (+1 for WHITE, -1 for BLACK), same column. |
| `Pieces.DoubleMove` | chessington/engine/pieces.py:58-62 | Keeps the given moves and appends one square: two rows ahead for the owner (+2 for WHITE, -2 for BLACK), same column. |
| `Pieces.MoveTo` | chessington/engine/pieces.py:24-29 | The board becomes the old board with the piece taken from its square and put on the destination, overwriting any occupant there. The board stays well formed, and the piece is then found on the destination. |
| `Pieces.MovedPieceFoundOnDestination` | chessington/engine/pieces.py:24-29 | After the move, the placement is well formed and the piece is found on the destination. Its former square is empty unless it is the destination. Every other square keeps its occupant or stays empty. |
| `Pieces.CapturedPieceLeavesBoard` | chessington/engine/pieces.py:29 | A different piece that stood on the destination is no longer anywhere on the board. |
| `Pieces.BystanderStays` | chessington/engine/pieces.py:29 | Any other piece, neither the mover nor the captured one, is still on the board and is found on the same square as before. |
| `Boards.Board.FindPiece` | chessington/engine/pieces.py:38 | Returns the square that holds the piece. On a well-formed board this square is unique. |
| `Boards.Board.GetPiece` | chessington/engine/pieces.py:46 | For a square on the board, returns None exactly when the square is empty, and otherwise returns the piece on it. |
| `Boards.Board.MovePiece` | chessington/engine/pieces.py:29 | The occupancy becomes the relocation of the piece on `from` to `to`, and the board stays well formed. |
| `Boards.RelocateKeepsPlacement` | chessington/engine/pieces.py:29 | Relocating a piece to a square on the board keeps every occupied square on the grid and keeps each piece on a single square. |
| `Boards.WhereUnique` | chessington/engine/pieces.py:28 | On a well-formed board, any square that holds a piece is the square the reverse lookup gives for it. |

## Left out

- The source of `Board`, `Square` and `Player` is not part of this model. The board is a map from occupied squares to pieces, with the three operations pieces.py calls. Squares are plain (row, col) pairs.
- Bounds: pieces.py computes `row + 1`, `row - 1`, `row + 2` and `row - 2` without checking them. `GetAvailableMoves` requires a pawn not to stand on its last row, so that the square ahead is on the board. What the board does with an off-board square is not modelled.
- Boards.Board.GetPiece: requires its square to be on the board. pieces.py only asks about the square ahead of a pawn that is not on its last row, and what the board answers for an off-board square is not modelled.
- Pieces.MoveTo: requires the destination to be on the board. `move_to` passes any square to the board, and what the board does with an off-board destination is not modelled.
- Asking a pawn for its moves, or moving a piece, when the piece is not on the board: both require the piece to be on the board. pieces.py does not handle this case, and the board's own behaviour there is not part of this model.
- `MoveTo` does not model the board's turn bookkeeping, if it has any. Only the change of occupancy is modelled.
- Pawn diagonal captures, en passant, promotion, real moves for the other five pieces, castling and any check filter are absent. The code does not have them.
- The abstract base class machinery (`ABC`, `abstractmethod`) is replaced by a datatype of kinds and a `match`.
