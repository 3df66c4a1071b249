/** A move as a command: execute puts the piece on the end square, empties
    the start square and marks the piece moved; undo puts both squares and
    the moved flag back. */
module ChessMoves {
  import opened Wrappers
  import opened ChessRules
  import opened ChessBoard

  /** The piece, its start and end squares, the occupant of the end square
      before the move, and whether this is the piece's first move. */
  datatype Move = Move(piece: Piece, startRow: int, startCol: int, endRow: int, endCol: int,
                       captured: Option<Piece>, wasFirstMove: bool)

  predicate OnBoard(m: Move)
  {
    InBounds(m.startRow, m.startCol) && InBounds(m.endRow, m.endCol)
  }

  /** new Move(piece, start, end) on board g. */
  function NewMove(g: Grid, piece: Piece, sr: int, sc: int, er: int, ec: int): Move
    requires IsBoard(g) && InBounds(er, ec)
  {
    Move(piece, sr, sc, er, ec, g[er][ec], !piece.moved)
  }

  /** m is the move of the piece standing on its start square in g, as
      new Move records it there. */
  predicate Fits(g: Grid, m: Move)
  {
    IsBoard(g) && OnBoard(m) && g[m.startRow][m.startCol] == Some(m.piece)
    && g[m.endRow][m.endCol] == m.captured && m.wasFirstMove == !m.piece.moved
  }

  /** The board after execute: the end square holds the piece, now marked
      moved, and then the start square is emptied; nothing else changes. */
  function Executed(g: Grid, m: Move): (h: Grid)
    requires IsBoard(g) && OnBoard(m)
    ensures IsBoard(h)
    ensures h[m.startRow][m.startCol] == None
    ensures (m.startRow, m.startCol) != (m.endRow, m.endCol) ==> h[m.endRow][m.endCol] == Some(m.piece.(moved := true))
    ensures forall i, j ::
      InBounds(i, j) && (i, j) != (m.startRow, m.startCol) && (i, j) != (m.endRow, m.endCol) ==> h[i][j] == g[i][j]
  {
    var g1 := g[m.endRow := g[m.endRow][m.endCol := Some(m.piece.(moved := true))]];
    g1[m.startRow := g1[m.startRow][m.startCol := None]]
  }

  /** The piece as it stands after execute: the same piece with its moved
      flag set, which undo clears again only for a first move. */
  function Restored(m: Move): (p: Piece)
    ensures p.kind == m.piece.kind && p.color == m.piece.color
    ensures p.moved == !m.wasFirstMove
  {
    var mover := m.piece.(moved := true);
    if m.wasFirstMove then mover.(moved := false) else mover
  }

  /** The board after undo: the start square gets the piece back, and then
      the end square gets back what was captured; nothing else changes. */
  function Reverted(g: Grid, m: Move): (h: Grid)
    requires IsBoard(g) && OnBoard(m)
    ensures IsBoard(h)
    ensures h[m.endRow][m.endCol] == m.captured
    ensures (m.startRow, m.startCol) != (m.endRow, m.endCol) ==> h[m.startRow][m.startCol] == Some(Restored(m))
    ensures forall i, j ::
      InBounds(i, j) && (i, j) != (m.startRow, m.startCol) && (i, j) != (m.endRow, m.endCol) ==> h[i][j] == g[i][j]
  {
    var g1 := g[m.startRow := g[m.startRow][m.startCol := Some(Restored(m))]];
    g1[m.endRow := g1[m.endRow][m.endCol := m.captured]]
  }

  /** Undo after execute gives back the board the move was made on,
      moved flag included. */
  lemma {:induction false} UndoRestores(g: Grid, m: Move)
    requires Fits(g, m)
    ensures Reverted(Executed(g, m), m) == g
  {
    var h := Reverted(Executed(g, m), m);
    assert Restored(m) == m.piece;
    forall i | 0 <= i < Size
      ensures h[i] == g[i]
    {
      assert forall j :: 0 <= j < Size ==> h[i][j] == g[i][j];
    }
  }

  /** execute(board). It records again what stands on the end square,
      which is what new Move recorded when the two run back to back. */
  method Execute(m: Move, board: Board) returns (done: Move)
    requires board.Valid() && OnBoard(m)
    modifies board, board.cells
    ensures board.Valid()
    ensures board.squares == Executed(old(board.squares), m)
    ensures done == m.(captured := old(board.squares)[m.endRow][m.endCol])
  {
    done := m.(captured := board.cells[m.endRow, m.endCol]);
    board.SetPiece(m.endRow, m.endCol, Some(m.piece.(moved := true)));
    board.SetPiece(m.startRow, m.startCol, None);
  }

  /** undo(board). */
  method Undo(m: Move, board: Board)
    requires board.Valid() && OnBoard(m)
    modifies board, board.cells
    ensures board.Valid()
    ensures board.squares == Reverted(old(board.squares), m)
  {
    board.SetPiece(m.startRow, m.startCol, Some(Restored(m)));
    board.SetPiece(m.endRow, m.endCol, m.captured);
  }
}
