/** The chess board: an 8×8 array of squares, filled with the starting
    layout by initialize and read by the square, king and attack queries.
    Each Cell object of the board is represented by the occupant stored in
    its array entry. */
module ChessBoard {
  import opened Wrappers
  import opened ChessRules
  import opened ChessPosition

  /** A square as getCell hands it out: its coordinates and its occupant. */
  datatype Cell = Cell(row: int, col: int, piece: Option<Piece>)

  class Board {
    /** cells[row, col] is the piece on that square, None while empty. */
    const cells: array2<Option<Piece>>

    /** The board's contents as a value. */
    ghost var squares: Grid

    ghost predicate Valid()
      reads this, cells
    {
      cells.Length0 == Size && cells.Length1 == Size && IsBoard(squares)
      && forall i, j :: InBounds(i, j) ==> cells[i, j] == squares[i][j]
    }

    constructor ()
      ensures Valid() && squares == EmptyGrid() && fresh(cells)
    {
      var a := new Option<Piece>[Size, Size];
      for i := 0 to Size
        invariant forall r, c :: 0 <= r < i && 0 <= c < Size ==> a[r, c] == None
      {
        for j := 0 to Size
          invariant forall r, c :: 0 <= r < i && 0 <= c < Size ==> a[r, c] == None
          invariant forall c :: 0 <= c < j ==> a[i, c] == None
        {
          a[i, j] := None;
        }
      }
      cells := a;
      squares := EmptyGrid();
    }

    /** cell.setPiece(x) on the square (row, col). */
    method SetPiece(row: int, col: int, x: Option<Piece>)
      requires Valid() && InBounds(row, col)
      modifies this, cells
      ensures Valid()
      ensures squares == old(squares)[row := old(squares)[row][col := x]]
    {
      cells[row, col] := x;
      squares := squares[row := squares[row][col := x]];
    }

    /** placePieces: R N B Q K B N R along the row, all of one colour. */
    method PlacePieces(row: int, color: Color)
      requires Valid() && 0 <= row < Size
      modifies this, cells
      ensures Valid() && squares == old(squares)[row := BackRankRow(color)]
    {
      SetPiece(row, 0, Some(Piece(Rook, color, false)));
      SetPiece(row, 1, Some(Piece(Knight, color, false)));
      SetPiece(row, 2, Some(Piece(Bishop, color, false)));
      SetPiece(row, 3, Some(Piece(Queen, color, false)));
      SetPiece(row, 4, Some(Piece(King, color, false)));
      SetPiece(row, 5, Some(Piece(Bishop, color, false)));
      SetPiece(row, 6, Some(Piece(Knight, color, false)));
      SetPiece(row, 7, Some(Piece(Rook, color, false)));
      assert squares[row] == BackRankRow(color);
    }

    /** The pawn loop of initialize: a new pawn on every square of the row. */
    method PlacePawns(row: int, color: Color)
      requires Valid() && 0 <= row < Size
      modifies this, cells
      ensures Valid() && squares == old(squares)[row := PawnRow(color)]
    {
      for col := 0 to Size
        invariant Valid()
        invariant forall i :: 0 <= i < Size && i != row ==> squares[i] == old(squares)[i]
        invariant forall c :: 0 <= c < col ==> squares[row][c] == Some(Piece(Pawn, color, false))
      {
        SetPiece(row, col, Some(Piece(Pawn, color, false)));
      }
      assert squares[row] == PawnRow(color);
    }

    /** initialize: the starting layout on rows 0, 1, 6 and 7. */
    method Initialize()
      requires Valid()
      modifies this, cells
      ensures Valid() && squares == Initialized(old(squares))
    {
      PlacePieces(0, White);
      PlacePawns(1, White);
      PlacePieces(7, Black);
      PlacePawns(6, Black);
    }

    /** getCell: the square at (row, col), or None off the board. */
    method GetCell(row: int, col: int) returns (cell: Option<Cell>)
      requires Valid()
      ensures cell.None? <==> !InBounds(row, col)
      ensures cell.Some? ==> cell.value == Cell(row, col, squares[row][col])
    {
      if row < 0 || row >= Size || col < 0 || col >= Size {
        return None;
      }
      return Some(Cell(row, col, cells[row, col]));
    }

    /** findKing: the first square in scan order holding this colour's
        king, or None when there is none. */
    method FindKing(color: Color) returns (cell: Option<Cell>)
      requires Valid()
      ensures cell.None? <==> KingSquare(squares, color).None?
      ensures cell.Some? ==>
        KingSquare(squares, color) == Some((cell.value.row, cell.value.col))
        && InBounds(cell.value.row, cell.value.col)
        && cell.value.piece == squares[cell.value.row][cell.value.col]
    {
      for i := 0 to Size
        invariant forall r, c :: 0 <= r < i && 0 <= c < Size ==> !IsKing(squares[r][c], color)
      {
        for j := 0 to Size
          invariant forall r, c :: 0 <= r < i && 0 <= c < Size ==> !IsKing(squares[r][c], color)
          invariant forall c :: 0 <= c < j ==> !IsKing(squares[i][c], color)
        {
          var p := cells[i, j];
          if p.Some? && p.value.kind == King && p.value.color == color {
            KingSquareIs(squares, color, i, j);
            return Some(Cell(i, j, p));
          }
        }
      }
      return None;
    }

    /** isPathClear: walks from start towards end one step at a time in the
        direction fixed at the start, and fails at the first occupied
        square before end. */
    method IsPathClear(sr: int, sc: int, er: int, ec: int) returns (clear: bool)
      requires Valid() && InBounds(sr, sc) && InBounds(er, ec) && Aligned(sr, sc, er, ec)
      ensures clear == PathClear(squares, sr, sc, er, ec)
    {
      var rowDir := Signum(er - sr);
      var colDir := Signum(ec - sc);
      var row := sr + rowDir;
      var col := sc + colDir;
      ghost var n: int := Steps(sr, sc, er, ec);
      ghost var k: int := 1;
      WalkReachesEnd(sr, sc, er, ec, if n == 0 then 0 else 1);
      while row != er || col != ec
        invariant 1 <= k && (k <= n || (n == 0 && k == 1))
        invariant row == Along(sr, rowDir, k) && col == Along(sc, colDir, k)
        invariant forall t :: 0 < t < k ==> squares[Along(sr, rowDir, t)][Along(sc, colDir, t)] == None
        decreases n + 1 - k
      {
        WalkReachesEnd(sr, sc, er, ec, k);
        AlongInBounds(sr, sc, er, ec, k);
        if cells[row, col].Some? {
          return false;
        }
        row := row + rowDir;
        col := col + colDir;
        k := k + 1;
      }
      if n > 0 {
        WalkReachesEnd(sr, sc, er, ec, k);
      }
      return true;
    }

    /** canMove of the piece's own kind, with start (sr, sc) and end
        (er, ec). */
    method CanMove(p: Piece, sr: int, sc: int, er: int, ec: int) returns (ok: bool)
      requires Valid() && InBounds(sr, sc) && InBounds(er, ec)
      ensures ok == ChessRules.CanMove(squares, p, sr, sc, er, ec)
    {
      var rowDiff := Abs(er - sr);
      var colDiff := Abs(ec - sc);
      match p.kind
      case Pawn =>
        var direction := if p.color == White then 1 else -1;
        var forward := er - sr;
        ok := false;
        if colDiff == 0 && cells[er, ec].None? && forward == direction {
          ok := true;
        } else if colDiff == 0 && cells[er, ec].None? && !p.moved && forward == 2 * direction {
          ok := cells[sr + direction, sc].None?;
        } else if colDiff == 1 && forward == direction && cells[er, ec].Some? {
          ok := cells[er, ec].value.color != p.color;
        }
      case Knight =>
        ok := (rowDiff == 2 && colDiff == 1) || (rowDiff == 1 && colDiff == 2);
      case Bishop =>
        ok := rowDiff == colDiff && rowDiff > 0;
        if ok {
          ok := IsPathClear(sr, sc, er, ec);
        }
      case Rook =>
        ok := sr == er || sc == ec;
        if ok {
          ok := IsPathClear(sr, sc, er, ec);
        }
      case Queen =>
        ok := sr == er || sc == ec || rowDiff == colDiff;
        if ok {
          ok := IsPathClear(sr, sc, er, ec);
        }
      case King =>
        ok := rowDiff <= 1 && colDiff <= 1 && rowDiff + colDiff > 0;
    }

    /** isSquareUnderAttack: scans every square for a piece of the
        attacker's colour that may move onto (row, col). */
    method IsSquareUnderAttack(row: int, col: int, attacker: Color) returns (attacked: bool)
      requires Valid() && InBounds(row, col)
      ensures attacked <==> Attacked(squares, row, col, attacker)
    {
      for i := 0 to Size
        invariant forall r, c :: 0 <= r < i && 0 <= c < Size ==> !AttacksFrom(squares, r, c, row, col, attacker)
      {
        for j := 0 to Size
          invariant forall r, c :: 0 <= r < i && 0 <= c < Size ==> !AttacksFrom(squares, r, c, row, col, attacker)
          invariant forall c :: 0 <= c < j ==> !AttacksFrom(squares, i, c, row, col, attacker)
        {
          var p := cells[i, j];
          if p.Some? && p.value.color == attacker {
            var can := CanMove(p.value, i, j, row, col);
            if can {
              assert AttacksFrom(squares, i, j, row, col, attacker);
              return true;
            }
          }
        }
      }
      return false;
    }
  }
}
