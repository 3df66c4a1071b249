/** Questions about a chess position held as a value: the starting layout,
    where a colour's king stands, whether a square is attacked, and whether
    a colour is in check. */
module ChessPosition {
  import opened Wrappers
  import opened ChessRules

  // ---------------------------------------------------------------------
  // The starting layout

  /** The back rank from column 0 to column 7: R N B Q K B N R. */
  function BackRank(col: int): Kind
    requires 0 <= col < Size
  {
    [Rook, Knight, Bishop, Queen, King, Bishop, Knight, Rook][col]
  }

  lemma BackRankKinds(col: int)
    requires 0 <= col < Size
    ensures BackRank(col) == King <==> col == 4
    ensures BackRank(col) == Queen <==> col == 3
    ensures BackRank(col) == Rook <==> col == 0 || col == 7
    ensures BackRank(col) == Bishop <==> col == 2 || col == 5
    ensures BackRank(col) == Knight <==> col == 1 || col == 6
    ensures BackRank(col) != Pawn
  {
    assert col == 0 || col == 1 || col == 2 || col == 3 || col == 4 || col == 5 || col == 6 || col == 7;
  }

  function BackRankRow(color: Color): seq<Option<Piece>>
  {
    seq(Size, col requires 0 <= col < Size => Some(Piece(BackRank(col), color, false)))
  }

  function PawnRow(color: Color): seq<Option<Piece>>
  {
    seq(Size, _ => Some(Piece(Pawn, color, false)))
  }

  /** initialize on a board g: White's pieces on row 0 and its pawns on
      row 1, Black's pawns on row 6 and its pieces on row 7, all unmoved;
      rows 2 to 5 keep what stood on them. */
  function Initialized(g: Grid): (h: Grid)
    requires IsBoard(g)
    ensures IsBoard(h)
    ensures forall col :: 0 <= col < Size ==>
      h[0][col] == Some(Piece(BackRank(col), White, false))
      && h[1][col] == Some(Piece(Pawn, White, false))
      && h[6][col] == Some(Piece(Pawn, Black, false))
      && h[7][col] == Some(Piece(BackRank(col), Black, false))
    ensures forall row :: 2 <= row < 6 ==> h[row] == g[row]
  {
    g[0 := BackRankRow(White)][1 := PawnRow(White)][6 := PawnRow(Black)][7 := BackRankRow(Black)]
  }

  /** The position of a new game once it has been started. */
  function InitialGrid(): (g: Grid)
    ensures IsBoard(g)
  {
    Initialized(EmptyGrid())
  }

  /** In the starting position every piece is unmoved, White's pieces
      stand on rows 0 and 1, Black's on rows 6 and 7, and nothing else
      is on the board. */
  lemma InitialLayout(i: int, j: int)
    requires InBounds(i, j)
    ensures InitialGrid()[i][j].Some? <==> i == 0 || i == 1 || i == 6 || i == 7
    ensures InitialGrid()[i][j].Some? ==> !InitialGrid()[i][j].value.moved
    ensures InitialGrid()[i][j].Some? ==> (InitialGrid()[i][j].value.color == White <==> i < 2)
  {
  }

  // ---------------------------------------------------------------------
  // Finding a king

  predicate IsKing(x: Option<Piece>, color: Color)
  {
    x.Some? && x.value.kind == King && x.value.color == color
  }

  /** (i, j) comes before (r, c) in the row-by-row scan order. */
  predicate Before(i: int, j: int, r: int, c: int)
  {
    i < r || (i == r && j < c)
  }

  /** The first square holding a king of this colour, scanning rows in
      order and each row from column 0, starting at (r, c). */
  function KingFrom(g: Grid, color: Color, r: int, c: int): (k: Option<(int, int)>)
    requires IsBoard(g) && 0 <= r <= Size && 0 <= c <= Size
    decreases Size - r, Size - c
    ensures k.Some? ==>
      InBounds(k.value.0, k.value.1) && IsKing(g[k.value.0][k.value.1], color) && !Before(k.value.0, k.value.1, r, c)
    ensures k.Some? ==> forall i, j ::
      InBounds(i, j) && !Before(i, j, r, c) && Before(i, j, k.value.0, k.value.1) ==> !IsKing(g[i][j], color)
    ensures k.None? ==> forall i, j :: InBounds(i, j) && !Before(i, j, r, c) ==> !IsKing(g[i][j], color)
  {
    if r == Size then None
    else if c == Size then KingFrom(g, color, r + 1, 0)
    else if IsKing(g[r][c], color) then Some((r, c))
    else KingFrom(g, color, r, c + 1)
  }

  /** findKing: the first king of this colour in scan order, or None when
      that colour has no king on the board. */
  function KingSquare(g: Grid, color: Color): (k: Option<(int, int)>)
    requires IsBoard(g)
    ensures k.Some? ==> InBounds(k.value.0, k.value.1) && IsKing(g[k.value.0][k.value.1], color)
    ensures k.Some? ==> forall i, j :: InBounds(i, j) && Before(i, j, k.value.0, k.value.1) ==> !IsKing(g[i][j], color)
    ensures k.None? <==> forall i, j :: InBounds(i, j) ==> !IsKing(g[i][j], color)
  {
    KingFrom(g, color, 0, 0)
  }

  /** A square holding a king with no king of that colour before it in
      scan order is the one findKing returns. */
  lemma KingSquareIs(g: Grid, color: Color, r: int, c: int)
    requires IsBoard(g) && InBounds(r, c) && IsKing(g[r][c], color)
    requires forall i, j :: InBounds(i, j) && Before(i, j, r, c) ==> !IsKing(g[i][j], color)
    ensures KingSquare(g, color) == Some((r, c))
  {
    var k := KingSquare(g, color);
    assert k.Some?;
    assert !Before(r, c, k.value.0, k.value.1);
  }

  // ---------------------------------------------------------------------
  // Attack and check

  /** The piece on (i, j) belongs to the attacker and may move to (r, c). */
  predicate AttacksFrom(g: Grid, i: int, j: int, r: int, c: int, attacker: Color)
    requires IsBoard(g) && InBounds(i, j) && InBounds(r, c)
  {
    g[i][j].Some? && g[i][j].value.color == attacker && CanMove(g, g[i][j].value, i, j, r, c)
  }

  /** isSquareUnderAttack: some piece of the attacker's colour may move
      onto (r, c). */
  ghost predicate Attacked(g: Grid, r: int, c: int, attacker: Color)
    requires IsBoard(g) && InBounds(r, c)
  {
    exists i, j :: InBounds(i, j) && AttacksFrom(g, i, j, r, c, attacker)
  }

  /** isInCheck: whether the square findKing returns for this colour is
      attacked by the other colour. None stands for the case with no king
      of that colour on the board, where the king's square is read from a
      null result and the query fails. */
  ghost function InCheck(g: Grid, color: Color): (check: Option<bool>)
    requires IsBoard(g)
    ensures check.None? <==> forall i, j :: InBounds(i, j) ==> !IsKing(g[i][j], color)
  {
    match KingSquare(g, color)
    case None => None
    case Some(k) => Some(Attacked(g, k.0, k.1, Opposite(color)))
  }

  /** In the starting position the kings stand on e1 and e8. */
  lemma InitialKings()
    ensures KingSquare(InitialGrid(), White) == Some((0, 4))
    ensures KingSquare(InitialGrid(), Black) == Some((7, 4))
  {
    var g := InitialGrid();
    BackRankKinds(4);
    forall i, j | InBounds(i, j) && Before(i, j, 0, 4)
      ensures !IsKing(g[i][j], White)
    {
      BackRankKinds(j);
    }
    KingSquareIs(g, White, 0, 4);
    forall i, j | InBounds(i, j) && Before(i, j, 7, 4)
      ensures !IsKing(g[i][j], Black)
    {
      if i == 7 {
        BackRankKinds(j);
      }
    }
    KingSquareIs(g, Black, 7, 4);
  }

  /** No Black piece reaches e1 in the starting position. */
  lemma InitialE1Safe()
    ensures !Attacked(InitialGrid(), 0, 4, Black)
  {
    var g := InitialGrid();
    forall i, j | InBounds(i, j)
      ensures !AttacksFrom(g, i, j, 0, 4, Black)
    {
      if i == 7 {
        BackRankKinds(j);
      }
    }
  }

  /** No White piece reaches e8 in the starting position. */
  lemma InitialE8Safe()
    ensures !Attacked(InitialGrid(), 7, 4, White)
  {
    var g := InitialGrid();
    forall i, j | InBounds(i, j)
      ensures !AttacksFrom(g, i, j, 7, 4, White)
    {
      if i == 0 {
        BackRankKinds(j);
      }
    }
  }

  /** Neither side is in check in the starting position. */
  lemma InitialNoCheck()
    ensures InCheck(InitialGrid(), White) == Some(false)
    ensures InCheck(InitialGrid(), Black) == Some(false)
  {
    InitialKings();
    InitialE1Safe();
    InitialE8Safe();
  }

  /** The c1 bishop cannot reach e3 at the start: the d2 pawn blocks it. */
  lemma BishopBlockedAtStart()
    ensures InitialGrid()[0][2] == Some(Piece(Bishop, White, false))
    ensures !CanMove(InitialGrid(), Piece(Bishop, White, false), 0, 2, 2, 4)
  {
    var g := InitialGrid();
    assert g[Along(0, Signum(2 - 0), 1)][Along(2, Signum(4 - 2), 1)] != None;
  }
}
