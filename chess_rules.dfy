/** Chess pieces and their movement rules on an 8×8 board held as a value:
    how each kind of piece may move from one square to another, and the
    path test the sliding pieces share. Castling, en passant and promotion
    do not exist in these rules. */
module ChessRules {
  import opened Wrappers

  datatype Color = White | Black

  function Opposite(c: Color): (o: Color)
    ensures o != c
  {
    if c == White then Black else White
  }

  datatype Kind = Pawn | Knight | Bishop | Rook | Queen | King

  /** A piece: what it is, whose it is, and whether it has moved. A new
      piece has not moved; setMoved(b) is the update `p.(moved := b)`. */
  datatype Piece = Piece(kind: Kind, color: Color, moved: bool)

  const Size: int := 8

  /** board[row][col], None for an empty square. */
  type Grid = seq<seq<Option<Piece>>>

  predicate IsBoard(g: Grid)
  {
    |g| == Size && forall i :: 0 <= i < Size ==> |g[i]| == Size
  }

  predicate InBounds(r: int, c: int)
  {
    0 <= r < Size && 0 <= c < Size
  }

  /** The board of a new game: every square empty. */
  function EmptyGrid(): (g: Grid)
    ensures IsBoard(g)
    ensures forall i, j :: InBounds(i, j) ==> g[i][j] == None
  {
    seq(Size, _ => seq(Size, _ => None))
  }

  function Abs(x: int): nat
  {
    if x < 0 then -x else x
  }

  function Signum(x: int): int
  {
    if x > 0 then 1 else if x < 0 then -1 else 0
  }

  // ---------------------------------------------------------------------
  // The path between two squares

  /** Start and end share a row, a column or a diagonal. The path walk
      fixes its direction once, from the signs of the differences, so it
      reaches the end square exactly in this case. */
  predicate Aligned(sr: int, sc: int, er: int, ec: int)
  {
    sr == er || sc == ec || Abs(er - sr) == Abs(ec - sc)
  }

  /** The number of steps the walk takes from start to end. */
  function Steps(sr: int, sc: int, er: int, ec: int): nat
  {
    if Abs(er - sr) >= Abs(ec - sc) then Abs(er - sr) else Abs(ec - sc)
  }

  /** Coordinate s after k steps in direction d (d is -1, 0 or 1). */
  function Along(s: int, d: int, k: int): int
  {
    if d > 0 then s + k else if d < 0 then s - k else s
  }

  /** The k-th square of the walk lies on the board whenever k is at most
      the number of steps. */
  lemma AlongInBounds(sr: int, sc: int, er: int, ec: int, k: int)
    requires InBounds(sr, sc) && InBounds(er, ec) && Aligned(sr, sc, er, ec)
    requires 0 <= k <= Steps(sr, sc, er, ec)
    ensures InBounds(Along(sr, Signum(er - sr), k), Along(sc, Signum(ec - sc), k))
  {
  }

  /** The walk stands on the end square after exactly Steps steps, and
      on no earlier step. */
  lemma WalkReachesEnd(sr: int, sc: int, er: int, ec: int, k: int)
    requires Aligned(sr, sc, er, ec) && 0 <= k <= Steps(sr, sc, er, ec)
    ensures (Along(sr, Signum(er - sr), k) == er && Along(sc, Signum(ec - sc), k) == ec)
      <==> k == Steps(sr, sc, er, ec)
  {
  }

  /** Every square strictly between start and end, walking one step at a
      time in the direction of end, is empty; start and end themselves are
      not examined. */
  predicate PathClear(g: Grid, sr: int, sc: int, er: int, ec: int)
    requires IsBoard(g) && InBounds(sr, sc) && InBounds(er, ec) && Aligned(sr, sc, er, ec)
  {
    forall k {:trigger Along(sr, Signum(er - sr), k)} :: 0 < k < Steps(sr, sc, er, ec) ==>
      g[Along(sr, Signum(er - sr), k)][Along(sc, Signum(ec - sc), k)] == None
  }

  /** The squares the walk visits strictly between the endpoints are
      neither of the endpoints, so what stands on start or end never
      changes whether the path is clear. */
  lemma {:induction false} PathIgnoresEnds(g: Grid, h: Grid, sr: int, sc: int, er: int, ec: int)
    requires IsBoard(g) && IsBoard(h) && InBounds(sr, sc) && InBounds(er, ec) && Aligned(sr, sc, er, ec)
    requires forall i, j :: InBounds(i, j) && (i, j) != (sr, sc) && (i, j) != (er, ec) ==> h[i][j] == g[i][j]
    ensures PathClear(h, sr, sc, er, ec) == PathClear(g, sr, sc, er, ec)
  {
    var n := Steps(sr, sc, er, ec);
    var dr, dc := Signum(er - sr), Signum(ec - sc);
    forall k | 0 < k < n
      ensures h[Along(sr, dr, k)][Along(sc, dc, k)] == g[Along(sr, dr, k)][Along(sc, dc, k)]
    {
      AlongInBounds(sr, sc, er, ec, k);
      if sr == er {
        assert Along(sc, dc, k) != sc && Along(sc, dc, k) != ec;
      } else {
        assert Along(sr, dr, k) != sr && Along(sr, dr, k) != er;
      }
    }
  }

  // ---------------------------------------------------------------------
  // Movement of each kind of piece

  /** The row direction a pawn of this colour advances in. */
  function Forward(c: Color): int
  {
    if c == White then 1 else -1
  }

  /** One step forward onto an empty square; two steps forward from an
      unmoved pawn over an empty square onto an empty square; or one step
      diagonally forward onto an opponent's piece. */
  predicate PawnCanMove(g: Grid, p: Piece, sr: int, sc: int, er: int, ec: int)
    requires IsBoard(g) && InBounds(sr, sc) && InBounds(er, ec)
  {
    var dir := Forward(p.color);
    var rowDiff := er - sr;
    var colDiff := Abs(ec - sc);
    if colDiff == 0 && g[er][ec] == None && rowDiff == dir then true
    else if colDiff == 0 && g[er][ec] == None && !p.moved && rowDiff == 2 * dir then
      g[sr + dir][sc] == None
    else
      colDiff == 1 && rowDiff == dir && g[er][ec] != None && g[er][ec].value.color != p.color
  }

  /** Two squares one way and one the other; the board is not consulted. */
  predicate KnightCanMove(sr: int, sc: int, er: int, ec: int)
  {
    var rowDiff := Abs(er - sr);
    var colDiff := Abs(ec - sc);
    (rowDiff == 2 && colDiff == 1) || (rowDiff == 1 && colDiff == 2)
  }

  predicate BishopCanMove(g: Grid, sr: int, sc: int, er: int, ec: int)
    requires IsBoard(g) && InBounds(sr, sc) && InBounds(er, ec)
  {
    var rowDiff := Abs(er - sr);
    var colDiff := Abs(ec - sc);
    rowDiff == colDiff && rowDiff > 0 && PathClear(g, sr, sc, er, ec)
  }

  predicate RookCanMove(g: Grid, sr: int, sc: int, er: int, ec: int)
    requires IsBoard(g) && InBounds(sr, sc) && InBounds(er, ec)
  {
    var straightLine := sr == er || sc == ec;
    straightLine && PathClear(g, sr, sc, er, ec)
  }

  predicate QueenCanMove(g: Grid, sr: int, sc: int, er: int, ec: int)
    requires IsBoard(g) && InBounds(sr, sc) && InBounds(er, ec)
  {
    var straightLine := sr == er || sc == ec;
    var diagonal := Abs(er - sr) == Abs(ec - sc);
    (straightLine || diagonal) && PathClear(g, sr, sc, er, ec)
  }

  /** One square in any direction; the board is not consulted. */
  predicate KingCanMove(sr: int, sc: int, er: int, ec: int)
  {
    var rowDiff := Abs(er - sr);
    var colDiff := Abs(ec - sc);
    rowDiff <= 1 && colDiff <= 1 && rowDiff + colDiff > 0
  }

  /** canMove of the piece's own kind. It looks at the destination's
      occupant only for a pawn; whether a capture is allowed is decided by
      the game. */
  predicate CanMove(g: Grid, p: Piece, sr: int, sc: int, er: int, ec: int)
    requires IsBoard(g) && InBounds(sr, sc) && InBounds(er, ec)
  {
    match p.kind
    case Pawn => PawnCanMove(g, p, sr, sc, er, ec)
    case Knight => KnightCanMove(sr, sc, er, ec)
    case Bishop => BishopCanMove(g, sr, sc, er, ec)
    case Rook => RookCanMove(g, sr, sc, er, ec)
    case Queen => QueenCanMove(g, sr, sc, er, ec)
    case King => KingCanMove(sr, sc, er, ec)
  }

  // ---------------------------------------------------------------------
  // Properties of the rules

  /** The pawn's three moves, each stated by the squares it involves, and
      nothing else: no sideways, backward or longer move, and never
      forward onto an occupied square. */
  lemma PawnMoves(g: Grid, p: Piece, sr: int, sc: int, er: int, ec: int)
    requires IsBoard(g) && InBounds(sr, sc) && InBounds(er, ec)
    ensures PawnCanMove(g, p, sr, sc, er, ec) <==>
      (sc == ec && er == sr + Forward(p.color) && g[er][ec] == None)
      || (sc == ec && er == sr + 2 * Forward(p.color) && !p.moved
          && g[er][ec] == None && g[sr + Forward(p.color)][sc] == None)
      || (Abs(ec - sc) == 1 && er == sr + Forward(p.color)
          && g[er][ec].Some? && g[er][ec].value.color == Opposite(p.color))
  {
  }

  /** A pawn never lands on a piece of its own colour. */
  lemma PawnNeverTakesOwn(g: Grid, p: Piece, sr: int, sc: int, er: int, ec: int)
    requires IsBoard(g) && InBounds(sr, sc) && InBounds(er, ec)
    requires g[er][ec].Some? && g[er][ec].value.color == p.color
    ensures !PawnCanMove(g, p, sr, sc, er, ec)
  {
  }

  lemma KnightSymmetric(sr: int, sc: int, er: int, ec: int)
    ensures KnightCanMove(sr, sc, er, ec) == KnightCanMove(er, ec, sr, sc)
  {
  }

  /** Staying on the start square is accepted for a rook and a queen (the
      path walk stops at once) and rejected for every other kind. */
  lemma StayingPut(g: Grid, p: Piece, r: int, c: int)
    requires IsBoard(g) && InBounds(r, c)
    ensures CanMove(g, p, r, c, r, c) <==> p.kind == Rook || p.kind == Queen
  {
  }

  /** Only a pawn looks at what stands on the squares other than the
      path: a knight or king move is allowed on every board or none. */
  lemma KnightAndKingIgnoreBoard(g: Grid, h: Grid, p: Piece, sr: int, sc: int, er: int, ec: int)
    requires IsBoard(g) && IsBoard(h) && InBounds(sr, sc) && InBounds(er, ec)
    requires p.kind == Knight || p.kind == King
    ensures CanMove(g, p, sr, sc, er, ec) == CanMove(h, p, sr, sc, er, ec)
  {
  }

  /** Every kind but the pawn ignores the occupant of the destination (and
      of the start square): the game, not the piece, rules out capturing
      one's own piece. */
  lemma DestinationIgnored(g: Grid, p: Piece, sr: int, sc: int, er: int, ec: int, x: Option<Piece>)
    requires IsBoard(g) && InBounds(sr, sc) && InBounds(er, ec) && p.kind != Pawn
    ensures CanMove(g[er := g[er][ec := x]], p, sr, sc, er, ec) == CanMove(g, p, sr, sc, er, ec)
  {
    var h := g[er := g[er][ec := x]];
    if Aligned(sr, sc, er, ec) {
      PathIgnoresEnds(g, h, sr, sc, er, ec);
    }
  }

  /** A rook never changes both its row and its column. */
  lemma RookStraight(g: Grid, sr: int, sc: int, er: int, ec: int)
    requires IsBoard(g) && InBounds(sr, sc) && InBounds(er, ec)
    requires RookCanMove(g, sr, sc, er, ec)
    ensures sr == er || sc == ec
  {
  }

  /** Away from the start square, a queen moves exactly where a rook or a
      bishop of the same colour could. */
  lemma QueenIsRookOrBishop(g: Grid, sr: int, sc: int, er: int, ec: int)
    requires IsBoard(g) && InBounds(sr, sc) && InBounds(er, ec) && (sr, sc) != (er, ec)
    ensures QueenCanMove(g, sr, sc, er, ec) <==> RookCanMove(g, sr, sc, er, ec) || BishopCanMove(g, sr, sc, er, ec)
  {
  }

  /** A knight's jump is never a queen move. */
  lemma QueenCannotJump(g: Grid, sr: int, sc: int, er: int, ec: int)
    requires IsBoard(g) && InBounds(sr, sc) && InBounds(er, ec)
    requires KnightCanMove(sr, sc, er, ec)
    ensures !QueenCanMove(g, sr, sc, er, ec)
  {
  }

  /** The king moves exactly to the squares at Chebyshev distance one: no
      two-square or castling move. */
  lemma KingOneSquare(sr: int, sc: int, er: int, ec: int)
    ensures KingCanMove(sr, sc, er, ec) <==> Steps(sr, sc, er, ec) == 1
  {
  }
}
