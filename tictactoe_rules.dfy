/** The N×N tic-tac-toe grid as a value: the lines a symbol can complete,
    the cells filled so far, and the per-line counts kept by the
    constant-time winning strategy. */
module TicTacToeRules {
  import opened Wrappers

  datatype Symbol = X | O

  /** grid[row][col], None for an empty cell. */
  type Grid = seq<seq<Option<Symbol>>>

  predicate IsSquare(g: Grid, n: nat)
  {
    |g| == n && forall i :: 0 <= i < n ==> |g[i]| == n
  }

  /** The grid of a new board: every cell empty. */
  function EmptyGrid(n: nat): (g: Grid)
    ensures IsSquare(g, n)
    ensures forall i, j :: 0 <= i < n && 0 <= j < n ==> g[i][j] == None
  {
    seq(n, _ => seq(n, _ => None))
  }

  /** The grid after symbol s is written into cell (r, c). */
  function Place(g: Grid, n: nat, r: int, c: int, s: Symbol): (h: Grid)
    requires IsSquare(g, n) && 0 <= r < n && 0 <= c < n
    ensures IsSquare(h, n)
    ensures h[r][c] == Some(s)
    ensures forall i, j :: 0 <= i < n && 0 <= j < n && (i, j) != (r, c) ==> h[i][j] == g[i][j]
  {
    g[r := g[r][c := Some(s)]]
  }

  // ---------------------------------------------------------------------
  // Lines

  predicate RowWon(g: Grid, n: nat, r: int, s: Symbol)
    requires IsSquare(g, n) && 0 <= r < n
  {
    forall c :: 0 <= c < n ==> g[r][c] == Some(s)
  }

  predicate ColWon(g: Grid, n: nat, c: int, s: Symbol)
    requires IsSquare(g, n) && 0 <= c < n
  {
    forall r :: 0 <= r < n ==> g[r][c] == Some(s)
  }

  /** The main diagonal (0,0), (1,1), ... */
  predicate DiagWon(g: Grid, n: nat, s: Symbol)
    requires IsSquare(g, n)
  {
    forall i :: 0 <= i < n ==> g[i][i] == Some(s)
  }

  /** The anti-diagonal (0,n-1), (1,n-2), ... */
  predicate AntiDiagWon(g: Grid, n: nat, s: Symbol)
    requires IsSquare(g, n)
  {
    forall i :: 0 <= i < n ==> g[i][n - 1 - i] == Some(s)
  }

  /** The lines through (r, c) that a win check after a move at (r, c)
      examines: its row, its column, and each diagonal the cell lies on. */
  predicate WinsThrough(g: Grid, n: nat, r: int, c: int, s: Symbol)
    requires IsSquare(g, n) && 0 <= r < n && 0 <= c < n
  {
    RowWon(g, n, r, s) || ColWon(g, n, c, s)
    || (r == c && DiagWon(g, n, s))
    || (r + c == n - 1 && AntiDiagWon(g, n, s))
  }

  /** Some complete line of s anywhere on the board: the reference
      definition of a win. */
  predicate HasLine(g: Grid, n: nat, s: Symbol)
    requires IsSquare(g, n)
  {
    (exists r :: 0 <= r < n && RowWon(g, n, r, s))
    || (exists c :: 0 <= c < n && ColWon(g, n, c, s))
    || DiagWon(g, n, s)
    || AntiDiagWon(g, n, s)
  }

  predicate NoLine(g: Grid, n: nat)
    requires IsSquare(g, n)
  {
    !HasLine(g, n, X) && !HasLine(g, n, O)
  }

  predicate Full(g: Grid, n: nat)
    requires IsSquare(g, n)
  {
    forall i, j :: 0 <= i < n && 0 <= j < n ==> g[i][j].Some?
  }

  /** Scanning only the lines through the last move is enough: if t had no
      line before s was written at (r, c), then t has a line afterwards
      exactly when t is s and one of the lines through (r, c) is complete. */
  lemma LastMoveDecides(g: Grid, n: nat, r: int, c: int, s: Symbol, t: Symbol)
    requires IsSquare(g, n) && 0 <= r < n && 0 <= c < n
    requires !HasLine(g, n, t)
    ensures HasLine(Place(g, n, r, c, s), n, t) <==> t == s && WinsThrough(Place(g, n, r, c, s), n, r, c, s)
  {
    var h := Place(g, n, r, c, s);
    if t == s && WinsThrough(h, n, r, c, s) {
      if RowWon(h, n, r, s) {
        assert 0 <= r < n && RowWon(h, n, r, t);
      } else if ColWon(h, n, c, s) {
        assert 0 <= c < n && ColWon(h, n, c, t);
      }
    }
    if HasLine(h, n, t) {
      if exists r' :: 0 <= r' < n && RowWon(h, n, r', t) {
        var r' :| 0 <= r' < n && RowWon(h, n, r', t);
        assert !RowWon(g, n, r', t);
        assert r' == r;
        assert h[r][c] == Some(t);
      } else if exists c' :: 0 <= c' < n && ColWon(h, n, c', t) {
        var c' :| 0 <= c' < n && ColWon(h, n, c', t);
        assert !ColWon(g, n, c', t);
        assert c' == c;
        assert h[r][c] == Some(t);
      } else if DiagWon(h, n, t) {
        assert !DiagWon(g, n, t);
        assert r == c;
        assert h[r][r] == Some(t);
      } else {
        assert AntiDiagWon(h, n, t);
        assert !AntiDiagWon(g, n, t);
        assert r + c == n - 1;
        assert h[r][n - 1 - r] == Some(t);
      }
    }
  }

  /** The state a game keeps after a move: with no line on the board
      before, the mover either completes a line through the cell just
      written, or the board still has no line at all. */
  lemma MoveKeepsNoLine(g: Grid, n: nat, r: int, c: int, s: Symbol)
    requires IsSquare(g, n) && 0 <= r < n && 0 <= c < n && NoLine(g, n)
    ensures WinsThrough(Place(g, n, r, c, s), n, r, c, s) ==> HasLine(Place(g, n, r, c, s), n, s)
    ensures !WinsThrough(Place(g, n, r, c, s), n, r, c, s) ==> NoLine(Place(g, n, r, c, s), n)
  {
    LastMoveDecides(g, n, r, c, s, X);
    LastMoveDecides(g, n, r, c, s, O);
  }

  lemma EmptyGridNoLine(n: nat)
    requires n > 0
    ensures NoLine(EmptyGrid(n), n)
  {
    var g := EmptyGrid(n);
    assert g[0][0] == None && g[0][n - 1] == None;
    forall i, s | 0 <= i < n
      ensures !RowWon(g, n, i, s) && !ColWon(g, n, i, s)
    {
      assert g[i][0] == None && g[0][i] == None;
    }
  }

  // ---------------------------------------------------------------------
  // Filled cells and move counts

  /** {0, ..., n-1} */
  ghost function Range(n: nat): set<int>
  {
    if n == 0 then {} else Range(n - 1) + {n - 1}
  }

  lemma {:induction false} RangeCard(n: nat)
    ensures forall i :: i in Range(n) <==> 0 <= i < n
    ensures |Range(n)| == n
  {
    if n > 0 {
      RangeCard(n - 1);
      assert n - 1 !in Range(n - 1);
    }
  }

  lemma SubsetOfSameSize<T>(a: set<T>, b: set<T>)
    requires a <= b && |a| == |b|
    ensures a == b
  {
    assert b == a + (b - a);
    assert a * (b - a) == {};
    assert |b - a| == 0;
  }

  /** The cells (row, col) holding a symbol. */
  ghost function Filled(g: Grid, n: nat): set<(int, int)>
    requires IsSquare(g, n)
  {
    set i, j | 0 <= i < n && 0 <= j < n && g[i][j].Some? :: (i, j)
  }

  ghost function Rect(rows: nat, n: nat): set<(int, int)>
  {
    set i, j | 0 <= i < rows && 0 <= j < n :: (i, j)
  }

  ghost function RowPairs(r: int, n: nat): set<(int, int)>
  {
    set j | 0 <= j < n :: (r, j)
  }

  lemma {:induction false} RowPairsCard(r: int, n: nat)
    ensures |RowPairs(r, n)| == n
  {
    if n > 0 {
      RowPairsCard(r, n - 1);
      assert RowPairs(r, n) == RowPairs(r, n - 1) + {(r, n - 1)};
    }
  }

  lemma {:induction false} RectCard(rows: nat, n: nat)
    ensures |Rect(rows, n)| == rows * n
  {
    if rows > 0 {
      RectCard(rows - 1, n);
      RowPairsCard(rows - 1, n);
      assert rows * n == (rows - 1) * n + n;
      assert Rect(rows, n) == Rect(rows - 1, n) + RowPairs(rows - 1, n);
      assert Rect(rows - 1, n) * RowPairs(rows - 1, n) == {};
    }
  }

  lemma EmptyGridUnfilled(n: nat)
    ensures Filled(EmptyGrid(n), n) == {}
  {
    var g := EmptyGrid(n);
    assert forall i, j :: 0 <= i < n && 0 <= j < n ==> g[i][j] == None;
    assert forall p :: p !in Filled(g, n);
  }

  /** Writing into an empty cell fills exactly one more cell. */
  lemma PlaceFillsOne(g: Grid, n: nat, r: int, c: int, s: Symbol)
    requires IsSquare(g, n) && 0 <= r < n && 0 <= c < n && g[r][c] == None
    ensures Filled(Place(g, n, r, c, s), n) == Filled(g, n) + {(r, c)}
    ensures |Filled(Place(g, n, r, c, s), n)| == |Filled(g, n)| + 1
  {
    var h := Place(g, n, r, c, s);
    assert (r, c) !in Filled(g, n);
    assert (r, c) in Filled(h, n);
    assert Filled(h, n) == Filled(g, n) + {(r, c)};
  }

  /** n² filled cells means a full board, and only then. */
  lemma FullIffAllFilled(g: Grid, n: nat)
    requires IsSquare(g, n)
    ensures |Filled(g, n)| == n * n <==> Full(g, n)
  {
    RectCard(n, n);
    assert Filled(g, n) <= Rect(n, n);
    if |Filled(g, n)| == n * n {
      SubsetOfSameSize(Filled(g, n), Rect(n, n));
      forall i, j | 0 <= i < n && 0 <= j < n
        ensures g[i][j].Some?
      {
        assert (i, j) in Rect(n, n);
      }
    }
    if Full(g, n) {
      assert Filled(g, n) == Rect(n, n);
    }
  }

  // ---------------------------------------------------------------------
  // Per-line counts of one symbol

  ghost function RowCells(g: Grid, n: nat, r: int, s: Symbol): (a: set<int>)
    requires IsSquare(g, n) && 0 <= r < n
    ensures forall k :: k in a <==> 0 <= k < n && g[r][k] == Some(s)
  {
    set c | 0 <= c < n && g[r][c] == Some(s)
  }

  ghost function ColCells(g: Grid, n: nat, c: int, s: Symbol): (a: set<int>)
    requires IsSquare(g, n) && 0 <= c < n
    ensures forall k :: k in a <==> 0 <= k < n && g[k][c] == Some(s)
  {
    set r | 0 <= r < n && g[r][c] == Some(s)
  }

  ghost function DiagCells(g: Grid, n: nat, s: Symbol): (a: set<int>)
    requires IsSquare(g, n)
    ensures forall k :: k in a <==> 0 <= k < n && g[k][k] == Some(s)
  {
    set i | 0 <= i < n && g[i][i] == Some(s)
  }

  ghost function AntiDiagCells(g: Grid, n: nat, s: Symbol): (a: set<int>)
    requires IsSquare(g, n)
    ensures forall k :: k in a <==> 0 <= k < n && g[k][n - 1 - k] == Some(s)
  {
    set i | 0 <= i < n && g[i][n - 1 - i] == Some(s)
  }

  /** A line's count of s reaches n exactly when the line is all s. */
  lemma CountReachesSizeIffWon(g: Grid, n: nat, r: int, c: int, s: Symbol)
    requires IsSquare(g, n) && 0 <= r < n && 0 <= c < n
    ensures |RowCells(g, n, r, s)| == n <==> RowWon(g, n, r, s)
    ensures |ColCells(g, n, c, s)| == n <==> ColWon(g, n, c, s)
    ensures |DiagCells(g, n, s)| == n <==> DiagWon(g, n, s)
    ensures |AntiDiagCells(g, n, s)| == n <==> AntiDiagWon(g, n, s)
  {
    var row, col := RowCells(g, n, r, s), ColCells(g, n, c, s);
    var diag, anti := DiagCells(g, n, s), AntiDiagCells(g, n, s);
    FullLine(row, n);
    FullLine(col, n);
    FullLine(diag, n);
    FullLine(anti, n);
    assert (forall i :: 0 <= i < n ==> i in row) <==> RowWon(g, n, r, s);
    assert (forall i :: 0 <= i < n ==> i in col) <==> ColWon(g, n, c, s);
    assert (forall i :: 0 <= i < n ==> i in diag) <==> DiagWon(g, n, s);
    assert (forall i :: 0 <= i < n ==> i in anti) <==> AntiDiagWon(g, n, s);
  }

  /** A set of indices below n has n members exactly when it holds them all. */
  lemma FullLine(a: set<int>, n: nat)
    requires forall i :: i in a ==> 0 <= i < n
    ensures |a| == n <==> forall i :: 0 <= i < n ==> i in a
  {
    RangeCard(n);
    forall i | i in a
      ensures i in Range(n)
    {
    }
    if |a| == n {
      SubsetOfSameSize(a, Range(n));
    }
    if forall i :: 0 <= i < n ==> i in a {
      assert a == Range(n);
    }
  }

  /** Writing s into the empty cell (r, c) adds one to the s-count of each
      line through (r, c) and leaves every other count unchanged. */
  lemma PlaceRowCount(g: Grid, n: nat, r: int, c: int, s: Symbol, i: int, t: Symbol)
    requires IsSquare(g, n) && 0 <= r < n && 0 <= c < n && g[r][c] == None && 0 <= i < n
    ensures |RowCells(Place(g, n, r, c, s), n, i, t)|
      == |RowCells(g, n, i, t)| + (if i == r && t == s then 1 else 0)
  {
    var h := Place(g, n, r, c, s);
    if i == r && t == s {
      assert c !in RowCells(g, n, i, t);
      assert RowCells(h, n, i, t) == RowCells(g, n, i, t) + {c};
    } else {
      assert RowCells(h, n, i, t) == RowCells(g, n, i, t);
    }
  }

  lemma PlaceColCount(g: Grid, n: nat, r: int, c: int, s: Symbol, i: int, t: Symbol)
    requires IsSquare(g, n) && 0 <= r < n && 0 <= c < n && g[r][c] == None && 0 <= i < n
    ensures |ColCells(Place(g, n, r, c, s), n, i, t)|
      == |ColCells(g, n, i, t)| + (if i == c && t == s then 1 else 0)
  {
    var h := Place(g, n, r, c, s);
    forall k | 0 <= k < n && k != r
      ensures h[k][i] == g[k][i]
    {
    }
    if i == c && t == s {
      assert r !in ColCells(g, n, i, t);
      assert ColCells(h, n, i, t) == ColCells(g, n, i, t) + {r};
    } else {
      assert h[r][i] == Some(t) <==> g[r][i] == Some(t);
      assert ColCells(h, n, i, t) == ColCells(g, n, i, t);
    }
  }

  lemma PlaceDiagCount(g: Grid, n: nat, r: int, c: int, s: Symbol, t: Symbol)
    requires IsSquare(g, n) && 0 <= r < n && 0 <= c < n && g[r][c] == None
    ensures |DiagCells(Place(g, n, r, c, s), n, t)|
      == |DiagCells(g, n, t)| + (if r == c && t == s then 1 else 0)
  {
    var h := Place(g, n, r, c, s);
    if r == c && t == s {
      assert r !in DiagCells(g, n, t);
      assert DiagCells(h, n, t) == DiagCells(g, n, t) + {r};
    } else {
      assert DiagCells(h, n, t) == DiagCells(g, n, t);
    }
  }

  lemma PlaceAntiDiagCount(g: Grid, n: nat, r: int, c: int, s: Symbol, t: Symbol)
    requires IsSquare(g, n) && 0 <= r < n && 0 <= c < n && g[r][c] == None
    ensures |AntiDiagCells(Place(g, n, r, c, s), n, t)|
      == |AntiDiagCells(g, n, t)| + (if r + c == n - 1 && t == s then 1 else 0)
  {
    var h := Place(g, n, r, c, s);
    if r + c == n - 1 && t == s {
      assert r !in AntiDiagCells(g, n, t);
      assert AntiDiagCells(h, n, t) == AntiDiagCells(g, n, t) + {r};
    } else {
      forall i | 0 <= i < n
        ensures h[i][n - 1 - i] == Some(t) <==> g[i][n - 1 - i] == Some(t)
      {
        if i == r && n - 1 - i == c {
          assert t != s;
        }
      }
      assert AntiDiagCells(h, n, t) == AntiDiagCells(g, n, t);
    }
  }

  lemma EmptyGridCounts(n: nat, i: int, t: Symbol)
    requires 0 <= i < n
    ensures |RowCells(EmptyGrid(n), n, i, t)| == 0 && |ColCells(EmptyGrid(n), n, i, t)| == 0
    ensures |DiagCells(EmptyGrid(n), n, t)| == 0 && |AntiDiagCells(EmptyGrid(n), n, t)| == 0
  {
    var g := EmptyGrid(n);
    assert RowCells(g, n, i, t) == {};
    assert ColCells(g, n, i, t) == {};
    assert DiagCells(g, n, t) == {};
    assert AntiDiagCells(g, n, t) == {};
  }
}
