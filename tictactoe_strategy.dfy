/** The constant-time winning strategy: per row, column and diagonal, a
    count of each symbol's moves, bumped by the move just made; a line is
    won when its count reaches the board size. */
module TicTacToeStrategy {
  import opened Wrappers
  import opened TicTacToeRules

  /** symbolCounts.getOrDefault(s, 0) */
  function CountOf(symbolCounts: map<Symbol, int>, s: Symbol): int
  {
    if s in symbolCounts then symbolCounts[s] else 0
  }

  /** The count of s on line index; a line never touched counts 0. */
  function LineCount(counts: map<int, map<Symbol, int>>, index: int, s: Symbol): int
  {
    if index in counts then CountOf(counts[index], s) else 0
  }

  ghost predicate RowsAgree(n: nat, rows: map<int, map<Symbol, int>>, g: Grid)
    requires IsSquare(g, n)
  {
    forall r, t :: 0 <= r < n ==> LineCount(rows, r, t) == |RowCells(g, n, r, t)|
  }

  ghost predicate ColsAgree(n: nat, cols: map<int, map<Symbol, int>>, g: Grid)
    requires IsSquare(g, n)
  {
    forall c, t :: 0 <= c < n ==> LineCount(cols, c, t) == |ColCells(g, n, c, t)|
  }

  /** One (index, s) counter bumped by one, every other counter kept. */
  ghost predicate Bumped(counts: map<int, map<Symbol, int>>, index: int, s: Symbol, updated: map<int, map<Symbol, int>>)
  {
    forall i, t :: LineCount(updated, i, t) == LineCount(counts, i, t) + (if (i, t) == (index, s) then 1 else 0)
  }

  ghost predicate BumpedDiagonal(counts: map<Symbol, int>, s: Symbol, updated: map<Symbol, int>)
  {
    forall t :: CountOf(updated, t) == CountOf(counts, t) + (if t == s then 1 else 0)
  }

  /** counts.putIfAbsent(index, new map); then the (index, s) counter
      goes up by one. */
  function Bump(counts: map<int, map<Symbol, int>>, index: int, s: Symbol): (updated: map<int, map<Symbol, int>>)
    ensures Bumped(counts, index, s, updated)
  {
    var symbolCounts := if index in counts then counts[index] else map[];
    counts[index := symbolCounts[s := CountOf(symbolCounts, s) + 1]]
  }

  function BumpDiagonal(counts: map<Symbol, int>, s: Symbol): (updated: map<Symbol, int>)
    ensures BumpedDiagonal(counts, s, updated)
  {
    counts[s := CountOf(counts, s) + 1]
  }

  /** The four kinds of counter the strategy keeps. */
  datatype Counters = Counters(rows: map<int, map<Symbol, int>>, cols: map<int, map<Symbol, int>>,
                               left: map<Symbol, int>, right: map<Symbol, int>)

  ghost predicate CountsAgree(n: nat, k: Counters, g: Grid)
    requires IsSquare(g, n)
  {
    RowsAgree(n, k.rows, g) && ColsAgree(n, k.cols, g)
    && (forall t :: CountOf(k.left, t) == |DiagCells(g, n, t)|)
    && (forall t :: CountOf(k.right, t) == |AntiDiagCells(g, n, t)|)
  }

  /** checkWinner on the counters alone: bump the row, then the column,
      then each diagonal the cell lies on, stopping at the first counter
      that reaches n. */
  function Check(n: nat, k: Counters, r: int, c: int, s: Symbol): (bool, Counters)
  {
    var rows := Bump(k.rows, r, s);
    if LineCount(rows, r, s) == n then (true, k.(rows := rows))
    else
      var cols := Bump(k.cols, c, s);
      if LineCount(cols, c, s) == n then (true, k.(rows := rows, cols := cols))
      else
        var left := if r == c then BumpDiagonal(k.left, s) else k.left;
        if r == c && CountOf(left, s) == n then (true, Counters(rows, cols, left, k.right))
        else
          var right := if r + c == n - 1 then BumpDiagonal(k.right, s) else k.right;
          (r + c == n - 1 && CountOf(right, s) == n, Counters(rows, cols, left, right))
  }

  /** Bumping the mover's row counter keeps the row counters in step with
      the grid after the move. */
  lemma RowsAfterPlace(n: nat, g: Grid, r: int, c: int, s: Symbol, rows: map<int, map<Symbol, int>>,
                       rows': map<int, map<Symbol, int>>)
    requires IsSquare(g, n) && 0 <= r < n && 0 <= c < n && g[r][c] == None
    requires RowsAgree(n, rows, g) && Bumped(rows, r, s, rows')
    ensures RowsAgree(n, rows', Place(g, n, r, c, s))
  {
    forall i, t | 0 <= i < n
      ensures LineCount(rows', i, t) == |RowCells(Place(g, n, r, c, s), n, i, t)|
    {
      PlaceRowCount(g, n, r, c, s, i, t);
    }
  }

  lemma ColsAfterPlace(n: nat, g: Grid, r: int, c: int, s: Symbol, cols: map<int, map<Symbol, int>>,
                       cols': map<int, map<Symbol, int>>)
    requires IsSquare(g, n) && 0 <= r < n && 0 <= c < n && g[r][c] == None
    requires ColsAgree(n, cols, g) && Bumped(cols, c, s, cols')
    ensures ColsAgree(n, cols', Place(g, n, r, c, s))
  {
    forall i, t | 0 <= i < n
      ensures LineCount(cols', i, t) == |ColCells(Place(g, n, r, c, s), n, i, t)|
    {
      PlaceColCount(g, n, r, c, s, i, t);
    }
  }

  /** The diagonal counters after the move: bumped exactly when the cell
      lies on that diagonal. */
  lemma LeftAfterPlace(n: nat, g: Grid, r: int, c: int, s: Symbol, left: map<Symbol, int>, left': map<Symbol, int>)
    requires IsSquare(g, n) && 0 <= r < n && 0 <= c < n && g[r][c] == None
    requires forall t :: CountOf(left, t) == |DiagCells(g, n, t)|
    requires if r == c then BumpedDiagonal(left, s, left') else left' == left
    ensures forall t :: CountOf(left', t) == |DiagCells(Place(g, n, r, c, s), n, t)|
  {
    forall t
      ensures CountOf(left', t) == |DiagCells(Place(g, n, r, c, s), n, t)|
    {
      PlaceDiagCount(g, n, r, c, s, t);
    }
  }

  lemma RightAfterPlace(n: nat, g: Grid, r: int, c: int, s: Symbol, right: map<Symbol, int>, right': map<Symbol, int>)
    requires IsSquare(g, n) && 0 <= r < n && 0 <= c < n && g[r][c] == None
    requires forall t :: CountOf(right, t) == |AntiDiagCells(g, n, t)|
    requires if r + c == n - 1 then BumpedDiagonal(right, s, right') else right' == right
    ensures forall t :: CountOf(right', t) == |AntiDiagCells(Place(g, n, r, c, s), n, t)|
  {
    forall t
      ensures CountOf(right', t) == |AntiDiagCells(Place(g, n, r, c, s), n, t)|
    {
      PlaceAntiDiagCount(g, n, r, c, s, t);
    }
  }

  /** With the row counters in step with the grid before the move, the
      bumped row counter reaches n exactly when the move completes its row;
      the same holds for the column and the two diagonals. */
  lemma RowReached(n: nat, g: Grid, r: int, c: int, s: Symbol, rows: map<int, map<Symbol, int>>,
                   rows': map<int, map<Symbol, int>>)
    requires IsSquare(g, n) && 0 <= r < n && 0 <= c < n && g[r][c] == None
    requires RowsAgree(n, rows, g) && Bumped(rows, r, s, rows')
    ensures LineCount(rows', r, s) == n <==> RowWon(Place(g, n, r, c, s), n, r, s)
  {
    PlaceRowCount(g, n, r, c, s, r, s);
    CountReachesSizeIffWon(Place(g, n, r, c, s), n, r, c, s);
  }

  lemma ColReached(n: nat, g: Grid, r: int, c: int, s: Symbol, cols: map<int, map<Symbol, int>>,
                   cols': map<int, map<Symbol, int>>)
    requires IsSquare(g, n) && 0 <= r < n && 0 <= c < n && g[r][c] == None
    requires ColsAgree(n, cols, g) && Bumped(cols, c, s, cols')
    ensures LineCount(cols', c, s) == n <==> ColWon(Place(g, n, r, c, s), n, c, s)
  {
    PlaceColCount(g, n, r, c, s, c, s);
    CountReachesSizeIffWon(Place(g, n, r, c, s), n, r, c, s);
  }

  lemma DiagReached(n: nat, g: Grid, r: int, c: int, s: Symbol, left: map<Symbol, int>, left': map<Symbol, int>)
    requires IsSquare(g, n) && 0 <= r < n && 0 <= c < n && g[r][c] == None && r == c
    requires forall t :: CountOf(left, t) == |DiagCells(g, n, t)|
    requires BumpedDiagonal(left, s, left')
    ensures CountOf(left', s) == n <==> DiagWon(Place(g, n, r, c, s), n, s)
  {
    PlaceDiagCount(g, n, r, c, s, s);
    CountReachesSizeIffWon(Place(g, n, r, c, s), n, r, c, s);
  }

  lemma AntiDiagReached(n: nat, g: Grid, r: int, c: int, s: Symbol, right: map<Symbol, int>, right': map<Symbol, int>)
    requires IsSquare(g, n) && 0 <= r < n && 0 <= c < n && g[r][c] == None && r + c == n - 1
    requires forall t :: CountOf(right, t) == |AntiDiagCells(g, n, t)|
    requires BumpedDiagonal(right, s, right')
    ensures CountOf(right', s) == n <==> AntiDiagWon(Place(g, n, r, c, s), n, s)
  {
    PlaceAntiDiagCount(g, n, r, c, s, s);
    CountReachesSizeIffWon(Place(g, n, r, c, s), n, r, c, s);
  }

  /** The counter-based check decides what the scan of the lines through
      the move decides. */
  lemma CheckMatchesScan(n: nat, g: Grid, k: Counters, r: int, c: int, s: Symbol)
    requires IsSquare(g, n) && 0 <= r < n && 0 <= c < n && g[r][c] == None
    requires CountsAgree(n, k, g)
    ensures Check(n, k, r, c, s).0 <==> WinsThrough(Place(g, n, r, c, s), n, r, c, s)
  {
    var rows := Bump(k.rows, r, s);
    var cols := Bump(k.cols, c, s);
    RowReached(n, g, r, c, s, k.rows, rows);
    ColReached(n, g, r, c, s, k.cols, cols);
    if r == c {
      DiagReached(n, g, r, c, s, k.left, BumpDiagonal(k.left, s));
    }
    if r + c == n - 1 {
      AntiDiagReached(n, g, r, c, s, k.right, BumpDiagonal(k.right, s));
    }
  }

  /** The counters of every line through (r, c) bumped for s. */
  function BumpAll(n: nat, k: Counters, r: int, c: int, s: Symbol): Counters
  {
    Counters(Bump(k.rows, r, s), Bump(k.cols, c, s),
             if r == c then BumpDiagonal(k.left, s) else k.left,
             if r + c == n - 1 then BumpDiagonal(k.right, s) else k.right)
  }

  /** Bumping every line through the move keeps the counters in step with
      the grid after the move. */
  lemma BumpAllKeepsAgreement(n: nat, g: Grid, k: Counters, r: int, c: int, s: Symbol)
    requires IsSquare(g, n) && 0 <= r < n && 0 <= c < n && g[r][c] == None
    requires CountsAgree(n, k, g)
    ensures CountsAgree(n, BumpAll(n, k, r, c, s), Place(g, n, r, c, s))
  {
    var b := BumpAll(n, k, r, c, s);
    RowsAfterPlace(n, g, r, c, s, k.rows, b.rows);
    ColsAfterPlace(n, g, r, c, s, k.cols, b.cols);
    LeftAfterPlace(n, g, r, c, s, k.left, b.left);
    RightAfterPlace(n, g, r, c, s, k.right, b.right);
  }

  /** After a move the counter-based check finds no win in, the counters
      are in step with the new grid. */
  lemma CheckKeepsAgreement(n: nat, g: Grid, k: Counters, r: int, c: int, s: Symbol)
    requires IsSquare(g, n) && 0 <= r < n && 0 <= c < n && g[r][c] == None
    requires CountsAgree(n, k, g) && !Check(n, k, r, c, s).0
    ensures CountsAgree(n, Check(n, k, r, c, s).1, Place(g, n, r, c, s))
  {
    assert Check(n, k, r, c, s).1 == BumpAll(n, k, r, c, s);
    BumpAllKeepsAgreement(n, g, k, r, c, s);
  }

  class OrderOneWinningStrategy {
    const size: nat
    var rowCounts: map<int, map<Symbol, int>>
    var colCounts: map<int, map<Symbol, int>>
    /** The main diagonal, cells where row == col. */
    var leftDiagonalCounts: map<Symbol, int>
    /** The anti-diagonal, cells where row + col == size - 1. */
    var rightDiagonalCounts: map<Symbol, int>

    /** Every counter holds the number of cells of its line that hold its
        symbol on grid g. */
    ghost predicate Agrees(g: Grid)
      reads this
    {
      IsSquare(g, size) && CountsAgree(size, Counts(), g)
    }

    function Counts(): Counters
      reads this
    {
      Counters(rowCounts, colCounts, leftDiagonalCounts, rightDiagonalCounts)
    }

    constructor (size: nat)
      ensures this.size == size
      ensures rowCounts == map[] && colCounts == map[]
      ensures leftDiagonalCounts == map[] && rightDiagonalCounts == map[]
      ensures Agrees(EmptyGrid(size))
    {
      this.size := size;
      rowCounts := map[];
      colCounts := map[];
      leftDiagonalCounts := map[];
      rightDiagonalCounts := map[];
      new;
      forall i, t | 0 <= i < size
        ensures |RowCells(EmptyGrid(size), size, i, t)| == 0 && |ColCells(EmptyGrid(size), size, i, t)| == 0
      {
        EmptyGridCounts(size, i, t);
      }
      if size > 0 {
        forall t
          ensures |DiagCells(EmptyGrid(size), size, t)| == 0 && |AntiDiagCells(EmptyGrid(size), size, t)| == 0
        {
          EmptyGridCounts(size, 0, t);
        }
      } else {
        assert forall t :: DiagCells(EmptyGrid(size), size, t) == {};
        assert forall t :: AntiDiagCells(EmptyGrid(size), size, t) == {};
      }
    }

    /** Adds one to the (index, s) counter, creating the line's map when
        absent; reached when the new count is the board size. No other
        counter changes. */
    method IncrementAndCheck(counts: map<int, map<Symbol, int>>, index: int, s: Symbol)
      returns (updated: map<int, map<Symbol, int>>, reached: bool)
      ensures Bumped(counts, index, s, updated) && updated == Bump(counts, index, s)
      ensures reached <==> LineCount(updated, index, s) == size
    {
      var symbolCounts := if index in counts then counts[index] else map[];
      var newCount := CountOf(symbolCounts, s) + 1;
      updated := counts[index := symbolCounts[s := newCount]];
      reached := newCount == size;
    }

    /** The diagonal form of IncrementAndCheck: one counter per symbol. */
    method IncrementAndCheckDiagonal(counts: map<Symbol, int>, s: Symbol)
      returns (updated: map<Symbol, int>, reached: bool)
      ensures BumpedDiagonal(counts, s, updated) && updated == BumpDiagonal(counts, s)
      ensures reached <==> CountOf(updated, s) == size
    {
      var newCount := CountOf(counts, s) + 1;
      updated := counts[s := newCount];
      reached := newCount == size;
    }

    /** The win check after a move of s at (row, col): bump the row, the
        column and each diagonal through the cell, stopping at the first
        counter that reaches the size. What the result means on the board
        is CheckMatchesScan and CheckKeepsAgreement. */
    method CheckWinner(row: int, col: int, s: Symbol) returns (won: bool)
      modifies this
      ensures (won, Counts()) == Check(size, old(Counts()), row, col, s)
    {
      var reached;
      rowCounts, reached := IncrementAndCheck(rowCounts, row, s);
      if reached {
        return true;
      }
      colCounts, reached := IncrementAndCheck(colCounts, col, s);
      if reached {
        return true;
      }
      if row == col {
        leftDiagonalCounts, reached := IncrementAndCheckDiagonal(leftDiagonalCounts, s);
        if reached {
          return true;
        }
      }
      if row + col == size - 1 {
        rightDiagonalCounts, reached := IncrementAndCheckDiagonal(rightDiagonalCounts, s);
        if reached {
          return true;
        }
      }
      return false;
    }
  }
}
