/** The simple N×N tic-tac-toe: a board of cells written by makeMove and
    scanned along the lines through the last move, and a two-player game
    that alternates turns until a win or a full board. */
module TicTacToeSimple {
  import opened Wrappers
  import opened TicTacToeRules

  datatype Player = Player(name: string, symbol: Symbol)

  /** What a game's gameOver and winner mean on its grid: a winner holds a
      complete line, a game over without a winner is a full board, and a
      game still running has no complete line on it. */
  ghost predicate Settled(g: Grid, n: nat, gameOver: bool, winner: Option<Player>)
    requires IsSquare(g, n)
  {
    (winner.Some? ==> gameOver && HasLine(g, n, winner.value.symbol))
    && (gameOver && winner.None? ==> Full(g, n))
    && (!gameOver && n > 0 ==> NoLine(g, n) && winner.None?)
  }

  /** The three ways a move by p can leave a running game: won through the
      cell just written, drawn on a full board, or still running. */
  lemma SettledAfterMove(g: Grid, n: nat, r: int, c: int, p: Player)
    requires IsSquare(g, n) && 0 <= r < n && 0 <= c < n && Settled(g, n, false, None)
    ensures WinsThrough(Place(g, n, r, c, p.symbol), n, r, c, p.symbol)
      ==> Settled(Place(g, n, r, c, p.symbol), n, true, Some(p))
    ensures Full(Place(g, n, r, c, p.symbol), n) ==> Settled(Place(g, n, r, c, p.symbol), n, true, None)
    ensures !WinsThrough(Place(g, n, r, c, p.symbol), n, r, c, p.symbol)
      ==> Settled(Place(g, n, r, c, p.symbol), n, false, None)
  {
    MoveKeepsNoLine(g, n, r, c, p.symbol);
  }

  class Board {
    const size: nat
    /** grid[row, col] is the symbol in that cell, None while empty. */
    const grid: array2<Option<Symbol>>
    var moveCount: int

    /** The board's contents as a value. */
    ghost var cells: Grid

    predicate Shaped()
      reads this
    {
      grid.Length0 == size && grid.Length1 == size
    }

    /** cells mirrors the grid, and moveCount is the number of filled cells. */
    ghost predicate Valid()
      reads this, grid
    {
      Shaped() && IsSquare(cells, size)
      && (forall i, j :: 0 <= i < size && 0 <= j < size ==> grid[i, j] == cells[i][j])
      && moveCount == |Filled(cells, size)|
    }

    constructor (size: nat)
      ensures this.size == size && fresh(grid)
      ensures Valid() && cells == EmptyGrid(size) && moveCount == 0
    {
      var g := new Option<Symbol>[size, size];
      for i := 0 to size
        invariant forall a, b :: 0 <= a < i && 0 <= b < size ==> g[a, b] == None
      {
        for j := 0 to size
          invariant forall a, b :: 0 <= a < i && 0 <= b < size ==> g[a, b] == None
          invariant forall b :: 0 <= b < j ==> g[i, b] == None
        {
          g[i, j] := None;
        }
      }
      this.size := size;
      grid := g;
      moveCount := 0;
      cells := EmptyGrid(size);
      EmptyGridUnfilled(size);
    }

    /** Writes s into (row, col) when that cell is on the board and empty. */
    method MakeMove(row: int, col: int, s: Symbol) returns (ok: bool)
      requires Valid()
      modifies this, grid
      ensures Valid()
      ensures ok <==> 0 <= row < size && 0 <= col < size && old(cells)[row][col] == None
      ensures ok ==> cells == Place(old(cells), size, row, col, s) && moveCount == old(moveCount) + 1
      ensures !ok ==> cells == old(cells) && moveCount == old(moveCount)
    {
      if row < 0 || row >= size || col < 0 || col >= size {
        return false;
      }
      if grid[row, col].Some? {
        return false;
      }
      PlaceFillsOne(cells, size, row, col, s);
      grid[row, col] := Some(s);
      moveCount := moveCount + 1;
      cells := Place(cells, size, row, col, s);
      return true;
    }

    method CheckRow(row: int, s: Symbol) returns (b: bool)
      requires Valid() && 0 <= row < size
      ensures b <==> RowWon(cells, size, row, s)
    {
      for c := 0 to size
        invariant forall k :: 0 <= k < c ==> grid[row, k] == Some(s)
      {
        if grid[row, c] != Some(s) {
          return false;
        }
      }
      return true;
    }

    method CheckCol(col: int, s: Symbol) returns (b: bool)
      requires Valid() && 0 <= col < size
      ensures b <==> ColWon(cells, size, col, s)
    {
      for r := 0 to size
        invariant forall k :: 0 <= k < r ==> grid[k, col] == Some(s)
      {
        if grid[r, col] != Some(s) {
          return false;
        }
      }
      return true;
    }

    method CheckDiagonal(s: Symbol) returns (b: bool)
      requires Valid()
      ensures b <==> DiagWon(cells, size, s)
    {
      for i := 0 to size
        invariant forall k :: 0 <= k < i ==> grid[k, k] == Some(s)
      {
        if grid[i, i] != Some(s) {
          return false;
        }
      }
      return true;
    }

    method CheckAntiDiagonal(s: Symbol) returns (b: bool)
      requires Valid()
      ensures b <==> AntiDiagWon(cells, size, s)
    {
      for i := 0 to size
        invariant forall k :: 0 <= k < i ==> cells[k][size - 1 - k] == Some(s)
      {
        if grid[i, size - 1 - i] != Some(s) {
          return false;
        }
      }
      return true;
    }

    /** Whether the last move, s at (row, col), completed a line through it. */
    method CheckWinner(row: int, col: int, s: Symbol) returns (b: bool)
      requires Valid() && 0 <= row < size && 0 <= col < size
      ensures b <==> WinsThrough(cells, size, row, col, s)
    {
      var won := CheckRow(row, s);
      if won {
        return true;
      }
      won := CheckCol(col, s);
      if won {
        return true;
      }
      if row == col {
        won := CheckDiagonal(s);
        if won {
          return true;
        }
      }
      if row + col == size - 1 {
        won := CheckAntiDiagonal(s);
        if won {
          return true;
        }
      }
      return false;
    }

    /** moveCount == size * size, which is a board with no empty cell. */
    method IsFull() returns (b: bool)
      requires Valid()
      ensures b <==> Full(cells, size)
    {
      FullIffAllFilled(cells, size);
      return moveCount == size * size;
    }
  }

  class Game {
    const board: Board
    const players: seq<Player>
    var currentPlayerIndex: nat
    var gameOver: bool
    var winner: Option<Player>

    /** The board's invariant, and gameOver and winner settled on its grid. */
    ghost predicate Valid()
      reads this, board, board.grid
    {
      board.Valid() && |players| == 2 && currentPlayerIndex < 2
      && Settled(board.cells, board.size, gameOver, winner)
    }

    function Current(): Player
      reads this
      requires |players| == 2 && currentPlayerIndex < 2
    {
      players[currentPlayerIndex]
    }

    constructor (boardSize: nat, player1: Player, player2: Player)
      ensures Valid() && fresh(board) && fresh(board.grid)
      ensures board.size == boardSize && board.cells == EmptyGrid(boardSize)
      ensures players == [player1, player2] && currentPlayerIndex == 0
      ensures !gameOver && winner == None
    {
      board := new Board(boardSize);
      players := [player1, player2];
      currentPlayerIndex := 0;
      gameOver := false;
      winner := None;
      new;
      if boardSize > 0 {
        EmptyGridNoLine(boardSize);
      }
    }

    /** One move by the player whose turn it is. */
    method MakeMove(row: int, col: int) returns (ok: bool)
      requires Valid()
      modifies this, board, board.grid
      ensures Valid()
      ensures old(gameOver) ==> !ok
      ensures !ok ==> (board.cells == old(board.cells) && currentPlayerIndex == old(currentPlayerIndex)
                       && gameOver == old(gameOver) && winner == old(winner))
      ensures ok <==> (!old(gameOver) && 0 <= row < board.size && 0 <= col < board.size
                       && old(board.cells)[row][col] == None)
      ensures ok ==> board.cells == Place(old(board.cells), board.size, row, col, old(Current()).symbol)
      ensures ok && WinsThrough(board.cells, board.size, row, col, old(Current()).symbol) ==>
        gameOver && winner == Some(old(Current())) && currentPlayerIndex == old(currentPlayerIndex)
      ensures (ok && !WinsThrough(board.cells, board.size, row, col, old(Current()).symbol)
               && Full(board.cells, board.size)) ==>
        gameOver && winner == None && currentPlayerIndex == old(currentPlayerIndex)
      ensures (ok && !WinsThrough(board.cells, board.size, row, col, old(Current()).symbol)
               && !Full(board.cells, board.size)) ==>
        !gameOver && winner == None && currentPlayerIndex == 1 - old(currentPlayerIndex)
    {
      if gameOver {
        return false;
      }
      var current := players[currentPlayerIndex];
      var symbol := current.symbol;
      ghost var before := board.cells;
      var placed := board.MakeMove(row, col, symbol);
      if !placed {
        return false;
      }
      SettledAfterMove(before, board.size, row, col, current);
      RecordOutcome(row, col, current);
      return true;
    }

    /** After current's move at (row, col): a win through that cell ends the
        game with current as winner, a full board ends it in a draw, and
        otherwise the turn passes to the other player. */
    method RecordOutcome(row: int, col: int, current: Player)
      requires board.Valid() && |players| == 2 && currentPlayerIndex < 2
      requires 0 <= row < board.size && 0 <= col < board.size
      requires WinsThrough(board.cells, board.size, row, col, current.symbol)
        ==> Settled(board.cells, board.size, true, Some(current))
      requires Full(board.cells, board.size) ==> Settled(board.cells, board.size, true, None)
      requires !WinsThrough(board.cells, board.size, row, col, current.symbol)
        ==> Settled(board.cells, board.size, false, None)
      modifies this
      ensures Valid()
      ensures WinsThrough(board.cells, board.size, row, col, current.symbol) ==>
        gameOver && winner == Some(current) && currentPlayerIndex == old(currentPlayerIndex)
      ensures (!WinsThrough(board.cells, board.size, row, col, current.symbol) && Full(board.cells, board.size)) ==>
        gameOver && winner == None && currentPlayerIndex == old(currentPlayerIndex)
      ensures (!WinsThrough(board.cells, board.size, row, col, current.symbol) && !Full(board.cells, board.size)) ==>
        !gameOver && winner == None && currentPlayerIndex == 1 - old(currentPlayerIndex)
    {
      var won := board.CheckWinner(row, col, current.symbol);
      var full := false;
      if !won {
        full := board.IsFull();
      }
      if won {
        gameOver := true;
        winner := Some(current);
      } else if full {
        gameOver := true;
        winner := None;
      } else {
        currentPlayerIndex := (currentPlayerIndex + 1) % 2;
        gameOver := false;
        winner := None;
      }
    }
  }

  /** Alice (X) and Bob (O) on 3×3: X at (0,0), O at (0,1), X at (1,1),
      O at (0,2), X at (2,2) ends the game with Alice winning on the main
      diagonal. */
  method DiagonalWinScenario() returns (over: bool, champion: Option<Player>)
    ensures over && champion == Some(Player("Alice", X))
  {
    var game := new Game(3, Player("Alice", X), Player("Bob", O));
    OpeningMoves(game);
    LaterMoves(game);
    WinningMove(game);
    return game.gameOver, game.winner;
  }

  /** X at (2,2) completes the main diagonal and Alice wins. */
  method WinningMove(game: Game)
    requires game.Valid() && game.board.size == 3 && !game.gameOver
    requires game.players == [Player("Alice", X), Player("Bob", O)] && game.currentPlayerIndex == 0
    requires game.board.cells[0][0] == Some(X) && game.board.cells[1][1] == Some(X)
    requires game.board.cells[2][2] == None
    modifies game, game.board, game.board.grid
    ensures game.gameOver && game.winner == Some(Player("Alice", X))
  {
    ghost var before := game.board.cells;
    assert DiagWon(Place(before, 3, 2, 2, X), 3, X);
    var ok := game.MakeMove(2, 2);
  }

  /** X at (0,0) and O at (0,1) on a new board. */
  method OpeningMoves(game: Game)
    requires game.Valid() && game.board.size == 3 && game.board.cells == EmptyGrid(3)
    requires game.players == [Player("Alice", X), Player("Bob", O)]
    requires game.currentPlayerIndex == 0 && !game.gameOver
    modifies game, game.board, game.board.grid
    ensures game.Valid() && game.board.size == 3 && !game.gameOver
    ensures game.players == [Player("Alice", X), Player("Bob", O)] && game.currentPlayerIndex == 0
    ensures game.board.cells[0][0] == Some(X) && game.board.cells[0][1] == Some(O)
    ensures game.board.cells[1][0] == None && game.board.cells[1][1] == None
    ensures game.board.cells[0][2] == None && game.board.cells[1][2] == None && game.board.cells[2][2] == None
  {
    var ok := game.MakeMove(0, 0);
    assert game.board.cells[0][1] == None && game.board.cells[1][0] == None;
    assert game.board.cells[1][1] == None && game.board.cells[2][2] == None;
    ReplyAtTop(game);
  }

  method ReplyAtTop(game: Game)
    requires game.Valid() && game.board.size == 3 && !game.gameOver
    requires game.players == [Player("Alice", X), Player("Bob", O)] && game.currentPlayerIndex == 1
    requires game.board.cells[0][0] == Some(X) && game.board.cells[0][1] == None
    requires game.board.cells[1][0] == None && game.board.cells[1][1] == None
    requires game.board.cells[0][2] == None && game.board.cells[1][2] == None && game.board.cells[2][2] == None
    modifies game, game.board, game.board.grid
    ensures game.Valid() && game.board.size == 3 && !game.gameOver
    ensures game.players == [Player("Alice", X), Player("Bob", O)] && game.currentPlayerIndex == 0
    ensures game.board.cells[0][0] == Some(X) && game.board.cells[0][1] == Some(O)
    ensures game.board.cells[1][0] == None && game.board.cells[1][1] == None
    ensures game.board.cells[0][2] == None && game.board.cells[1][2] == None && game.board.cells[2][2] == None
  {
    var ok := game.MakeMove(0, 1);
    assert game.board.cells[0][0] == Some(X) && game.board.cells[1][1] == None;
    assert game.board.cells[2][2] == None;
  }

  /** X at (1,1) and O at (0,2): still nobody has won and it is Alice's
      turn again. */
  method LaterMoves(game: Game)
    requires game.Valid() && game.board.size == 3 && !game.gameOver
    requires game.players == [Player("Alice", X), Player("Bob", O)] && game.currentPlayerIndex == 0
    requires game.board.cells[0][0] == Some(X) && game.board.cells[0][1] == Some(O)
    requires game.board.cells[1][0] == None && game.board.cells[1][1] == None
    requires game.board.cells[0][2] == None && game.board.cells[1][2] == None && game.board.cells[2][2] == None
    modifies game, game.board, game.board.grid
    ensures game.Valid() && !game.gameOver && game.currentPlayerIndex == 0
    ensures game.board.cells[0][0] == Some(X) && game.board.cells[1][1] == Some(X)
    ensures game.board.cells[2][2] == None
  {
    CentreMove(game);
    var ok := game.MakeMove(0, 2);
    assert game.board.cells[0][0] == Some(X) && game.board.cells[1][2] == None;
    assert game.board.cells[1][1] == Some(X) && game.board.cells[2][2] == None;
  }

  /** X at (1,1) next to X at (0,0) and O at (0,1) wins nothing; Bob is to move. */
  method CentreMove(game: Game)
    requires game.Valid() && game.board.size == 3 && !game.gameOver
    requires game.players == [Player("Alice", X), Player("Bob", O)] && game.currentPlayerIndex == 0
    requires game.board.cells[0][0] == Some(X) && game.board.cells[0][1] == Some(O)
    requires game.board.cells[1][0] == None && game.board.cells[1][1] == None
    requires game.board.cells[0][2] == None && game.board.cells[1][2] == None && game.board.cells[2][2] == None
    modifies game, game.board, game.board.grid
    ensures game.Valid() && game.board.size == 3 && !game.gameOver
    ensures game.players == [Player("Alice", X), Player("Bob", O)] && game.currentPlayerIndex == 1
    ensures game.board.cells[0][0] == Some(X) && game.board.cells[1][1] == Some(X)
    ensures game.board.cells[0][2] == None && game.board.cells[1][2] == None && game.board.cells[2][2] == None
  {
    var ok := game.MakeMove(1, 1);
    assert game.board.cells[1][0] == None && game.board.cells[0][1] == Some(O);
    assert game.board.cells[0][2] == None && game.board.cells[2][2] == None;
  }

  /** A second move onto the centre is refused and Bob is still to move. */
  method OccupiedCellScenario() returns (accepted: bool, next: Player)
    ensures !accepted && next == Player("Bob", O)
  {
    var game := new Game(3, Player("Alice", X), Player("Bob", O));
    var ok := game.MakeMove(1, 1);
    assert game.board.cells[1][0] == None && game.board.cells[0][1] == None;
    assert game.board.cells[0][0] == None && game.board.cells[0][2] == None;
    accepted := game.MakeMove(1, 1);
    next := game.players[game.currentPlayerIndex];
  }
}
