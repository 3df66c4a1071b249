/** A game of chess between two players: moves are validated, played,
    taken back when they leave the mover's own king attacked, and kept on
    a history stack for undo. */
module ChessGame {
  import opened Wrappers
  import opened ChessRules
  import opened ChessPosition
  import opened ChessBoard
  import opened ChessMoves

  datatype Player = Player(name: string, color: Color)

  datatype Status = InProgress | WhiteWins | BlackWins

  /** How a makeMove call ends: the move is played, it is turned down, or
      isInCheck finds no king of the colour it asks about and the call
      fails on the null king square, leaving the game as it stands then. */
  datatype Reply = Accepted | Rejected | KingMissing

  /** Everything makeMove and undoLastMove read and write: the board, whose
      turn it is (an index into the players), the status and the history
      stack (last element on top). */
  datatype Snapshot = Snapshot(grid: Grid, turn: int, status: Status, history: seq<Move>)

  predicate HistoryOnBoard(history: seq<Move>)
  {
    forall k :: 0 <= k < |history| ==> OnBoard(history[k])
  }

  predicate Coherent(players: seq<Player>, s: Snapshot)
  {
    |players| == 2 && 0 <= s.turn < 2 && IsBoard(s.grid) && HistoryOnBoard(s.history)
  }

  function WinFor(c: Color): Status
  {
    if c == White then WhiteWins else BlackWins
  }

  /** The checks makeMove makes before touching the board: the game is
      running, both squares are on the board, the start square holds a
      piece of the player to move, the piece may move to the end square,
      and the end square does not hold a piece of the mover's colour. */
  predicate Admissible(players: seq<Player>, s: Snapshot, sr: int, sc: int, er: int, ec: int)
    requires Coherent(players, s)
  {
    s.status == InProgress && InBounds(sr, sc) && InBounds(er, ec)
    && s.grid[sr][sc].Some? && s.grid[sr][sc].value.color == players[s.turn].color
    && CanMove(s.grid, s.grid[sr][sc].value, sr, sc, er, ec)
    && !(s.grid[er][ec].Some? && s.grid[er][ec].value.color == s.grid[sr][sc].value.color)
  }

  /** What makeMove does once the checks have passed: execute m, take it
      back if the mover's king is now attacked, and otherwise finish. */
  ghost function Proceed(players: seq<Player>, s: Snapshot, m: Move): (r: (Snapshot, Reply))
    requires Coherent(players, s) && OnBoard(m)
    ensures Coherent(players, r.0)
  {
    var g := Executed(s.grid, m);
    var selfCheck := InCheck(g, players[s.turn].color);
    if selfCheck.None? then (s.(grid := g), KingMissing)
    else if selfCheck.value then (s.(grid := Reverted(g, m)), Rejected)
    else Finish(players, s.(grid := g), m)
  }

  /** The end of makeMove, on the board after execute: push m, end the
      game in the mover's favour if the opponent's king is attacked, and
      hand the turn over. */
  ghost function Finish(players: seq<Player>, t: Snapshot, m: Move): (r: (Snapshot, Reply))
    requires Coherent(players, t) && OnBoard(m)
    ensures Coherent(players, r.0)
  {
    var mover := players[t.turn].color;
    var pushed := t.(history := t.history + [m]);
    var opponentCheck := InCheck(t.grid, Opposite(mover));
    if opponentCheck.None? then (pushed, KingMissing)
    else
      var status := if opponentCheck.value then WinFor(mover) else t.status;
      (pushed.(status := status, turn := 1 - t.turn), Accepted)
  }

  /** makeMove(sr, sc, er, ec) on s: every failed check turns the move
      down before the board is touched. */
  ghost function Play(players: seq<Player>, s: Snapshot, sr: int, sc: int, er: int, ec: int): (r: (Snapshot, Reply))
    requires Coherent(players, s)
    ensures Coherent(players, r.0)
  {
    if !Admissible(players, s, sr, sc, er, ec) then (s, Rejected)
    else Proceed(players, s, NewMove(s.grid, s.grid[sr][sc].value, sr, sc, er, ec))
  }

  /** undoLastMove on s: false on an empty history; otherwise the top move
      is popped and undone and the turn passes back. */
  function UndoLast(s: Snapshot): (r: (Snapshot, bool))
    requires IsBoard(s.grid) && HistoryOnBoard(s.history)
    ensures IsBoard(r.0.grid) && HistoryOnBoard(r.0.history)
  {
    if |s.history| == 0 then (s, false)
    else
      var last := s.history[|s.history| - 1];
      (s.(grid := Reverted(s.grid, last), history := s.history[..|s.history| - 1], turn := 1 - s.turn), true)
  }

  // ---------------------------------------------------------------------
  // Properties of makeMove and undoLastMove

  /** A turned-down move leaves board, turn, status and history as they
      were, including a move taken back because it left the mover's king
      attacked. */
  lemma RejectedChangesNothing(players: seq<Player>, s: Snapshot, sr: int, sc: int, er: int, ec: int)
    requires Coherent(players, s)
    ensures Play(players, s, sr, sc, er, ec).1 == Rejected ==> Play(players, s, sr, sc, er, ec).0 == s
  {
    if Admissible(players, s, sr, sc, er, ec) {
      var m := NewMove(s.grid, s.grid[sr][sc].value, sr, sc, er, ec);
      UndoRestores(s.grid, m);
    }
  }

  /** What an accepted move leaves behind: the board after execute, the
      move on top of the history, the other player to move, the mover's
      king unattacked, and a game that has ended in the mover's favour
      exactly when the opponent's king is attacked. */
  lemma ProceedAccepted(players: seq<Player>, s: Snapshot, m: Move)
    requires Coherent(players, s) && OnBoard(m) && s.status == InProgress
    requires Proceed(players, s, m).1 == Accepted
    ensures var r := Proceed(players, s, m).0;
      var mover := players[s.turn].color;
      r.grid == Executed(s.grid, m) && r.history == s.history + [m] && r.turn == 1 - s.turn
      && InCheck(r.grid, mover) == Some(false)
      && (r.status == WinFor(mover) <==> InCheck(r.grid, Opposite(mover)) == Some(true))
      && (r.status == InProgress <==> InCheck(r.grid, Opposite(mover)) == Some(false))
  {
  }

  /** A move is played exactly when it passes the checks, leaves the
      mover's own king unattacked, and the opponent still has a king. */
  lemma AcceptedMove(players: seq<Player>, s: Snapshot, sr: int, sc: int, er: int, ec: int)
    requires Coherent(players, s)
    ensures Play(players, s, sr, sc, er, ec).1 == Accepted <==>
      Admissible(players, s, sr, sc, er, ec)
      && InCheck(Executed(s.grid, NewMove(s.grid, s.grid[sr][sc].value, sr, sc, er, ec)), players[s.turn].color) == Some(false)
      && InCheck(Executed(s.grid, NewMove(s.grid, s.grid[sr][sc].value, sr, sc, er, ec)), Opposite(players[s.turn].color)).Some?
  {
  }

  /** Once the game has ended every move is turned down. */
  lemma OverIsFinal(players: seq<Player>, s: Snapshot, sr: int, sc: int, er: int, ec: int)
    requires Coherent(players, s) && s.status != InProgress
    ensures Play(players, s, sr, sc, er, ec) == (s, Rejected)
  {
  }

  /** Popping and undoing a move m made on s gives back s's board, turn
      and history. */
  lemma UndoPops(s: Snapshot, m: Move, r: Snapshot)
    requires IsBoard(s.grid) && HistoryOnBoard(s.history) && Fits(s.grid, m) && 0 <= s.turn < 2
    requires r.grid == Executed(s.grid, m) && r.history == s.history + [m] && r.turn == 1 - s.turn
    ensures UndoLast(r) == (s.(status := r.status), true)
  {
    UndoRestores(s.grid, m);
    assert r.history[..|r.history| - 1] == s.history;
  }

  /** Undoing a played move gives back the board, the turn and the
      history from before it; a status the move set stays. */
  lemma UndoAfterPlay(players: seq<Player>, s: Snapshot, sr: int, sc: int, er: int, ec: int)
    requires Coherent(players, s) && Play(players, s, sr, sc, er, ec).1 == Accepted
    ensures UndoLast(Play(players, s, sr, sc, er, ec).0) == (s.(status := Play(players, s, sr, sc, er, ec).0.status), true)
  {
    var m := NewMove(s.grid, s.grid[sr][sc].value, sr, sc, er, ec);
    ProceedAccepted(players, s, m);
    UndoPops(s, m, Play(players, s, sr, sc, er, ec).0);
  }

  /** With both kings on the board and no king on the end square, the
      king lookups inside makeMove always find a king. */
  lemma KingsStayOnBoard(players: seq<Player>, s: Snapshot, sr: int, sc: int, er: int, ec: int, wr: int, wc: int, br: int, bc: int)
    requires Coherent(players, s)
    requires InBounds(wr, wc) && IsKing(s.grid[wr][wc], White)
    requires InBounds(br, bc) && IsKing(s.grid[br][bc], Black)
    requires InBounds(er, ec) ==> !IsKing(s.grid[er][ec], White) && !IsKing(s.grid[er][ec], Black)
    ensures Play(players, s, sr, sc, er, ec).1 != KingMissing
  {
    if Admissible(players, s, sr, sc, er, ec) {
      var piece := s.grid[sr][sc].value;
      var m := NewMove(s.grid, piece, sr, sc, er, ec);
      var g := Executed(s.grid, m);
      assert (sr, sc) != (er, ec);
      var mover := players[s.turn].color;
      if mover == White {
        if (wr, wc) == (sr, sc) {
          assert IsKing(g[er][ec], White);
        } else {
          assert IsKing(g[wr][wc], White);
        }
        assert IsKing(g[br][bc], Black);
      } else {
        if (br, bc) == (sr, sc) {
          assert IsKing(g[er][ec], Black);
        } else {
          assert IsKing(g[br][bc], Black);
        }
        assert IsKing(g[wr][wc], White);
      }
    }
  }

  // ---------------------------------------------------------------------
  // Opening scenarios: White and Black players on a started board

  function DemoPlayers(): seq<Player>
  {
    [Player("White", White), Player("Black", Black)]
  }

  function Started(): Snapshot
  {
    Snapshot(InitialGrid(), 0, InProgress, [])
  }

  /** Black may not open the game, nothing moves off the board, and an
      empty square has nothing to move. */
  lemma OpeningRejections()
    ensures Play(DemoPlayers(), Started(), 6, 4, 5, 4) == (Started(), Rejected)
    ensures Play(DemoPlayers(), Started(), 1, 0, 8, 0) == (Started(), Rejected)
    ensures Play(DemoPlayers(), Started(), 3, 3, 4, 3) == (Started(), Rejected)
  {
  }

  /** The a1 rook may not take its own b1 knight, and the c1 bishop is
      blocked by the d2 pawn. */
  lemma OpeningBlocked()
    ensures Play(DemoPlayers(), Started(), 0, 0, 0, 1) == (Started(), Rejected)
    ensures Play(DemoPlayers(), Started(), 0, 2, 2, 4) == (Started(), Rejected)
  {
    BishopBlockedAtStart();
  }

  /** Nothing to undo at the start. */
  lemma NothingToUndo()
    ensures UndoLast(Started()) == (Started(), false)
  {
  }

  /** After e2-e3 no Black piece reaches e1. */
  lemma E1SafeAfterPawnStep(g: Grid)
    requires g == Executed(InitialGrid(), Move(Piece(Pawn, White, false), 1, 4, 2, 4, None, true))
    ensures !Attacked(g, 0, 4, Black)
  {
    forall i, j | InBounds(i, j)
      ensures !AttacksFrom(g, i, j, 0, 4, Black)
    {
      InitialLayout(i, j);
      if i == 7 {
        BackRankKinds(j);
      }
    }
  }

  /** After e2-e3 White's king still stands on e1. */
  lemma WhiteKingAfterPawnStep(g: Grid)
    requires g == Executed(InitialGrid(), Move(Piece(Pawn, White, false), 1, 4, 2, 4, None, true))
    ensures KingSquare(g, White) == Some((0, 4))
  {
    BackRankKinds(4);
    forall i, j | InBounds(i, j) && Before(i, j, 0, 4)
      ensures !IsKing(g[i][j], White)
    {
      BackRankKinds(j);
    }
    KingSquareIs(g, White, 0, 4);
  }

  /** After e2-e3 Black's king still stands on e8. */
  lemma BlackKingAfterPawnStep(g: Grid)
    requires g == Executed(InitialGrid(), Move(Piece(Pawn, White, false), 1, 4, 2, 4, None, true))
    ensures KingSquare(g, Black) == Some((7, 4))
  {
    BackRankKinds(4);
    forall i, j | InBounds(i, j) && Before(i, j, 7, 4)
      ensures !IsKing(g[i][j], Black)
    {
      InitialLayout(i, j);
      if i == 7 {
        BackRankKinds(j);
      }
    }
    KingSquareIs(g, Black, 7, 4);
  }

  /** Once screened, e2-e3 exposes neither king: the move is accepted and
      Black is to move. */
  lemma PawnStepProceeds(m: Move)
    requires m == Move(Piece(Pawn, White, false), 1, 4, 2, 4, None, true)
    ensures Proceed(DemoPlayers(), Started(), m).1 == Accepted
    ensures Proceed(DemoPlayers(), Started(), m).0.turn == 1
  {
    var g := Executed(InitialGrid(), m);
    E1SafeAfterPawnStep(g);
    WhiteKingAfterPawnStep(g);
    BlackKingAfterPawnStep(g);
  }

  /** e2-e3 passes makeMove's checks at the start. */
  lemma PawnStepAdmissible()
    ensures Admissible(DemoPlayers(), Started(), 1, 4, 2, 4)
  {
    var g0: Grid := InitialGrid();
    InitialLayout(1, 4);
    InitialLayout(2, 4);
    PawnMoves(g0, g0[1][4].value, 1, 4, 2, 4);
  }

  /** White's single pawn step e2-e3 is played and hands the move to
      Black. */
  lemma PawnStepAccepted()
    ensures Play(DemoPlayers(), Started(), 1, 4, 2, 4).1 == Accepted
    ensures Play(DemoPlayers(), Started(), 1, 4, 2, 4).0.turn == 1
  {
    var g0: Grid := InitialGrid();
    var m := Move(Piece(Pawn, White, false), 1, 4, 2, 4, None, true);
    PawnStepAdmissible();
    assert NewMove(g0, g0[1][4].value, 1, 4, 2, 4) == m;
    PawnStepProceeds(m);
  }

  class Game {
    const board: Board
    const players: seq<Player>
    var currentPlayerIndex: int
    var status: Status
    var moveHistory: seq<Move>

    ghost predicate Valid()
      reads this, board, board.cells
    {
      board.Valid() && Coherent(players, State())
    }

    ghost function State(): Snapshot
      reads this, board
    {
      Snapshot(board.squares, currentPlayerIndex, status, moveHistory)
    }

    /** A new game: an empty board, the first player to move, running, and
        no history. */
    constructor (p1: Player, p2: Player)
      ensures Valid() && players == [p1, p2] && fresh(board) && fresh(board.cells)
      ensures State() == Snapshot(EmptyGrid(), 0, InProgress, [])
    {
      board := new Board();
      players := [p1, p2];
      currentPlayerIndex := 0;
      status := InProgress;
      moveHistory := [];
    }

    /** start: lays out the pieces. */
    method Start()
      requires Valid()
      modifies board, board.cells
      ensures Valid()
      ensures State() == old(State()).(grid := Initialized(old(board.squares)))
    {
      board.Initialize();
    }

    method IsInCheck(color: Color) returns (check: Option<bool>)
      requires Valid()
      ensures check == InCheck(board.squares, color)
    {
      var kingCell := board.FindKing(color);
      if kingCell.None? {
        return None;
      }
      var attacked := board.IsSquareUnderAttack(kingCell.value.row, kingCell.value.col, Opposite(color));
      return Some(attacked);
    }

    /** isCheckmate is isInCheck: being in check counts as checkmate. */
    method IsCheckmate(color: Color) returns (mate: Option<bool>)
      requires Valid()
      ensures mate == InCheck(board.squares, color)
    {
      mate := IsInCheck(color);
    }

    /** The checks of makeMove that come before the board is touched;
        the piece on the start square when they pass. */
    method Screen(sr: int, sc: int, er: int, ec: int) returns (piece: Option<Piece>)
      requires Valid()
      ensures piece.Some? <==> Admissible(players, State(), sr, sc, er, ec)
      ensures piece.Some? ==> board.squares[sr][sc] == piece
    {
      if status != InProgress {
        return None;
      }
      var start := board.GetCell(sr, sc);
      var end := board.GetCell(er, ec);
      if start.None? || end.None? {
        return None;
      }
      piece := start.value.piece;
      if piece.None? {
        return None;
      }
      var current := players[currentPlayerIndex];
      if piece.value.color != current.color {
        return None;
      }
      var can := board.CanMove(piece.value, sr, sc, er, ec);
      if !can {
        return None;
      }
      if end.value.piece.Some? && end.value.piece.value.color == piece.value.color {
        return None;
      }
    }

    method MakeMove(sr: int, sc: int, er: int, ec: int) returns (reply: Reply)
      requires Valid()
      modifies this, board, board.cells
      ensures Valid()
      ensures (State(), reply) == Play(players, old(State()), sr, sc, er, ec)
    {
      var piece := Screen(sr, sc, er, ec);
      if piece.None? {
        return Rejected;
      }
      var captured := board.cells[er, ec];
      var move := Move(piece.value, sr, sc, er, ec, captured, !piece.value.moved);
      reply := Carry(move);
    }

    /** makeMove from the creation of the move on. */
    method Carry(move: Move) returns (reply: Reply)
      requires Valid() && OnBoard(move) && board.squares[move.endRow][move.endCol] == move.captured
      modifies this, board, board.cells
      ensures Valid()
      ensures (State(), reply) == Proceed(players, old(State()), move)
    {
      var current := players[currentPlayerIndex];
      var done := Execute(move, board);
      assert done == move;
      var selfCheck := IsInCheck(current.color);
      if selfCheck.None? {
        return KingMissing;
      }
      if selfCheck.value {
        Undo(move, board);
        return Rejected;
      }
      reply := Conclude(move);
    }

    /** makeMove once the moved piece has not exposed its own king. */
    method Conclude(move: Move) returns (reply: Reply)
      requires Valid() && OnBoard(move)
      modifies this
      ensures Valid()
      ensures State() == Finish(players, old(State()), move).0 && reply == Finish(players, old(State()), move).1
    {
      var current := players[currentPlayerIndex];
      moveHistory := moveHistory + [move];
      var opponent := Opposite(current.color);
      var opponentCheck := IsInCheck(opponent);
      if opponentCheck.None? {
        return KingMissing;
      }
      if opponentCheck.value {
        var mate := IsCheckmate(opponent);
        if mate == Some(true) {
          status := if current.color == White then WhiteWins else BlackWins;
        }
      }
      currentPlayerIndex := 1 - currentPlayerIndex;
      return Accepted;
    }

    method UndoLastMove() returns (ok: bool)
      requires Valid()
      modifies this, board, board.cells
      ensures Valid()
      ensures (State(), ok) == UndoLast(old(State()))
    {
      if |moveHistory| == 0 {
        return false;
      }
      var last := moveHistory[|moveHistory| - 1];
      moveHistory := moveHistory[..|moveHistory| - 1];
      Undo(last, board);
      currentPlayerIndex := 1 - currentPlayerIndex;
      return true;
    }
  }
}
