/** Snakes and ladders as values: jumps on the board, the table of players
    and whose turn it is, and one request to move as a function of the roll. */
module SnakeLadderRules {
  import opened Wrappers

  /** A snake or a ladder: landing on start takes the player to end. */
  datatype Jump = Jump(start: int, end: int)

  /** The reply announces a ladder when the jump goes up, a snake otherwise. */
  predicate IsLadder(j: Jump)
  {
    j.end > j.start
  }

  /** The reasons for which building a board, a configuration or a game
      throws IllegalArgumentException. */
  datatype Refusal =
    | JumpOutOfBounds
    | SnakeNotDown(head: int, tail: int)
    | LadderNotUp(bottom: int, top: int)
    | NoPlayers
    | BoardTooSmall
    | Overlap(position: int)

  /** The dice a game rolls with. Any strategy other than the normal die is
      told apart only by its name. */
  datatype DiceStrategy = NormalDice | OtherDice(name: string)

  /** addJump's bounds: a jump starts on 1 .. size - 1 and ends on 1 .. size. */
  predicate JumpFits(size: int, start: int, end: int)
  {
    1 <= start < size && 1 <= end <= size
  }

  /** The jumps map of a board: every jump is filed under its own start and
      passed addJump's bounds. */
  predicate JumpsFit(size: int, jumps: map<int, Jump>)
  {
    forall s :: s in jumps ==> jumps[s].start == s && JumpFits(size, s, jumps[s].end)
  }

  /** No jump of a board starts on its final square. */
  lemma NoJumpOnLastSquare(size: int, jumps: map<int, Jump>)
    requires JumpsFit(size, jumps)
    ensures size !in jumps
    ensures forall s :: s in jumps ==> 1 <= jumps[s].end <= size
  {
  }

  // ---------------------------------------------------------------------
  // The game table and one turn

  datatype Player = Player(name: string, position: int)

  /** The players in turn order, the index of the one to move, and whether
      someone has already won. */
  datatype Table = Table(players: seq<Player>, current: int, ended: bool)

  /** What makeMove answers. NoPlayer is the request on a game without
      players, where reading the current player fails. */
  datatype Reply =
    | AlreadyEnded
    | NoPlayer
    | NotYourTurn(requester: string, current: string)
    | CannotMove(rolled: int, needs: int)
    | Moved(rolled: int, jump: Option<Jump>, to: int, won: bool)

  /** The index of the player to move is in range; it stays 0 while there
      are no players. */
  predicate Seated(t: Table)
  {
    if |t.players| == 0 then t.current == 0 else 0 <= t.current < |t.players|
  }

  /** Where a player who reaches pos ends up: the end of the jump starting
      there, or pos itself. The end square is not looked up again. */
  function Landing(jumps: map<int, Jump>, pos: int): int
  {
    if pos in jumps then jumps[pos].end else pos
  }

  function Names(players: seq<Player>): seq<string>
  {
    seq(|players|, i requires 0 <= i < |players| => players[i].name)
  }

  /** makeMove(playerId) with the value the dice strategy rolled, on a board
      of this size with these jumps. */
  function Turn(size: int, jumps: map<int, Jump>, t: Table, playerId: string, dice: int): (r: (Table, Reply))
    requires Seated(t)
    ensures Seated(r.0) && Names(r.0.players) == Names(t.players)
    ensures r.0 != t ==> !t.ended && |t.players| > 0 && t.players[t.current].name == playerId
  {
    if t.ended then (t, AlreadyEnded)
    else if |t.players| == 0 then (t, NoPlayer)
    else
      var p := t.players[t.current];
      if p.name != playerId then (t, NotYourTurn(playerId, p.name))
      else
        var next := p.position + dice;
        var following := (t.current + 1) % |t.players|;
        if next > size then (t.(current := following), CannotMove(dice, size - p.position))
        else
          var jump := if next in jumps then Some(jumps[next]) else None;
          var to := Landing(jumps, next);
          var players := t.players[t.current := p.(position := to)];
          if to == size then (t.(players := players, ended := true), Moved(dice, jump, to, true))
          else (Table(players, following, false), Moved(dice, jump, to, false))
  }

  /** A roll that carries the current player past the last square moves
      nobody, says how many squares were needed, and passes the turn on. */
  lemma Overshoot(size: int, jumps: map<int, Jump>, t: Table, dice: int)
    requires Seated(t) && !t.ended && |t.players| > 0
    requires t.players[t.current].position + dice > size
    ensures var r := Turn(size, jumps, t, t.players[t.current].name, dice);
      r.0.players == t.players && !r.0.ended
      && r.0.current == (t.current + 1) % |t.players|
      && r.1 == CannotMove(dice, size - t.players[t.current].position)
  {
  }

  /** A roll that stays on the board moves the current player to the
      landing square, taking one jump at most even when that jump ends on
      the start of another, and changes no other player. */
  lemma Advance(size: int, jumps: map<int, Jump>, t: Table, dice: int)
    requires Seated(t) && !t.ended && |t.players| > 0
    requires t.players[t.current].position + dice <= size
    ensures var next := t.players[t.current].position + dice;
      var r := Turn(size, jumps, t, t.players[t.current].name, dice);
      r.0.players[t.current].position == (if next in jumps then jumps[next].end else next)
      && (forall i :: 0 <= i < |t.players| && i != t.current ==> r.0.players[i] == t.players[i])
      && r.1.Moved? && r.1.to == r.0.players[t.current].position
      && (r.1.jump.Some? <==> next in jumps)
  {
  }

  /** Reaching the last square exactly wins: the game ends and the turn
      stays with the winner. Any other landing passes the turn on. */
  lemma WinKeepsTurn(size: int, jumps: map<int, Jump>, t: Table, dice: int)
    requires Seated(t) && !t.ended && |t.players| > 0
    requires t.players[t.current].position + dice <= size
    ensures var r := Turn(size, jumps, t, t.players[t.current].name, dice);
      (r.0.ended <==> Landing(jumps, t.players[t.current].position + dice) == size)
      && r.1 == Moved(dice, r.1.jump, r.1.to, r.0.ended)
      && r.0.current == (if r.0.ended then t.current else (t.current + 1) % |t.players|)
  {
  }

  // ---------------------------------------------------------------------
  // Invariants of a game in progress

  /** The game has ended exactly when someone stands on the last square,
      and then the winner is the player whose turn it still is. */
  predicate Settled(size: int, t: Table)
  {
    Seated(t)
    && (t.ended ==> |t.players| > 0 && t.players[t.current].position == size)
    && (!t.ended ==> forall i :: 0 <= i < |t.players| ==> t.players[i].position != size)
  }

  lemma TurnKeepsSettled(size: int, jumps: map<int, Jump>, t: Table, playerId: string, dice: int)
    requires Settled(size, t)
    ensures Settled(size, Turn(size, jumps, t, playerId, dice).0)
  {
    if !t.ended && |t.players| > 0 && t.players[t.current].name == playerId {
      var r := Turn(size, jumps, t, playerId, dice).0;
      if !r.ended {
        forall i | 0 <= i < |r.players|
          ensures r.players[i].position != size
        {
          if i != t.current {
            assert r.players[i] == t.players[i];
          }
        }
      }
    }
  }

  /** Every player stands on square 0 (before the board) up to the last square. */
  predicate OnBoard(size: int, t: Table)
  {
    forall i :: 0 <= i < |t.players| ==> 0 <= t.players[i].position <= size
  }

  /** With jumps that fit the board and a roll that is not negative, no
      player ever leaves the board. */
  lemma TurnKeepsOnBoard(size: int, jumps: map<int, Jump>, t: Table, playerId: string, dice: int)
    requires Seated(t) && JumpsFit(size, jumps) && OnBoard(size, t) && 0 <= dice
    ensures OnBoard(size, Turn(size, jumps, t, playerId, dice).0)
  {
    var r := Turn(size, jumps, t, playerId, dice).0;
    forall i | 0 <= i < |r.players|
      ensures 0 <= r.players[i].position <= size
    {
      if r != t && i == t.current {
        var next := t.players[t.current].position + dice;
        if next <= size && next in jumps {
          assert r.players[i].position == jumps[next].end;
        }
      } else if r != t {
        assert r.players[i] == t.players[i];
      }
    }
  }

  /** The table after a series of requests, each a player name and the
      value rolled for it. */
  function Turns(size: int, jumps: map<int, Jump>, t: Table, requests: seq<(string, int)>): (r: Table)
    requires Seated(t)
    ensures Seated(r)
    decreases |requests|
  {
    if |requests| == 0 then t
    else Turns(size, jumps, Turn(size, jumps, t, requests[0].0, requests[0].1).0, requests[1..])
  }

  /** Once someone has won, no further request changes anything. */
  lemma {:induction false} EndedIsFinal(size: int, jumps: map<int, Jump>, t: Table, requests: seq<(string, int)>)
    requires Seated(t) && t.ended
    ensures Turns(size, jumps, t, requests) == t
    decreases |requests|
  {
    if |requests| > 0 {
      EndedIsFinal(size, jumps, t, requests[1..]);
    }
  }

  /** The game stays settled however many requests come in. */
  lemma {:induction false} TurnsKeepSettled(size: int, jumps: map<int, Jump>, t: Table, requests: seq<(string, int)>)
    requires Settled(size, t)
    ensures Settled(size, Turns(size, jumps, t, requests))
    decreases |requests|
  {
    if |requests| > 0 {
      TurnKeepsSettled(size, jumps, t, requests[0].0, requests[0].1);
      TurnsKeepSettled(size, jumps, Turn(size, jumps, t, requests[0].0, requests[0].1).0, requests[1..]);
    }
  }

  /** The normal die rolls 1 to 6. */
  predicate NormalRoll(v: int)
  {
    1 <= v <= 6
  }

  /** A fresh table: every player on square 0, the first one to move. */
  function Lineup(names: seq<string>): (t: Table)
    ensures Seated(t) && Names(t.players) == names && !t.ended
    ensures forall i :: 0 <= i < |t.players| ==> t.players[i].position == 0
  {
    Table(seq(|names|, i requires 0 <= i < |names| => Player(names[i], 0)), 0, false)
  }

  /** A new game on a board with at least one square is settled and on the board. */
  lemma LineupSettled(size: int, names: seq<string>)
    requires size > 0
    ensures Settled(size, Lineup(names)) && OnBoard(size, Lineup(names))
  {
  }
}
