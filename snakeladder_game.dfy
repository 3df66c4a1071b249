/** The snakes and ladders board, with its jumps map, and the game that
    answers move requests one at a time. */
module SnakeLadderGame {
  import opened Wrappers
  import opened SnakeLadderRules

  class Board {
    /** The number of squares; the last one wins. */
    const size: int
    /** The jump starting on each square that has one. */
    var jumps: map<int, Jump>

    ghost predicate Valid()
      reads this
    {
      JumpsFit(size, jumps)
    }

    constructor (size: int)
      ensures this.size == size && jumps == map[] && Valid()
    {
      this.size := size;
      jumps := map[];
    }

    /** addJump: out-of-bounds positions throw and leave the map alone;
        otherwise the jump is filed under its start, replacing any jump
        filed there before. */
    method AddJump(start: int, end: int) returns (r: Outcome<Refusal>)
      modifies this
      ensures r.Pass? <==> JumpFits(size, start, end)
      ensures r.Fail? ==> r.error == JumpOutOfBounds
      ensures jumps == if r.Pass? then old(jumps)[start := Jump(start, end)] else old(jumps)
      ensures old(Valid()) ==> Valid()
    {
      if start < 1 || start >= size || end < 1 || end > size {
        return Fail(JumpOutOfBounds);
      }
      jumps := jumps[start := Jump(start, end)];
      return Pass;
    }

    /** getJump: the jump starting at position, or None. On a valid board a
        jump found there starts there and not on the last square. */
    function GetJump(position: int): (j: Option<Jump>)
      reads this
      ensures j.Some? <==> position in jumps
      ensures j.Some? ==> j.value == jumps[position]
      ensures Valid() && j.Some? ==> j.value.start == position && 1 <= position < size && 1 <= j.value.end <= size
    {
      if position in jumps then Some(jumps[position]) else None
    }
  }

  class Game {
    const board: Board
    const diceStrategy: DiceStrategy
    /** The players in turn order, each with its position. */
    var players: seq<Player>
    var currentPlayerIndex: int
    var isGameEnded: bool

    ghost function State(): Table
      reads this
    {
      Table(players, currentPlayerIndex, isGameEnded)
    }

    ghost predicate Valid()
      reads this, board
    {
      board.Valid() && Seated(State())
    }

    /** A new game: the first player moves and nobody has won. */
    constructor (board: Board, players: seq<Player>, diceStrategy: DiceStrategy)
      requires board.Valid()
      ensures Valid()
      ensures this.board == board && this.diceStrategy == diceStrategy
      ensures State() == Table(players, 0, false)
    {
      this.board := board;
      this.players := players;
      this.diceStrategy := diceStrategy;
      currentPlayerIndex := 0;
      isGameEnded := false;
    }

    /** makeMove(playerId), where dice is the value the dice strategy rolls. */
    method MakeMove(playerId: string, dice: int) returns (reply: Reply)
      requires Valid()
      modifies this
      ensures Valid()
      ensures (State(), reply) == Turn(board.size, board.jumps, old(State()), playerId, dice)
    {
      if isGameEnded {
        return AlreadyEnded;
      }
      if |players| == 0 {
        return NoPlayer;
      }
      var currentPlayer := players[currentPlayerIndex];
      if currentPlayer.name != playerId {
        return NotYourTurn(playerId, currentPlayer.name);
      }
      var currentPos := currentPlayer.position;
      var nextPos := currentPos + dice;
      if nextPos > board.size {
        reply := CannotMove(dice, board.size - currentPos);
      } else {
        var jump := board.GetJump(nextPos);
        if jump.Some? {
          nextPos := jump.value.end;
        }
        players := players[currentPlayerIndex := currentPlayer.(position := nextPos)];
        if nextPos == board.size {
          isGameEnded := true;
          return Moved(dice, jump, nextPos, true);
        }
        reply := Moved(dice, jump, nextPos, false);
      }
      currentPlayerIndex := (currentPlayerIndex + 1) % |players|;
    }
  }
}
