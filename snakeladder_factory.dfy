/** Configuring and creating snakes and ladders games: the configuration
    builder, its validation, and the factory with its preset boards. */
module SnakeLadderFactory {
  import opened Wrappers
  import opened SnakeLadderRules
  import opened SnakeLadderGame

  /** GameConfig: board size, player names, snakes as (head, tail), ladders
      as (bottom, top), and the dice strategy. */
  datatype Config = Config(boardSize: int, playerNames: seq<string>, snakes: seq<(int, int)>,
                           ladders: seq<(int, int)>, diceStrategy: DiceStrategy)

  /** Every snake goes down and every ladder goes up, as the builder checks. */
  predicate Oriented(c: Config)
  {
    (forall i :: 0 <= i < |c.snakes| ==> c.snakes[i].0 > c.snakes[i].1)
    && (forall i :: 0 <= i < |c.ladders| ==> c.ladders[i].0 < c.ladders[i].1)
  }

  class Builder {
    var boardSize: int
    var playerNames: seq<string>
    var snakes: seq<(int, int)>
    var ladders: seq<(int, int)>
    var diceStrategy: DiceStrategy

    /** The configuration the builder would build now. */
    function Current(): Config
      reads this
    {
      Config(boardSize, playerNames, snakes, ladders, diceStrategy)
    }

    ghost predicate Valid()
      reads this
    {
      Oriented(Current())
    }

    /** The defaults: 100 squares, nobody, no snakes or ladders, the normal die. */
    constructor ()
      ensures Valid()
      ensures Current() == Config(100, [], [], [], NormalDice)
    {
      boardSize := 100;
      playerNames := [];
      snakes := [];
      ladders := [];
      diceStrategy := NormalDice;
    }

    method BoardSize(size: int)
      modifies this
      ensures Current() == old(Current()).(boardSize := size)
      ensures old(Valid()) ==> Valid()
    {
      boardSize := size;
    }

    method AddPlayer(name: string)
      modifies this
      ensures Current() == old(Current()).(playerNames := old(playerNames) + [name])
      ensures old(Valid()) ==> Valid()
    {
      playerNames := playerNames + [name];
    }

    /** addPlayers: the names are appended one by one, in order. */
    method AddPlayers(names: seq<string>)
      modifies this
      ensures Current() == old(Current()).(playerNames := old(playerNames) + names)
      ensures old(Valid()) ==> Valid()
    {
      for i := 0 to |names|
        invariant Current() == old(Current()).(playerNames := old(playerNames) + names[..i])
      {
        playerNames := playerNames + [names[i]];
        assert names[..i + 1] == names[..i] + [names[i]];
      }
      assert names[..|names|] == names;
    }

    /** addSnake: a head not above the tail throws and adds nothing. */
    method AddSnake(head: int, tail: int) returns (r: Outcome<Refusal>)
      modifies this
      ensures r.Fail? <==> head <= tail
      ensures r.Fail? ==> r.error == SnakeNotDown(head, tail) && Current() == old(Current())
      ensures r.Pass? ==> Current() == old(Current()).(snakes := old(snakes) + [(head, tail)])
      ensures old(Valid()) ==> Valid()
    {
      if head <= tail {
        return Fail(SnakeNotDown(head, tail));
      }
      snakes := snakes + [(head, tail)];
      return Pass;
    }

    /** addLadder: a bottom not below the top throws and adds nothing. */
    method AddLadder(bottom: int, top: int) returns (r: Outcome<Refusal>)
      modifies this
      ensures r.Fail? <==> bottom >= top
      ensures r.Fail? ==> r.error == LadderNotUp(bottom, top) && Current() == old(Current())
      ensures r.Pass? ==> Current() == old(Current()).(ladders := old(ladders) + [(bottom, top)])
      ensures old(Valid()) ==> Valid()
    {
      if bottom >= top {
        return Fail(LadderNotUp(bottom, top));
      }
      ladders := ladders + [(bottom, top)];
      return Pass;
    }

    /** diceStrategy(strategy). */
    method UseDiceStrategy(strategy: DiceStrategy)
      modifies this
      ensures Current() == old(Current()).(diceStrategy := strategy)
      ensures old(Valid()) ==> Valid()
    {
      diceStrategy := strategy;
    }

    /** build: a configuration with the builder's fields; from a valid
        builder its snakes go down and its ladders go up. */
    method Build() returns (config: Config)
      ensures config == Current()
      ensures Valid() ==> Oriented(config)
    {
      config := Config(boardSize, playerNames, snakes, ladders, diceStrategy);
    }
  }

  // ---------------------------------------------------------------------
  // Validation

  /** The start squares of a list of snakes or ladders. */
  function Starts(pairs: seq<(int, int)>): (s: seq<int>)
    ensures |s| == |pairs| && forall i :: 0 <= i < |pairs| ==> s[i] == pairs[i].0
  {
    seq(|pairs|, i requires 0 <= i < |pairs| => pairs[i].0)
  }

  predicate Distinct(xs: seq<int>)
  {
    forall i, j :: 0 <= i < j < |xs| ==> xs[i] != xs[j]
  }

  /** Adding xs one by one to a set that starts as seen: the first element
      the set already holds. */
  function FirstRepeat(xs: seq<int>, seen: set<int>): Option<int>
    decreases |xs|
  {
    if |xs| == 0 then None
    else if xs[0] in seen then Some(xs[0])
    else FirstRepeat(xs[1..], seen + {xs[0]})
  }

  /** Nothing repeats exactly when the elements are distinct and none was
      seen before; what repeats is an element seen before or met twice. */
  lemma {:induction false} FirstRepeatMeaning(xs: seq<int>, seen: set<int>)
    ensures FirstRepeat(xs, seen).None? <==> Distinct(xs) && forall i :: 0 <= i < |xs| ==> xs[i] !in seen
    ensures FirstRepeat(xs, seen).Some? ==>
      var p := FirstRepeat(xs, seen).value;
      p in xs && (p in seen || exists i, j :: 0 <= i < j < |xs| && xs[i] == p && xs[j] == p)
    decreases |xs|
  {
    if |xs| > 0 && xs[0] !in seen {
      var rest := xs[1..];
      FirstRepeatMeaning(rest, seen + {xs[0]});
      if Distinct(xs) && forall i :: 0 <= i < |xs| ==> xs[i] !in seen {
        assert Distinct(rest) && forall i :: 0 <= i < |rest| ==> rest[i] !in seen + {xs[0]};
      }
      if Distinct(rest) && forall i :: 0 <= i < |rest| ==> rest[i] !in seen + {xs[0]} {
        forall i, j | 0 <= i < j < |xs|
          ensures xs[i] != xs[j]
        {
          if i > 0 {
            assert xs[i] == rest[i - 1] && xs[j] == rest[j - 1];
          } else {
            assert xs[j] == rest[j - 1];
          }
        }
      }
      var r := FirstRepeat(rest, seen + {xs[0]});
      if r.Some? && r.value !in seen {
        var p := r.value;
        if p == xs[0] {
          var j :| 0 <= j < |rest| && rest[j] == p;
          assert xs[0] == p && xs[j + 1] == p;
        } else {
          var i, j :| 0 <= i < j < |rest| && rest[i] == p && rest[j] == p;
          assert xs[i + 1] == p && xs[j + 1] == p;
        }
      }
    }
  }

  /** validateNoOverlaps' verdict: the first snake or ladder whose start
      square another one, earlier in the snakes-then-ladders order, already
      took. */
  function Overlaps(c: Config): Outcome<Refusal>
  {
    match FirstRepeat(Starts(c.snakes + c.ladders), {})
    case Some(p) => Fail(Overlap(p))
    case None => Pass
  }

  /** validateConfig's verdict: players first, then the board size, then
      the overlaps. */
  function Validation(c: Config): Outcome<Refusal>
  {
    if |c.playerNames| == 0 then Fail(NoPlayers)
    else if c.boardSize < 10 then Fail(BoardTooSmall)
    else Overlaps(c)
  }

  /** A configuration passes exactly when it names a player, has at least
      ten squares, and no two of its snakes and ladders share a start; a
      reported overlap is a start two of them share. */
  lemma ValidationMeaning(c: Config)
    ensures Validation(c).Pass? <==>
      |c.playerNames| > 0 && c.boardSize >= 10 && Distinct(Starts(c.snakes + c.ladders))
    ensures Validation(c).Fail? && Validation(c).error.Overlap? ==>
      var all := Starts(c.snakes + c.ladders);
      exists i, j :: 0 <= i < j < |all| && all[i] == Validation(c).error.position && all[j] == Validation(c).error.position
  {
    FirstRepeatMeaning(Starts(c.snakes + c.ladders), {});
  }

  /** validateNoOverlaps: the snakes' and then the ladders' start squares
      go into one set, and the first one already there is refused. */
  method ValidateNoOverlaps(c: Config) returns (r: Outcome<Refusal>)
    ensures r == Overlaps(c)
  {
    ghost var all := Starts(c.snakes + c.ladders);
    var startPositions: set<int> := {};
    for i := 0 to |c.snakes|
      invariant FirstRepeat(all, {}) == FirstRepeat(all[i..], startPositions)
    {
      assert all[i] == c.snakes[i].0 && all[i..][1..] == all[i + 1..];
      if c.snakes[i].0 in startPositions {
        return Fail(Overlap(c.snakes[i].0));
      }
      startPositions := startPositions + {c.snakes[i].0};
    }
    for i := 0 to |c.ladders|
      invariant FirstRepeat(all, {}) == FirstRepeat(all[|c.snakes| + i..], startPositions)
    {
      assert all[|c.snakes| + i] == c.ladders[i].0 && all[|c.snakes| + i..][1..] == all[|c.snakes| + i + 1..];
      if c.ladders[i].0 in startPositions {
        return Fail(Overlap(c.ladders[i].0));
      }
      startPositions := startPositions + {c.ladders[i].0};
    }
    return Pass;
  }

  method ValidateConfig(c: Config) returns (r: Outcome<Refusal>)
    ensures r == Validation(c)
  {
    if |c.playerNames| == 0 {
      return Fail(NoPlayers);
    }
    if c.boardSize < 10 {
      return Fail(BoardTooSmall);
    }
    r := ValidateNoOverlaps(c);
  }

  // ---------------------------------------------------------------------
  // Laying jumps on a board

  /** addJump for each pair in order, starting from jumps; None when one of
      them throws. */
  function Laid(size: int, jumps: map<int, Jump>, pairs: seq<(int, int)>): Option<map<int, Jump>>
    decreases |pairs|
  {
    if |pairs| == 0 then Some(jumps)
    else if !JumpFits(size, pairs[0].0, pairs[0].1) then None
    else Laid(size, jumps[pairs[0].0 := Jump(pairs[0].0, pairs[0].1)], pairs[1..])
  }

  /** Laying a + b is laying a and then b. */
  lemma {:induction false} LaidAppend(size: int, jumps: map<int, Jump>, a: seq<(int, int)>, b: seq<(int, int)>)
    ensures Laid(size, jumps, a + b) ==
      match Laid(size, jumps, a)
      case None => None
      case Some(m) => Laid(size, m, b)
    decreases |a|
  {
    if |a| == 0 {
      assert a + b == b;
    } else {
      assert (a + b)[0] == a[0] && (a + b)[1..] == a[1..] + b;
      if JumpFits(size, a[0].0, a[0].1) {
        LaidAppend(size, jumps[a[0].0 := Jump(a[0].0, a[0].1)], a[1..], b);
      }
    }
  }

  /** Laying fails exactly when some pair is out of bounds, and keeps a
      board's jumps within bounds. */
  lemma {:induction false} LaidBounds(size: int, jumps: map<int, Jump>, pairs: seq<(int, int)>)
    ensures Laid(size, jumps, pairs).None? <==> exists i :: 0 <= i < |pairs| && !JumpFits(size, pairs[i].0, pairs[i].1)
    ensures JumpsFit(size, jumps) && Laid(size, jumps, pairs).Some? ==> JumpsFit(size, Laid(size, jumps, pairs).value)
    decreases |pairs|
  {
    if |pairs| > 0 && JumpFits(size, pairs[0].0, pairs[0].1) {
      var rest := pairs[1..];
      LaidBounds(size, jumps[pairs[0].0 := Jump(pairs[0].0, pairs[0].1)], rest);
      if exists i :: 0 <= i < |pairs| && !JumpFits(size, pairs[i].0, pairs[i].1) {
        var i :| 0 <= i < |pairs| && !JumpFits(size, pairs[i].0, pairs[i].1);
        assert rest[i - 1] == pairs[i];
      }
    }
  }

  /** With distinct start squares every pair ends up on the board as laid,
      and squares that start none of them keep what they had. */
  lemma {:induction false} LaidDistinct(size: int, jumps: map<int, Jump>, pairs: seq<(int, int)>)
    requires Distinct(Starts(pairs)) && Laid(size, jumps, pairs).Some?
    ensures var m := Laid(size, jumps, pairs).value;
      (forall i :: 0 <= i < |pairs| ==> pairs[i].0 in m && m[pairs[i].0] == Jump(pairs[i].0, pairs[i].1))
      && (forall s :: s !in Starts(pairs) ==> (s in m <==> s in jumps) && (s in jumps ==> m[s] == jumps[s]))
    decreases |pairs|
  {
    if |pairs| > 0 {
      var rest := pairs[1..];
      var first := Jump(pairs[0].0, pairs[0].1);
      assert Starts(rest) == Starts(pairs)[1..];
      LaidDistinct(size, jumps[pairs[0].0 := first], rest);
      assert pairs[0].0 !in Starts(rest);
      forall i | 1 <= i < |pairs|
        ensures rest[i - 1] == pairs[i]
      {
      }
    }
  }

  /** The addJump loop over one list of pairs; stops at the first throw. */
  method AddAll(board: Board, pairs: seq<(int, int)>) returns (r: Outcome<Refusal>)
    requires board.Valid()
    modifies board
    ensures board.Valid()
    ensures r.Pass? <==> Laid(board.size, old(board.jumps), pairs).Some?
    ensures r.Pass? ==> Laid(board.size, old(board.jumps), pairs) == Some(board.jumps)
    ensures r.Fail? ==> r.error == JumpOutOfBounds
  {
    for i := 0 to |pairs|
      invariant board.Valid()
      invariant Laid(board.size, old(board.jumps), pairs) == Laid(board.size, board.jumps, pairs[i..])
    {
      assert pairs[i..][0] == pairs[i] && pairs[i..][1..] == pairs[i + 1..];
      var added := board.AddJump(pairs[i].0, pairs[i].1);
      if added.Fail? {
        return added;
      }
    }
    return Pass;
  }

  // ---------------------------------------------------------------------
  // The factory

  /** buildGame: a player on square 0 for each name, in order. */
  method BuildGame(board: Board, playerNames: seq<string>, diceStrategy: DiceStrategy) returns (game: Game)
    requires board.Valid()
    ensures fresh(game) && game.Valid()
    ensures game.board == board && game.diceStrategy == diceStrategy
    ensures game.State() == Lineup(playerNames)
  {
    var players: seq<Player> := [];
    for i := 0 to |playerNames|
      invariant |players| == i
      invariant forall k :: 0 <= k < i ==> players[k] == Player(playerNames[k], 0)
    {
      players := players + [Player(playerNames[i], 0)];
    }
    game := new Game(board, players, diceStrategy);
  }

  /** What createCustomGame gives back: a game, or the reason it throws. */
  datatype Made = Made(game: Game) | Refused(problem: Refusal)

  /** createCustomGame: validate, then lay the snakes and then the ladders
      on a new board of the configured size. */
  method CreateCustomGame(config: Config) returns (made: Made)
    ensures made.Refused? <==>
      Validation(config).Fail? || Laid(config.boardSize, map[], config.snakes + config.ladders).None?
    ensures Validation(config).Fail? ==> made == Refused(Validation(config).error)
    ensures Validation(config).Pass? && made.Refused? ==> made.problem == JumpOutOfBounds
    ensures made.Made? ==>
      fresh(made.game) && fresh(made.game.board) && made.game.Valid()
      && made.game.board.size == config.boardSize
      && Laid(config.boardSize, map[], config.snakes + config.ladders) == Some(made.game.board.jumps)
      && made.game.State() == Lineup(config.playerNames)
      && made.game.diceStrategy == config.diceStrategy
  {
    var valid := ValidateConfig(config);
    if valid.Fail? {
      return Refused(valid.error);
    }
    var board := new Board(config.boardSize);
    LaidAppend(config.boardSize, map[], config.snakes, config.ladders);
    var r := AddAll(board, config.snakes);
    if r.Fail? {
      return Refused(r.error);
    }
    r := AddAll(board, config.ladders);
    if r.Fail? {
      return Refused(r.error);
    }
    var game := BuildGame(board, config.playerNames, config.diceStrategy);
    return Made(game);
  }

  /** On the board of a custom game built from a valid builder, each
      snake's head holds that snake, going down, each ladder's bottom holds
      that ladder, going up, and no other square has a jump. */
  lemma CustomBoard(config: Config)
    requires Oriented(config) && Validation(config).Pass?
    requires Laid(config.boardSize, map[], config.snakes + config.ladders).Some?
    ensures var m := Laid(config.boardSize, map[], config.snakes + config.ladders).value;
      (forall i :: 0 <= i < |config.snakes| ==>
        var (head, tail) := config.snakes[i];
        head in m && m[head] == Jump(head, tail) && !IsLadder(m[head]))
      && (forall i :: 0 <= i < |config.ladders| ==>
        var (bottom, top) := config.ladders[i];
        bottom in m && m[bottom] == Jump(bottom, top) && IsLadder(m[bottom]))
      && (forall s :: s in m ==> s in Starts(config.snakes + config.ladders))
  {
    var all := config.snakes + config.ladders;
    ValidationMeaning(config);
    LaidDistinct(config.boardSize, map[], all);
    forall i | 0 <= i < |config.snakes|
      ensures all[i] == config.snakes[i]
    {
    }
    forall i | 0 <= i < |config.ladders|
      ensures all[|config.snakes| + i] == config.ladders[i]
    {
    }
  }

  /** The test board: 20 squares, a ladder from 5 to 15 and a snake from 18 to 3. */
  function TestJumps(): map<int, Jump>
  {
    map[5 := Jump(5, 15), 18 := Jump(18, 3)]
  }

  method CreateTestGame(playerNames: seq<string>, diceStrategy: DiceStrategy) returns (game: Game)
    ensures fresh(game) && fresh(game.board) && game.Valid()
    ensures game.board.size == 20 && game.board.jumps == TestJumps()
    ensures game.State() == Lineup(playerNames) && game.diceStrategy == diceStrategy
  {
    var board := new Board(20);
    var r := board.AddJump(5, 15);
    r := board.AddJump(18, 3);
    game := BuildGame(board, playerNames, diceStrategy);
  }

  // ---------------------------------------------------------------------
  // The preset boards, all of 100 squares

  function ClassicJumps(): map<int, Jump>
  {
    map[99 := Jump(99, 10), 95 := Jump(95, 72), 62 := Jump(62, 18), 50 := Jump(50, 5), 35 := Jump(35, 6),
        2 := Jump(2, 25), 8 := Jump(8, 34), 20 := Jump(20, 77), 40 := Jump(40, 89), 71 := Jump(71, 92)]
  }

  function EasyJumps(): map<int, Jump>
  {
    map[50 := Jump(50, 25), 80 := Jump(80, 60),
        3 := Jump(3, 38), 10 := Jump(10, 45), 28 := Jump(28, 76), 42 := Jump(42, 85), 55 := Jump(55, 95)]
  }

  function HardJumps(): map<int, Jump>
  {
    map[99 := Jump(99, 7), 95 := Jump(95, 24), 87 := Jump(87, 36), 62 := Jump(62, 19), 54 := Jump(54, 12),
        46 := Jump(46, 5), 32 := Jump(32, 3),
        4 := Jump(4, 28), 21 := Jump(21, 42)]
  }

  method CreateClassicGame(playerNames: seq<string>) returns (game: Game)
    ensures fresh(game) && fresh(game.board) && game.Valid()
    ensures game.board.size == 100 && game.board.jumps == ClassicJumps()
    ensures game.State() == Lineup(playerNames) && game.diceStrategy == NormalDice
  {
    var board := new Board(100);
    var r := board.AddJump(99, 10);
    r := board.AddJump(95, 72);
    r := board.AddJump(62, 18);
    r := board.AddJump(50, 5);
    r := board.AddJump(35, 6);
    r := board.AddJump(2, 25);
    r := board.AddJump(8, 34);
    r := board.AddJump(20, 77);
    r := board.AddJump(40, 89);
    r := board.AddJump(71, 92);
    game := BuildGame(board, playerNames, NormalDice);
  }

  method CreateEasyGame(playerNames: seq<string>) returns (game: Game)
    ensures fresh(game) && fresh(game.board) && game.Valid()
    ensures game.board.size == 100 && game.board.jumps == EasyJumps()
    ensures game.State() == Lineup(playerNames) && game.diceStrategy == NormalDice
  {
    var board := new Board(100);
    var r := board.AddJump(50, 25);
    r := board.AddJump(80, 60);
    r := board.AddJump(3, 38);
    r := board.AddJump(10, 45);
    r := board.AddJump(28, 76);
    r := board.AddJump(42, 85);
    r := board.AddJump(55, 95);
    game := BuildGame(board, playerNames, NormalDice);
  }

  method CreateHardGame(playerNames: seq<string>) returns (game: Game)
    ensures fresh(game) && fresh(game.board) && game.Valid()
    ensures game.board.size == 100 && game.board.jumps == HardJumps()
    ensures game.State() == Lineup(playerNames) && game.diceStrategy == NormalDice
  {
    var board := new Board(100);
    var r := board.AddJump(99, 7);
    r := board.AddJump(95, 24);
    r := board.AddJump(87, 36);
    r := board.AddJump(62, 19);
    r := board.AddJump(54, 12);
    r := board.AddJump(46, 5);
    r := board.AddJump(32, 3);
    r := board.AddJump(4, 28);
    r := board.AddJump(21, 42);
    game := BuildGame(board, playerNames, NormalDice);
  }

  /** Every preset jump passes addJump's bounds on 100 squares, so no preset
      throws; the ladders of each preset are exactly its upward jumps. */
  lemma PresetsFit()
    ensures JumpsFit(100, ClassicJumps()) && JumpsFit(100, EasyJumps()) && JumpsFit(100, HardJumps())
    ensures forall s :: s in ClassicJumps() ==> (IsLadder(ClassicJumps()[s]) <==> s in {2, 8, 20, 40, 71})
    ensures forall s :: s in EasyJumps() ==> (IsLadder(EasyJumps()[s]) <==> s in {3, 10, 28, 42, 55})
    ensures forall s :: s in HardJumps() ==> (IsLadder(HardJumps()[s]) <==> s in {4, 21})
  {
    ClassicFits();
    EasyFits();
    HardFits();
  }

  lemma ClassicFits()
    ensures JumpsFit(100, ClassicJumps())
    ensures forall s :: s in ClassicJumps() ==> (IsLadder(ClassicJumps()[s]) <==> s in {2, 8, 20, 40, 71})
  {
  }

  lemma EasyFits()
    ensures JumpsFit(100, EasyJumps())
    ensures forall s :: s in EasyJumps() ==> (IsLadder(EasyJumps()[s]) <==> s in {3, 10, 28, 42, 55})
  {
  }

  lemma HardFits()
    ensures JumpsFit(100, HardJumps())
    ensures forall s :: s in HardJumps() ==> (IsLadder(HardJumps()[s]) <==> s in {4, 21})
  {
  }

  /** Alice and Bob on the test board: Bob may not move first; Alice rolls
      5 and climbs to 15; Bob rolls 4; Alice rolls 6 and needs 5; Bob rolls
      1 and climbs to 15; Alice rolls 3, reaches 18 and slides to 3; Bob
      rolls 5 and wins; after that Alice's request is turned away. */
  lemma TestGameScenario()
    ensures var t0 := Lineup(["Alice", "Bob"]);
      var j := TestJumps();
      Turn(20, j, t0, "Bob", 3) == (t0, NotYourTurn("Bob", "Alice"))
      && var (t1, r1) := Turn(20, j, t0, "Alice", 5);
      r1 == Moved(5, Some(Jump(5, 15)), 15, false)
      && var (t2, r2) := Turn(20, j, t1, "Bob", 4);
      r2 == Moved(4, None, 4, false)
      && var (t3, r3) := Turn(20, j, t2, "Alice", 6);
      r3 == CannotMove(6, 5)
      && var (t4, r4) := Turn(20, j, t3, "Bob", 1);
      r4 == Moved(1, Some(Jump(5, 15)), 15, false)
      && var (t5, r5) := Turn(20, j, t4, "Alice", 3);
      r5 == Moved(3, Some(Jump(18, 3)), 3, false)
      && var (t6, r6) := Turn(20, j, t5, "Bob", 5);
      r6 == Moved(5, None, 20, true) && t6.ended && t6.players[t6.current].name == "Bob"
      && Turn(20, j, t6, "Alice", 2) == (t6, AlreadyEnded)
  {
    var t0 := Lineup(["Alice", "Bob"]);
    assert t0.players == [Player("Alice", 0), Player("Bob", 0)];
  }
}
