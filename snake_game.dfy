/** The layered snake game: a Snake (body deque and membership set), a Board
    (size and food) and the SnakeGame engine driving them. */
module SnakeLayered {
  import opened SnakeRules

  class Snake {
    var body: seq<Cell>
    var bodySet: set<Cell>

    ghost predicate Valid()
      reads this
    {
      |body| >= 1 && NoDup(body) && bodySet == Elems(body)
    }

    /** A new snake is the single cell it starts on, which is also its head. */
    constructor (initPos: Cell)
      ensures Valid() && body == [initPos] && bodySet == {initPos} && GetHead() == initPos
    {
      body := [initPos];
      bodySet := {initPos};
    }

    function GetHead(): Cell
      reads this
      requires |body| >= 1
    {
      body[0]
    }

    function GetNextHead(d: Direction): Cell
      reads this
      requires |body| >= 1
    {
      NextHead(GetHead(), d)
    }

    /** move, with the tail removed from the set before the head is added. */
    method Move(newHead: Cell)
      requires |body| >= 1
      modifies this
      ensures body == Slide(old(body), newHead)
      ensures bodySet == SlideSet(old(bodySet), newHead, old(body[|body| - 1]))
    {
      var tail := body[|body| - 1];
      body := [newHead] + body[..|body| - 1];
      bodySet := bodySet - {tail};
      bodySet := bodySet + {newHead};
    }

    method Grow(newHead: Cell)
      modifies this
      ensures body == SnakeRules.Grow(old(body), newHead) && bodySet == old(bodySet) + {newHead}
    {
      body := [newHead] + body;
      bodySet := bodySet + {newHead};
    }

    /** checkCrash(cell, isGrowing): with a valid snake, a crash exactly when the cell stays occupied after the move. */
    function CheckCrash(next: Cell, isGrowing: bool): (crash: bool)
      reads this
      requires Valid()
      ensures crash <==> next in (if isGrowing then body else body[..|body| - 1])
    {
      HitsBodyMeaning(body, next, isGrowing);
      HitsBody(body, bodySet, next, isGrowing)
    }

    /** checkCrash(cell): membership in the body set, which for a valid snake is the body. */
    function CheckCrashStrict(cell: Cell): (crash: bool)
      reads this
      ensures Valid() ==> (crash <==> cell in body)
    {
      cell in bodySet
    }
  }

  class Board {
    const height: int
    const width: int
    var food: Cell

    /** The board places a first food from one random draw (row, col). */
    constructor (height: int, width: int, row: int, col: int)
      requires 0 <= row < height && 0 <= col < width
      ensures this.height == height && this.width == width
      ensures food == Cell(row, col) && InBounds(height, width, food)
    {
      this.height := height;
      this.width := width;
      food := Cell(row, col);
    }

    /** generateFood(): one draw of nextInt(height), nextInt(width). */
    method GenerateFood(row: int, col: int)
      requires 0 <= row < height && 0 <= col < width
      modifies this
      ensures food == Cell(row, col) && InBounds(height, width, food)
    {
      food := Cell(row, col);
    }

    /** generateFood(snake): draw until the cell is off the snake. */
    method GenerateFoodAvoiding(snake: Snake, draws: seq<Cell>)
      requires snake.Valid()
      requires forall c :: c in draws ==> InBounds(height, width, c)
      requires HasFreeDraw(draws, snake.bodySet)
      modifies this
      ensures food == FirstFree(draws, snake.bodySet)
      ensures InBounds(height, width, food) && food !in snake.body
    {
      var i := 0;
      while snake.CheckCrashStrict(draws[i])
        invariant 0 <= i < |draws| && HasFreeDraw(draws[i..], snake.bodySet)
        invariant FirstFree(draws[i..], snake.bodySet) == FirstFree(draws, snake.bodySet)
        decreases |draws| - i
      {
        assert draws[i..][1..] == draws[i + 1..];
        i := i + 1;
      }
      food := draws[i];
    }

    function IsWall(cell: Cell): (wall: bool)
      ensures wall <==> !InBounds(height, width, cell)
    {
      SnakeRules.IsWall(height, width, cell)
    }
  }

  class SnakeGame {
    const snake: Snake
    const board: Board
    var isGameOver: bool
    var score: int

    ghost predicate Valid()
      reads this, snake, board
    {
      snake.Valid() &&
      (forall c :: c in snake.body ==> InBounds(board.height, board.width, c)) &&
      InBounds(board.height, board.width, board.food) && board.food !in snake.body &&
      score == |snake.body| - 1
    }

    /** A board of the given size, a one-cell snake at its centre, score 0, food off the snake. */
    constructor (height: int, width: int, first: Cell, draws: seq<Cell>)
      requires height >= 1 && width >= 1
      requires InBounds(height, width, first)
      requires forall c :: c in draws ==> InBounds(height, width, c)
      requires HasFreeDraw(draws, {Cell(height / 2, width / 2)})
      ensures Valid() && fresh(snake) && fresh(board)
      ensures snake.body == [Cell(height / 2, width / 2)] && score == 0 && !isGameOver
      ensures board.height == height && board.width == width
      ensures board.food == FirstFree(draws, {Cell(height / 2, width / 2)})
    {
      board := new Board(height, width, first.row, first.col);
      snake := new Snake(Cell(height / 2, width / 2));
      isGameOver := false;
      score := 0;
      new;
      board.GenerateFoodAvoiding(snake, draws);
    }

    /** move: over stays over; a wall or crash ends the game with the snake unchanged;
        growth is decided before the crash check; eating grows and scores, otherwise the snake slides. */
    method Move(direction: Direction, draws: seq<Cell>)
      requires Valid()
      requires forall c :: c in draws ==> InBounds(board.height, board.width, c)
      requires snake.GetNextHead(direction) == board.food ==> HasFreeDraw(draws, snake.bodySet + {board.food})
      modifies this, snake, board
      ensures Valid()
      ensures old(isGameOver) ==>
        isGameOver && snake.body == old(snake.body) && score == old(score) && board.food == old(board.food)
      ensures !old(isGameOver) ==>
        var next := NextHead(old(snake.body[0]), direction);
        var grows := next == old(board.food);
        if board.IsWall(next) || old(snake.CheckCrash(next, grows)) then
          isGameOver && snake.body == old(snake.body) && score == old(score) && board.food == old(board.food)
        else if grows then
          !isGameOver && snake.body == SnakeRules.Grow(old(snake.body), next) && score == old(score) + 1
          && board.food == FirstFree(draws, old(snake.bodySet) + {next})
        else
          !isGameOver && snake.body == Slide(old(snake.body), next) && score == old(score) && board.food == old(board.food)
    {
      if isGameOver {
        return;
      }
      var nextHead := snake.GetNextHead(direction);
      if board.IsWall(nextHead) {
        isGameOver := true;
        return;
      }
      var willGrow := nextHead == board.food;
      if snake.CheckCrash(nextHead, willGrow) {
        isGameOver := true;
        return;
      }
      if willGrow {
        GrowTracksBody(snake.body, nextHead);
        snake.Grow(nextHead);
        score := score + 1;
        board.GenerateFoodAvoiding(snake, draws);
      } else {
        SlideTracksBody(snake.body, nextHead);
        snake.Move(nextHead);
      }
    }
  }

  /** On a 5x5 board, three moves UP from (2,2) end the game on the third. */
  method WallScenario() returns (overAfterTwo: bool, overAfterThree: bool)
    ensures !overAfterTwo && overAfterThree
  {
    var draws := [Cell(4, 4)];
    assert draws[0] !in {Cell(2, 2)};
    var game := new SnakeGame(5, 5, Cell(0, 0), draws);
    assert game.snake.body == [Cell(2, 2)] && game.board.food == Cell(4, 4);
    game.Move(Up, draws);
    game.Move(Up, draws);
    overAfterTwo := game.isGameOver;
    game.Move(Up, draws);
    overAfterThree := game.isGameOver;
  }
}
