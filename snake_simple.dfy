/** The single-class snake game: a body (head first) with a membership set,
    food placed by retrying random cells until one is free. */
module SnakeSimple {
  import opened SnakeRules

  class SnakeGame {
    const height: int
    const width: int
    var food: Cell
    var body: seq<Cell>
    var bodySet: set<Cell>
    var gameOver: bool
    var score: int

    /** The set mirrors the body, the body has no repeats and stays on the board,
        food lies on a free board cell, and each point of score is one cell of growth. */
    ghost predicate Valid()
      reads this
    {
      |body| >= 1 && NoDup(body) && bodySet == Elems(body) &&
      (forall c :: c in body ==> InBounds(height, width, c)) &&
      InBounds(height, width, food) && food !in bodySet && score == |body| - 1
    }

    /** A one-cell snake at the centre, score 0, food from the random draws. */
    constructor (height: int, width: int, draws: seq<Cell>)
      requires height >= 1 && width >= 1
      requires forall c :: c in draws ==> InBounds(height, width, c)
      requires HasFreeDraw(draws, {Cell(height / 2, width / 2)})
      ensures Valid() && this.height == height && this.width == width
      ensures body == [Cell(height / 2, width / 2)] && score == 0 && !gameOver
      ensures food == FirstFree(draws, {Cell(height / 2, width / 2)})
    {
      this.height := height;
      this.width := width;
      var start := Cell(height / 2, width / 2);
      body := [start];
      bodySet := {start};
      gameOver := false;
      score := 0;
      food := start;
      new;
      GenerateFood(draws);
    }

    /** generateFood: keep drawing until a cell outside the body comes up. */
    method GenerateFood(draws: seq<Cell>)
      requires HasFreeDraw(draws, bodySet)
      modifies this
      ensures body == old(body) && bodySet == old(bodySet) && score == old(score) && gameOver == old(gameOver)
      ensures food == FirstFree(draws, bodySet)
    {
      var i := 0;
      while draws[i] in bodySet
        invariant 0 <= i < |draws| && HasFreeDraw(draws[i..], bodySet)
        invariant FirstFree(draws[i..], bodySet) == FirstFree(draws, bodySet)
        decreases |draws| - i
      {
        assert draws[i..][1..] == draws[i + 1..];
        i := i + 1;
      }
      food := draws[i];
    }

    /** moveSnake with the set updated in the deque's order: tail out, then head in. */
    method MoveSnake(newHead: Cell)
      requires |body| >= 1
      modifies this
      ensures body == Slide(old(body), newHead)
      ensures bodySet == SlideSet(old(bodySet), newHead, old(body[|body| - 1]))
      ensures food == old(food) && score == old(score) && gameOver == old(gameOver)
    {
      var tail := body[|body| - 1];
      body := [newHead] + body[..|body| - 1];
      bodySet := bodySet - {tail};
      bodySet := bodySet + {newHead};
    }

    method GrowSnake(newHead: Cell)
      modifies this
      ensures body == Grow(old(body), newHead) && bodySet == old(bodySet) + {newHead}
      ensures food == old(food) && score == old(score) && gameOver == old(gameOver)
    {
      body := [newHead] + body;
      bodySet := bodySet + {newHead};
    }

    /** move: over stays over; a wall or body hit ends the game and changes nothing else;
        eating grows the snake and scores; otherwise the snake slides. */
    method Move(dir: Direction, draws: seq<Cell>)
      requires Valid()
      requires forall c :: c in draws ==> InBounds(height, width, c)
      requires MoveCell(body[0], dir) == food ==> HasFreeDraw(draws, bodySet + {food})
      modifies this
      ensures Valid()
      ensures old(gameOver) ==> gameOver && body == old(body) && score == old(score) && food == old(food)
      ensures !old(gameOver) && IsWall(height, width, MoveCell(old(body[0]), dir)) ==>
        gameOver && body == old(body) && score == old(score) && food == old(food)
      ensures !old(gameOver) && !IsWall(height, width, MoveCell(old(body[0]), dir)) ==>
        var next := MoveCell(old(body[0]), dir);
        var eating := next == old(food);
        if HitsBody(old(body), old(bodySet), next, eating) then
          gameOver && body == old(body) && score == old(score) && food == old(food)
        else if eating then
          !gameOver && body == Grow(old(body), next) && score == old(score) + 1 && food == FirstFree(draws, bodySet)
        else
          !gameOver && body == Slide(old(body), next) && score == old(score) && food == old(food)
    {
      if gameOver {
        return;
      }
      var next := MoveCell(body[0], dir);
      if IsWall(height, width, next) {
        gameOver := true;
        return;
      }
      var eating := next == food;
      if HitsBody(body, bodySet, next, eating) {
        gameOver := true;
        return;
      }
      if eating {
        GrowTracksBody(body, next);
        GrowSnake(next);
        score := score + 1;
        GenerateFood(draws);
      } else {
        SlideTracksBody(body, next);
        MoveSnake(next);
      }
    }
  }

  /** A 5x5 game moved UP three times from the centre ends on the third move. */
  method WallScenario() returns (overAfterTwo: bool, overAfterThree: bool)
    ensures !overAfterTwo && overAfterThree
  {
    var draws := [Cell(4, 4)];
    assert draws[0] !in {Cell(2, 2)};
    var game := new SnakeGame(5, 5, draws);
    assert game.body == [Cell(2, 2)] && game.food == Cell(4, 4);
    game.Move(Up, draws);
    game.Move(Up, draws);
    overAfterTwo := game.gameOver;
    game.Move(Up, draws);
    overAfterThree := game.gameOver;
  }
}
