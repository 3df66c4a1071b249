/** Cells, directions and the collision rules shared by both snake games. */
module SnakeRules {

  datatype Cell = Cell(row: int, col: int)

  datatype Direction = Up | Down | Left | Right

  function DeltaRow(d: Direction): int
  {
    match d
    case Up => -1
    case Down => 1
    case Left => 0
    case Right => 0
  }

  function DeltaCol(d: Direction): int
  {
    match d
    case Up => 0
    case Down => 0
    case Left => -1
    case Right => 1
  }

  /** Cell.move: shift by the direction's (dr, dc). */
  function MoveCell(c: Cell, d: Direction): Cell
  {
    Cell(c.row + DeltaRow(d), c.col + DeltaCol(d))
  }

  /** Snake.getNextHead: UP decrements the row, DOWN increments it, LEFT and RIGHT change the column. */
  function NextHead(head: Cell, d: Direction): (r: Cell)
    ensures d == Up ==> r == Cell(head.row - 1, head.col)
    ensures d == Down ==> r == Cell(head.row + 1, head.col)
    ensures d == Left ==> r == Cell(head.row, head.col - 1)
    ensures d == Right ==> r == Cell(head.row, head.col + 1)
  {
    var row := if d == Up then head.row - 1 else if d == Down then head.row + 1 else head.row;
    var col := if d == Left then head.col - 1 else if d == Right then head.col + 1 else head.col;
    Cell(row, col)
  }

  function Opposite(d: Direction): (r: Direction)
  {
    match d
    case Up => Down
    case Down => Up
    case Left => Right
    case Right => Left
  }

  /** The two games compute the same next cell, and a move followed by its opposite returns to the start. */
  lemma MovesAgreeAndCancel(c: Cell, d: Direction)
    ensures MoveCell(c, d) == NextHead(c, d)
    ensures MoveCell(MoveCell(c, d), Opposite(d)) == c
    ensures MoveCell(c, d) != c
  {
  }

  predicate InBounds(height: int, width: int, c: Cell)
  {
    0 <= c.row < height && 0 <= c.col < width
  }

  /** isWall as written: row or column outside the board. */
  function IsWall(height: int, width: int, c: Cell): (r: bool)
    ensures r <==> !InBounds(height, width, c)
  {
    c.row < 0 || c.row >= height || c.col < 0 || c.col >= width
  }

  function Elems(s: seq<Cell>): set<Cell>
  {
    set c | c in s
  }

  predicate NoDup(s: seq<Cell>)
  {
    forall i, j :: 0 <= i < j < |s| ==> s[i] != s[j]
  }

  /** hitsBody / checkCrash(cell, growing) as written over the body and its membership set. */
  function HitsBody(body: seq<Cell>, bodySet: set<Cell>, next: Cell, eating: bool): bool
    requires |body| >= 1
  {
    if next !in bodySet then false
    else if eating then true
    else next != body[|body| - 1]
  }

  /** With an accurate set, a move crashes exactly when the new head lands on a cell that
      is still occupied after the move: the whole body when eating, all but the tail otherwise. */
  lemma HitsBodyMeaning(body: seq<Cell>, next: Cell, eating: bool)
    requires |body| >= 1 && NoDup(body)
    ensures HitsBody(body, Elems(body), next, eating) <==> next in (if eating then body else body[..|body| - 1])
  {
    var n := |body|;
    assert body == body[..n - 1] + [body[n - 1]];
    if !eating && next in body[..n - 1] {
      var i :| 0 <= i < n - 1 && body[i] == next;
      assert body[i] != body[n - 1];
    }
  }

  /** The body after a move that does not eat: new head first, tail dropped. */
  function Slide(body: seq<Cell>, next: Cell): (r: seq<Cell>)
    requires |body| >= 1
    ensures |r| == |body| && r[0] == next
  {
    [next] + body[..|body| - 1]
  }

  /** The body after eating: new head first, tail kept. */
  function Grow(body: seq<Cell>, next: Cell): (r: seq<Cell>)
    ensures |r| == |body| + 1 && r[0] == next && r[1..] == body
  {
    [next] + body
  }

  /** moveSnake's set update as written: add the head, then remove the tail. */
  function SlideSetAsWritten(bodySet: set<Cell>, next: Cell, tail: Cell): set<Cell>
  {
    (bodySet + {next}) - {tail}
  }

  /** The set update the deque implies: remove the tail, then add the head. */
  function SlideSet(bodySet: set<Cell>, next: Cell, tail: Cell): set<Cell>
  {
    (bodySet - {tail}) + {next}
  }

  /** A move that does not crash keeps the body free of repeats and the set equal to the body. */
  lemma SlideTracksBody(body: seq<Cell>, next: Cell)
    requires |body| >= 1 && NoDup(body) && !HitsBody(body, Elems(body), next, false)
    ensures NoDup(Slide(body, next))
    ensures SlideSet(Elems(body), next, body[|body| - 1]) == Elems(Slide(body, next))
  {
    var n := |body|;
    HitsBodyMeaning(body, next, false);
    assert body == body[..n - 1] + [body[n - 1]];
    var front := body[..n - 1];
    assert Elems(front) == Elems(body) - {body[n - 1]} by {
      forall c | c in front ensures c != body[n - 1] {
        var i :| 0 <= i < n - 1 && front[i] == c;
      }
    }
    var r := Slide(body, next);
    forall i, j | 0 <= i < j < |r| ensures r[i] != r[j] {
      if i == 0 {
        assert r[j] == body[j - 1] && r[j] in body[..n - 1];
      } else {
        assert r[i] == body[i - 1] && r[j] == body[j - 1];
      }
    }
    assert Elems(r) == {next} + Elems(body[..n - 1]);
  }

  lemma GrowTracksBody(body: seq<Cell>, next: Cell)
    requires |body| >= 1 && NoDup(body) && !HitsBody(body, Elems(body), next, true)
    ensures NoDup(Grow(body, next))
    ensures Elems(body) + {next} == Elems(Grow(body, next))
  {
    HitsBodyMeaning(body, next, true);
    var r := Grow(body, next);
    forall i, j | 0 <= i < j < |r| ensures r[i] != r[j] {
      assert r[j] == body[j - 1];
      if i > 0 {
        assert r[i] == body[i - 1];
      }
    }
  }

  predicate HasFreeDraw(draws: seq<Cell>, occupied: set<Cell>)
  {
    exists k :: 0 <= k < |draws| && draws[k] !in occupied
  }

  /** The food the retry loop settles on: the first drawn cell that is not occupied. */
  function FirstFree(draws: seq<Cell>, occupied: set<Cell>): (r: Cell)
    requires HasFreeDraw(draws, occupied)
    ensures r in draws && r !in occupied
  {
    if draws[0] !in occupied then draws[0]
    else
      var k :| 0 <= k < |draws| && draws[k] !in occupied;
      assert draws[1..][k - 1] == draws[k];
      FirstFree(draws[1..], occupied)
  }

  /** In a tail-chasing move (new head on the old tail) the written order loses the head. */
  lemma TailChaseLosesHead(body: seq<Cell>, next: Cell)
    requires |body| >= 1 && next == body[|body| - 1]
    ensures next in Slide(body, next)
    ensures next !in SlideSetAsWritten(Elems(body), next, body[|body| - 1])
  {
  }

  /** The four-cell snake circling a 2x2 square, tail-chasing twice with the written set update:
      the third move turns back onto its own body, and hitsBody does not see it. */
  lemma NeckCollisionMissed()
    ensures var b0 := [Cell(0, 0), Cell(0, 1), Cell(1, 1), Cell(1, 0)];
      var b1 := Slide(b0, Cell(1, 0));
      var s1 := SlideSetAsWritten(Elems(b0), Cell(1, 0), Cell(1, 0));
      var b2 := Slide(b1, Cell(1, 1));
      var s2 := SlideSetAsWritten(s1, Cell(1, 1), Cell(1, 1));
      && b1[|b1| - 1] == Cell(1, 1)
      && !HitsBody(b0, Elems(b0), Cell(1, 0), false)
      && !HitsBody(b1, s1, Cell(1, 1), false)
      && Cell(1, 0) in b2[..|b2| - 1]
      && !HitsBody(b2, s2, Cell(1, 0), false)
  {
    var b0 := [Cell(0, 0), Cell(0, 1), Cell(1, 1), Cell(1, 0)];
    var b1 := Slide(b0, Cell(1, 0));
    assert b1 == [Cell(1, 0), Cell(0, 0), Cell(0, 1), Cell(1, 1)];
    var s1 := SlideSetAsWritten(Elems(b0), Cell(1, 0), Cell(1, 0));
    assert Elems(b0) == {Cell(0, 0), Cell(0, 1), Cell(1, 1), Cell(1, 0)};
    assert s1 == {Cell(0, 0), Cell(0, 1), Cell(1, 1)};
    var b2 := Slide(b1, Cell(1, 1));
    assert b2 == [Cell(1, 1), Cell(1, 0), Cell(0, 0), Cell(0, 1)];
    var s2 := SlideSetAsWritten(s1, Cell(1, 1), Cell(1, 1));
    assert s2 == {Cell(0, 0), Cell(0, 1)};
    assert b1[|b1| - 1] == Cell(1, 1);
    assert HitsBody(b0, Elems(b0), Cell(1, 0), false) == false;
    assert HitsBody(b1, s1, Cell(1, 1), false) == false;
    assert b2[..|b2| - 1] == [Cell(1, 1), Cell(1, 0), Cell(0, 0)];
    assert HitsBody(b2, s2, Cell(1, 0), false) == false;
  }
}
