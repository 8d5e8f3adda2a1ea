/**
 * Snake on a 20 x 10 grid.
 *
 * The body is a sequence of cells, head first. Each tick moves the head one
 * cell in the buffered direction; leaving the grid or running into the body
 * ends the game, eating the food grows the snake, otherwise the tail cell
 * is dropped. The new food position is a free cell chosen by the caller's
 * random source, modelled as an arbitrary choice.
 */
module Snake {
  import opened Wrappers

  const Width := 20
  const Height := 10
  const Cells := Width * Height

  datatype Pos = Pos(x: int, y: int)
  datatype Direction = Up | Down | Left | Right
  datatype Status = Playing | Paused | Over

  const InitialSnake: seq<Pos> := [Pos(10, 5)]
  const InitialFood := Pos(15, 5)
  const InitialDirection := Right
  const FoodPoints := 10

  predicate InBounds(p: Pos) {
    0 <= p.x < Width && 0 <= p.y < Height
  }

  /** Two cells share an edge. */
  predicate Adjacent(p: Pos, q: Pos) {
    (p.x == q.x && (p.y - q.y == 1 || q.y - p.y == 1)) ||
    (p.y == q.y && (p.x - q.x == 1 || q.x - p.x == 1))
  }

  function Opposite(d: Direction): (r: Direction)
    ensures r != d
  {
    match d
    case Up => Down
    case Down => Up
    case Left => Right
    case Right => Left
  }

  /** The cell one step from `p` in direction `d`: Up is y - 1, Down y + 1, Left x - 1, Right x + 1. */
  function Step(p: Pos, d: Direction): (q: Pos)
    ensures Adjacent(p, q)
  {
    match d
    case Up => Pos(p.x, p.y - 1)
    case Down => Pos(p.x, p.y + 1)
    case Left => Pos(p.x - 1, p.y)
    case Right => Pos(p.x + 1, p.y)
  }

  /** A step in the opposite direction undoes a step; four directions give four different cells. */
  lemma StepUndo(p: Pos, d: Direction)
    ensures Opposite(Opposite(d)) == d
    ensures Step(Step(p, d), Opposite(d)) == p
    ensures forall e :: e != d ==> Step(p, e) != Step(p, d)
  {
  }

  /**
   * The direction a key asks for. `key` is the key name already lower-cased:
   * w or arrowup, s or arrowdown, a or arrowleft, d or arrowright.
   */
  function KeyDirection(key: string): (r: Option<Direction>)
    ensures r == Some(Up) <==> key == "w" || key == "arrowup"
    ensures r == Some(Down) <==> key == "s" || key == "arrowdown"
    ensures r == Some(Left) <==> key == "a" || key == "arrowleft"
    ensures r == Some(Right) <==> key == "d" || key == "arrowright"
  {
    if key == "w" || key == "arrowup" then Some(Up)
    else if key == "s" || key == "arrowdown" then Some(Down)
    else if key == "a" || key == "arrowleft" then Some(Left)
    else if key == "d" || key == "arrowright" then Some(Right)
    else None
  }

  /** Every direction has a key, and Space is not a direction key. */
  lemma KeyDirectionOnto(d: Direction)
    ensures exists key :: KeyDirection(key) == Some(d)
    ensures KeyDirection(" ") == None
  {
    match d
    case Up => assert KeyDirection("w") == Some(Up);
    case Down => assert KeyDirection("s") == Some(Down);
    case Left => assert KeyDirection("a") == Some(Left);
    case Right => assert KeyDirection("d") == Some(Right);
  }

  /**
   * The direction after a direction key: the request is refused exactly
   * when it is the opposite of the buffered direction.
   */
  function Steer(current: Direction, requested: Direction): (r: Direction)
    ensures requested == Opposite(current) ==> r == current
    ensures requested != Opposite(current) ==> r == requested
    ensures r != Opposite(current)
  {
    if current != Opposite(requested) then requested else current
  }

  /**
   * The refusal compares with the buffered direction, not with the
   * direction of the last tick: two keys between ticks (Up, then Left
   * while moving Right) turn the snake onto its own neck.
   */
  lemma TwoKeysReverse()
    ensures Steer(Steer(Right, Up), Left) == Opposite(Right)
    ensures var body := [Pos(11, 5), Pos(10, 5)];
            Step(body[0], Steer(Steer(Right, Up), Left)) in body
  {
  }

  /** The body invariant: non-empty, inside the grid, no repeated cell, consecutive cells adjacent. */
  ghost predicate WellFormed(body: seq<Pos>) {
    && |body| >= 1
    && (forall i :: 0 <= i < |body| ==> InBounds(body[i]))
    && (forall i, j :: 0 <= i < j < |body| ==> body[i] != body[j])
    && (forall i :: 0 <= i < |body| - 1 ==> Adjacent(body[i], body[i + 1]))
  }

  /** Row-major number of a cell: 0..199 for the cells of the grid. */
  function CellIndex(p: Pos): int {
    p.y * Width + p.x
  }

  /** The cell numbered `k`. */
  function CellAt(k: int): (p: Pos)
    requires 0 <= k < Cells
    ensures InBounds(p) && CellIndex(p) == k
  {
    Pos(k % Width, k / Width)
  }

  /** The numbers of the cells in `body`. */
  ghost function IndexSet(body: seq<Pos>): (s: set<int>)
    ensures forall p :: p in body ==> CellIndex(p) in s
  {
    if body == [] then {} else {CellIndex(body[0])} + IndexSet(body[1..])
  }

  lemma {:induction false} IndexSetSize(body: seq<Pos>)
    ensures |IndexSet(body)| <= |body|
  {
    if body != [] {
      IndexSetSize(body[1..]);
    }
  }

  /** The numbers 0..n-1. */
  ghost function Range(n: nat): (s: set<int>)
    ensures forall k :: k in s <==> 0 <= k < n
    ensures |s| == n
  {
    if n == 0 then {} else Range(n - 1) + {n - 1}
  }

  lemma SubsetSize(a: set<int>, b: set<int>)
    requires a <= b
    ensures |a| <= |b|
  {
    assert b == a + (b - a);
  }

  /**
   * A body of fewer than 200 cells leaves a free cell of the grid: the
   * pigeonhole argument behind the food loop's termination.
   */
  lemma FreeCellExists(body: seq<Pos>)
    requires |body| < Cells
    ensures exists p :: InBounds(p) && p !in body
  {
    var all := Range(Cells);
    var used := IndexSet(body);
    IndexSetSize(body);
    if all <= used {
      SubsetSize(all, used);
      assert false;
    }
    var k :| k in all && k !in used;
    var p := CellAt(k);
    assert p !in body;
  }

  /**
   * generateFood: a grid cell not on `body`. The source retries random
   * cells until one is free; any free cell may come out.
   */
  method GenerateFood(body: seq<Pos>) returns (food: Pos)
    requires |body| < Cells
    ensures InBounds(food) && food !in body
  {
    FreeCellExists(body);
    food :| InBounds(food) && food !in body;
  }

  /** The snake component's state. */
  class Game {
    var snake: seq<Pos>
    var food: Pos
    var direction: Direction
    var state: Status
    var score: nat
    var highScore: nat

    /** The body is well formed and the food is a free cell of the grid. */
    ghost predicate Valid()
      reads this
    {
      WellFormed(snake) && InBounds(food) && food !in snake
    }

    constructor ()
      ensures Valid()
      ensures snake == InitialSnake && food == InitialFood && direction == InitialDirection
      ensures state == Playing && score == 0 && highScore == 0
    {
      snake := InitialSnake;
      food := InitialFood;
      direction := InitialDirection;
      state := Playing;
      score := 0;
      highScore := 0;
    }

    /**
     * moveSnake, one tick: nothing unless playing. The new head is the old
     * head moved one cell. Outside the grid, or on any current body cell
     * (the tail included), the game is over, the current score is
     * reported and the body stays. On the food the snake grows by the
     * head, scores 10 and gets new food off its body; otherwise the head
     * is added and the tail dropped. The food loop has no fallback, so a
     * tick that would eat the last free cell is excluded.
     */
    method MoveSnake() returns (report: Option<nat>)
      requires Valid()
      requires state == Playing && Step(snake[0], direction) == food ==> |snake| + 1 < Cells
      modifies this
      ensures Valid()
      ensures direction == old(direction) && highScore == old(highScore)
      ensures old(state) != Playing ==> unchanged(this) && report == None
      ensures old(state) == Playing ==>
                var head := Step(old(snake)[0], old(direction));
                if !InBounds(head) || head in old(snake) then
                  && state == Over && report == Some(old(score))
                  && snake == old(snake) && food == old(food) && score == old(score)
                else if head == old(food) then
                  && state == Playing && report == None
                  && snake == [head] + old(snake) && score == old(score) + FoodPoints
                else
                  && state == Playing && report == None
                  && snake == [head] + old(snake)[..|old(snake)| - 1]
                  && food == old(food) && score == old(score)
    {
      report := None;
      if state != Playing {
        return;
      }
      var newSnake := snake;
      var head := Step(newSnake[0], direction);
      if !InBounds(head) {
        state := Over;
        report := Some(score);
        return;
      }
      if head in newSnake {
        state := Over;
        report := Some(score);
        return;
      }
      newSnake := [head] + newSnake;
      if head == food {
        score := score + FoodPoints;
        food := GenerateFood(newSnake);
      } else {
        newSnake := newSnake[..|newSnake| - 1];
      }
      snake := newSnake;
    }

    /**
     * A direction key: refused when it reverses the buffered direction,
     * otherwise it becomes the direction of the next tick.
     */
    method SetDirection(requested: Direction)
      requires Valid()
      modifies this
      ensures Valid()
      ensures direction == Steer(old(direction), requested)
      ensures snake == old(snake) && food == old(food) && state == old(state)
      ensures score == old(score) && highScore == old(highScore)
    {
      direction := Steer(direction, requested);
    }

    /**
     * The key handler, given the lower-cased key: a direction key steers,
     * Space toggles the pause, and every other key changes nothing here.
     */
    method HandleKey(key: string)
      requires Valid()
      modifies this
      ensures Valid()
      ensures KeyDirection(key).Some? ==>
                direction == Steer(old(direction), KeyDirection(key).value)
                && snake == old(snake) && food == old(food) && state == old(state)
                && score == old(score) && highScore == old(highScore)
      ensures key == " " ==>
                state == (if old(state) == Playing then Paused else Playing)
                && snake == old(snake) && food == old(food) && direction == old(direction)
                && score == old(score) && highScore == old(highScore)
      ensures KeyDirection(key).None? && key != " " ==> unchanged(this)
    {
      var requested := KeyDirection(key);
      if requested.Some? {
        SetDirection(requested.value);
      } else if key == " " {
        TogglePause();
      }
    }

    /** Space: playing pauses; any other state, game over included, resumes play. */
    method TogglePause()
      requires Valid()
      modifies this
      ensures Valid()
      ensures state == (if old(state) == Playing then Paused else Playing)
      ensures snake == old(snake) && food == old(food) && direction == old(direction)
      ensures score == old(score) && highScore == old(highScore)
    {
      state := if state == Playing then Paused else Playing;
    }

    /** resetGame: the initial snake, food and direction, play on, score 0, the best score kept. */
    method ResetGame()
      modifies this
      ensures Valid()
      ensures snake == InitialSnake && food == InitialFood && direction == InitialDirection
      ensures state == Playing && score == 0
      ensures highScore == if old(highScore) >= old(score) then old(highScore) else old(score)
    {
      snake := InitialSnake;
      food := InitialFood;
      direction := InitialDirection;
      state := Playing;
      highScore := if highScore >= score then highScore else score;
      score := 0;
    }
  }
}
