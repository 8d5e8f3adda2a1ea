/**
 * Tic-Tac-Toe against a minimax opponent.
 *
 * The player is X and moves first; the computer is O. The board is nine
 * cells indexed 0..8 row by row. The search works on an array that it
 * changes in place and restores; its meaning is the pure game value
 * `Value`, over which the properties are stated.
 */
module TicTacToe {
  import opened Wrappers

  datatype Cell = Empty | X | O

  type Index = i: int | 0 <= i < 9

  /** The eight winning lines, in the order the source scans them: rows, columns, diagonals. */
  const Lines: seq<(Index, Index, Index)> :=
    [(0, 1, 2), (3, 4, 5), (6, 7, 8),
     (0, 3, 6), (1, 4, 7), (2, 5, 8),
     (0, 4, 8), (2, 4, 6)]

  /** Stand-ins for the search's -Infinity and +Infinity: outside every reachable score. */
  const NegInf := -1000
  const PosInf := 1000

  const EmptyBoard: seq<Cell> := [Empty, Empty, Empty, Empty, Empty, Empty, Empty, Empty, Empty]

  /** Number of cells holding `c`. */
  function Count(b: seq<Cell>, c: Cell): nat {
    multiset(b)[c]
  }

  /** Line `k` holds three equal marks. */
  predicate Held(b: seq<Cell>, k: nat)
    requires |b| == 9 && k < 8
  {
    var (p, q, r) := Lines[k];
    b[p] != Empty && b[p] == b[q] && b[p] == b[r]
  }

  /** Line `k` holds three copies of mark `m`. */
  predicate Owns(b: seq<Cell>, k: nat, m: Cell)
    requires |b| == 9 && k < 8
  {
    Held(b, k) && b[Lines[k].0] == m
  }

  /**
   * The mark of the first held line at index `k` or later, or Empty.
   */
  function WinnerFrom(b: seq<Cell>, k: nat): (w: Cell)
    requires |b| == 9 && k <= 8
    ensures w != Empty ==> exists j :: k <= j < 8 && Owns(b, j, w) && forall i :: k <= i < j ==> !Held(b, i)
    ensures w == Empty <==> forall j :: k <= j < 8 ==> !Held(b, j)
    decreases 8 - k
  {
    if k == 8 then Empty
    else if Held(b, k) then assert Owns(b, k, b[Lines[k].0]); b[Lines[k].0]
    else WinnerFrom(b, k + 1)
  }

  /**
   * checkWinner: the mark of the first line (in scan order) holding three
   * equal marks, or Empty when no line does.
   */
  function Winner(b: seq<Cell>): (w: Cell)
    requires |b| == 9
    ensures w != Empty ==> exists j :: 0 <= j < 8 && Owns(b, j, w) && forall i :: 0 <= i < j ==> !Held(b, i)
    ensures w == Empty <==> forall j :: 0 <= j < 8 ==> !Held(b, j)
  {
    WinnerFrom(b, 0)
  }

  /** isBoardFull: no cell is empty. */
  function IsFull(b: seq<Cell>): (full: bool)
    ensures full <==> forall i :: 0 <= i < |b| ==> b[i] != Empty
    ensures full <==> Count(b, Empty) == 0
  {
    Empty !in b
  }

  function Max(a: int, b: int): int { if a >= b then a else b }
  function Min(a: int, b: int): int { if a <= b then a else b }

  /**
   * The minimax value of position `b` reached `depth` plies into the
   * search, with O to move when `maximizing`. A win for O scores
   * 10 - depth, a win for X depth - 10, a full board 0; the winner is
   * checked before fullness.
   */
  function Value(b: seq<Cell>, depth: nat, maximizing: bool): int
    requires |b| == 9
    decreases Count(b, Empty), 1
  {
    var w := Winner(b);
    if w == O then 10 - depth
    else if w == X then depth - 10
    else if IsFull(b) then 0
    else Scan(b, depth, maximizing, 0, if maximizing then NegInf else PosInf)
  }

  /**
   * The search loop from cell `i` on: folds the values of the moves into
   * empty cells `i..8` into `best` by max (O to move) or min (X to move).
   */
  function Scan(b: seq<Cell>, depth: nat, maximizing: bool, i: nat, best: int): int
    requires |b| == 9 && i <= 9
    decreases Count(b, Empty), 0, 9 - i
  {
    if i == 9 then best
    else if b[i] != Empty then Scan(b, depth, maximizing, i + 1, best)
    else
      var score := Value(b[i := if maximizing then O else X], depth + 1, !maximizing);
      Scan(b, depth, maximizing, i + 1, if maximizing then Max(score, best) else Min(score, best))
  }

  /** Some cell at index `i` or later is empty. */
  predicate HasEmptyFrom(b: seq<Cell>, i: nat)
    requires |b| == 9
  {
    exists j :: i <= j < 9 && b[j] == Empty
  }

  lemma {:induction false} CountAtMostLength(b: seq<Cell>, c: Cell)
    ensures Count(b, c) <= |b|
  {
    if b != [] {
      assert b == [b[0]] + b[1..];
      CountAtMostLength(b[1..], c);
    }
  }

  /**
   * Every value the search computes lies within 10 - depth of zero, as
   * long as the plies already played plus the empty cells left do not
   * exceed 10 (true of every call getBestMove makes). A value of exactly
   * 10 - depth (resp. depth - 10) before ply 10 means O (resp. X) has
   * already won: later wins score strictly less.
   */
  lemma {:induction false} ValueBounds(b: seq<Cell>, depth: nat, maximizing: bool)
    requires |b| == 9 && depth + Count(b, Empty) <= 10
    ensures -(10 - depth) <= Value(b, depth, maximizing) <= 10 - depth
    ensures depth < 10 && Value(b, depth, maximizing) == 10 - depth ==> Winner(b) == O
    ensures depth < 10 && Value(b, depth, maximizing) == depth - 10 ==> Winner(b) == X
    decreases Count(b, Empty), 1
  {
    var w := Winner(b);
    if w == Empty && !IsFull(b) {
      var j :| 0 <= j < |b| && b[j] == Empty;
      assert HasEmptyFrom(b, 0);
      ScanBounds(b, depth, maximizing, 0, if maximizing then NegInf else PosInf);
    }
  }

  lemma {:induction false} ScanBounds(b: seq<Cell>, depth: nat, maximizing: bool, i: nat, best: int)
    requires |b| == 9 && i <= 9 && depth + Count(b, Empty) <= 10
    requires if maximizing then best <= 9 - depth else best >= -(9 - depth)
    ensures (-(9 - depth) <= best <= 9 - depth || HasEmptyFrom(b, i)) ==>
              -(9 - depth) <= Scan(b, depth, maximizing, i, best) <= 9 - depth
    decreases Count(b, Empty), 0, 9 - i
  {
    if i < 9 {
      if b[i] != Empty {
        if HasEmptyFrom(b, i) {
          var j :| i <= j < 9 && b[j] == Empty;
          assert HasEmptyFrom(b, i + 1);
        }
        ScanBounds(b, depth, maximizing, i + 1, best);
      } else {
        var child := b[i := if maximizing then O else X];
        assert Count(child, Empty) == Count(b, Empty) - 1;
        ValueBounds(child, depth + 1, !maximizing);
        var score := Value(child, depth + 1, !maximizing);
        ScanBounds(b, depth, maximizing, i + 1, if maximizing then Max(score, best) else Min(score, best));
      }
    }
  }

  /** The starting board: no line held, not full, no marks of either player. */
  lemma EmptyBoardIsOpen()
    ensures Winner(EmptyBoard) == Empty && !IsFull(EmptyBoard)
    ensures Count(EmptyBoard, X) == 0 && Count(EmptyBoard, O) == 0
  {
    forall j | 0 <= j < 8
      ensures !Held(EmptyBoard, j)
    {
      assert EmptyBoard[Lines[j].0] == Empty;
    }
    assert EmptyBoard[0] == Empty;
    assert X !in multiset(EmptyBoard) && O !in multiset(EmptyBoard);
  }

  /** The value getBestMove assigns to O playing cell `j`. */
  function MoveValue(b: seq<Cell>, j: Index): int
    requires |b| == 9
  {
    Value(b[j := O], 0, false)
  }

  /**
   * What getBestMove returns: -1 on a full board; otherwise an empty cell
   * whose value is maximal, the lowest such cell on ties.
   */
  ghost predicate IsBestMove(b: seq<Cell>, m: int)
    requires |b| == 9
  {
    if IsFull(b) then m == -1
    else
      && 0 <= m < 9 && b[m] == Empty
      && (forall j: Index :: b[j] == Empty ==> MoveValue(b, j) <= MoveValue(b, m))
      && (forall j: Index :: j < m && b[j] == Empty ==> MoveValue(b, j) < MoveValue(b, m))
  }

  /**
   * minimax: searches by placing marks in `board` and removing them again;
   * the board ends as it started and the result is the game value.
   */
  method Minimax(board: array<Cell>, depth: nat, maximizing: bool) returns (score: int)
    requires board.Length == 9
    modifies board
    ensures board[..] == old(board[..])
    ensures score == Value(old(board[..]), depth, maximizing)
    decreases Count(board[..], Empty)
  {
    ghost var b := board[..];
    var w := Winner(board[..]);
    if w == O {
      return 10 - depth;
    }
    if w == X {
      return depth - 10;
    }
    if IsFull(board[..]) {
      return 0;
    }
    var mark := if maximizing then O else X;
    var start := if maximizing then NegInf else PosInf;
    var best := start;
    var i := 0;
    while i < 9
      invariant 0 <= i <= 9
      invariant board[..] == b
      invariant Scan(b, depth, maximizing, i, best) == Scan(b, depth, maximizing, 0, start)
    {
      if board[i] == Empty {
        board[i] := mark;
        assert board[..] == b[i := mark];
        var s := Minimax(board, depth + 1, !maximizing);
        board[i] := Empty;
        assert board[..] == b;
        best := if maximizing then Max(s, best) else Min(s, best);
      }
      i := i + 1;
    }
    score := best;
  }

  /**
   * getBestMove: tries O in every empty cell, scores it by minimax with X
   * to reply, and keeps the first strictly better one. The board is
   * restored; the result is -1 exactly when no cell is empty.
   */
  method GetBestMove(board: array<Cell>) returns (move: int)
    requires board.Length == 9
    modifies board
    ensures board[..] == old(board[..])
    ensures IsBestMove(old(board[..]), move)
    ensures move == -1 <==> IsFull(old(board[..]))
  {
    ghost var b := board[..];
    ghost var scores := seq(9, j requires 0 <= j < 9 => MoveValue(b, j));
    var bestScore := NegInf;
    move := -1;
    var i := 0;
    while i < 9
      invariant 0 <= i <= 9
      invariant board[..] == b
      invariant (move, bestScore) == FirstMax(b, scores, i)
    {
      if board[i] == Empty {
        var score := ScoreMove(board, i);
        if score > bestScore {
          bestScore := score;
          move := i;
        }
      }
      i := i + 1;
    }
    forall j: Index
      ensures scores[j] > NegInf
    {
      MoveValueAboveSentinel(b, j);
    }
    FirstMaxIsMax(b, scores, 9);
    BestMoveAfterScan(b, move, bestScore);
  }

  /**
   * getBestMove's scan over the first `i` cells, given each cell's score:
   * the first empty cell of strictly greatest score so far and that score,
   * or (-1, NegInf) before any empty cell.
   */
  ghost function FirstMax(b: seq<Cell>, scores: seq<int>, i: nat): (int, int)
    requires |b| == 9 && |scores| == 9 && i <= 9
  {
    if i == 0 then (-1, NegInf)
    else
      var (m, s) := FirstMax(b, scores, i - 1);
      if b[i - 1] == Empty && scores[i - 1] > s then (i - 1, scores[i - 1]) else (m, s)
  }

  /**
   * When every score beats the sentinel, the scan over the first `i` cells
   * keeps the first maximum among the empty ones, and finds a cell iff one
   * of them is empty.
   */
  lemma {:induction false} FirstMaxIsMax(b: seq<Cell>, scores: seq<int>, i: nat)
    requires |b| == 9 && |scores| == 9 && i <= 9
    requires forall j :: 0 <= j < 9 ==> scores[j] > NegInf
    ensures var (m, s) := FirstMax(b, scores, i);
      && (m == -1 <==> forall j :: 0 <= j < i ==> b[j] != Empty)
      && (m == -1 ==> s == NegInf)
      && (m != -1 ==> 0 <= m < i && b[m] == Empty && s == scores[m])
      && (forall j :: 0 <= j < i && b[j] == Empty ==> scores[j] <= s)
      && (forall j :: 0 <= j < m && b[j] == Empty ==> scores[j] < s)
  {
    if i > 0 {
      FirstMaxIsMax(b, scores, i - 1);
    }
  }

  /**
   * One step of getBestMove: O is tried in the empty cell `i`, scored by
   * minimax with X to reply, and removed again.
   */
  method ScoreMove(board: array<Cell>, i: Index) returns (score: int)
    requires board.Length == 9 && board[i] == Empty
    modifies board
    ensures board[..] == old(board[..])
    ensures score == MoveValue(old(board[..]), i) && score > NegInf
  {
    ghost var b := board[..];
    board[i] := O;
    assert board[..] == b[i := O];
    score := Minimax(board, 0, false);
    board[i] := Empty;
    assert board[..] == b;
    MoveValueAboveSentinel(b, i);
  }

  /** Every move scores above getBestMove's starting sentinel. */
  lemma MoveValueAboveSentinel(b: seq<Cell>, j: Index)
    requires |b| == 9
    ensures MoveValue(b, j) > NegInf
  {
    CountAtMostLength(b[j := O], Empty);
    ValueBounds(b[j := O], 0, false);
  }

  /** The state getBestMove's loop ends in is a best move. */
  lemma BestMoveAfterScan(b: seq<Cell>, move: int, bestScore: int)
    requires |b| == 9
    requires var scores := seq(9, j requires 0 <= j < 9 => MoveValue(b, j));
      && (move == -1 <==> forall j :: 0 <= j < 9 ==> b[j] != Empty)
      && (move != -1 ==> 0 <= move < 9 && b[move] == Empty && bestScore == scores[move])
      && (forall j :: 0 <= j < 9 && b[j] == Empty ==> scores[j] <= bestScore)
      && (forall j :: 0 <= j < move && b[j] == Empty ==> scores[j] < bestScore)
    ensures IsBestMove(b, move)
    ensures move == -1 <==> IsFull(b)
  {
  }

  /**
   * The computer's choice for position `b`: getBestMove run on a scratch
   * copy of the board, so `b` itself is untouched.
   */
  method ChooseMove(b: seq<Cell>) returns (move: int)
    requires |b| == 9
    ensures IsBestMove(b, move)
    ensures move == -1 <==> IsFull(b)
  {
    var work := new Cell[9](i requires 0 <= i < 9 => b[i]);
    assert work[..] == b;
    move := GetBestMove(work);
  }

  /**
   * When O can complete a line at once, the chosen move does complete
   * one: an immediate win scores 10, anything later at most 9.
   */
  lemma AiTakesImmediateWin(b: seq<Cell>, m: int, j: Index)
    requires |b| == 9 && IsBestMove(b, m)
    requires b[j] == Empty && Winner(b[j := O]) == O
    ensures 0 <= m < 9 && Winner(b[m := O]) == O
  {
    assert !IsFull(b);
    CountAtMostLength(b[j := O], Empty);
    ValueBounds(b[j := O], 0, false);
    CountAtMostLength(b[m := O], Empty);
    ValueBounds(b[m := O], 0, false);
  }

  /** Two results that both meet getBestMove's contract are the same move. */
  lemma BestMoveIsUnique(b: seq<Cell>, m1: int, m2: int)
    requires |b| == 9 && IsBestMove(b, m1) && IsBestMove(b, m2)
    ensures m1 == m2
  {
  }

  /**
   * A mark placed on an empty cell of a board without a held line can only
   * create a line of that mark.
   */
  lemma WinnerAfterMove(b: seq<Cell>, i: Index, m: Cell)
    requires |b| == 9 && b[i] == Empty && m != Empty && Winner(b) == Empty
    ensures Winner(b[i := m]) == Empty || Winner(b[i := m]) == m
  {
    var b' := b[i := m];
    var w := Winner(b');
    if w != Empty {
      var j :| 0 <= j < 8 && Owns(b', j, w) && forall k :: 0 <= k < j ==> !Held(b', k);
      assert !Held(b, j);
    }
  }

  /** Placing mark `m` on an empty cell adds one `m` and leaves the other counts alone. */
  lemma CountsAfterMove(b: seq<Cell>, i: Index, m: Cell)
    requires |b| == 9 && b[i] == Empty && m != Empty
    ensures Count(b[i := m], m) == Count(b, m) + 1
    ensures forall c :: c != m && c != Empty ==> Count(b[i := m], c) == Count(b, c)
    ensures Count(b[i := m], Empty) == Count(b, Empty) - 1
  {
  }

  /** The digit keys 1..9 select cells 0..8. */
  function KeyIndex(key: char): (r: Option<Index>)
    ensures r.Some? <==> '1' <= key <= '9'
    ensures r.Some? ==> ('1' as int + r.value) as char == key
  {
    if '1' <= key <= '9' then Some(key as int - '1' as int) else None
  }

  lemma KeyIndexOnto(i: Index)
    ensures KeyIndex(('1' as int + i) as char) == Some(i)
  {
  }

  datatype Status = Playing | Won | Lost | Draw

  /** The game component: its board, whose turn it is, the outcome and the running tallies. */
  class Game {
    var board: seq<Cell>
    var isPlayerTurn: bool
    var state: Status
    var wins: nat
    var losses: nat
    var draws: nat

    /**
     * Turns alternate from an empty board with X first, so X leads O by at
     * most one; while playing no line is held, a cell is free, and it is
     * the player's turn exactly when the counts are equal.
     */
    ghost predicate Valid()
      reads this
    {
      && |board| == 9
      && (Count(board, X) == Count(board, O) || Count(board, X) == Count(board, O) + 1)
      && (state == Playing ==>
            && Winner(board) == Empty
            && !IsFull(board)
            && (isPlayerTurn <==> Count(board, X) == Count(board, O)))
    }

    constructor ()
      ensures Valid()
      ensures board == EmptyBoard && isPlayerTurn && state == Playing
      ensures wins == 0 && losses == 0 && draws == 0
    {
      board := EmptyBoard;
      isPlayerTurn := true;
      state := Playing;
      wins, losses, draws := 0, 0, 0;
      EmptyBoardIsOpen();
    }

    /** The click guard: an empty cell while the game is on and it is the player's turn. */
    predicate Clickable(index: int)
      reads this
    {
      0 <= index < 9 && |board| == 9 && board[index] == Empty && state == Playing && isPlayerTurn
    }

    /** The state after X plays `index` on `b`, and the score reported. */
    ghost predicate ClickOutcome(b: seq<Cell>, index: Index, wins0: nat, losses0: nat, draws0: nat, report: Option<nat>)
      requires |b| == 9
      reads this
    {
      && board == b[index := X]
      && !isPlayerTurn
      && losses == losses0
      && (if Winner(board) == X then
            state == Won && report == Some(100) && wins == wins0 + 1 && draws == draws0
          else if IsFull(board) then
            state == Draw && report == Some(50) && wins == wins0 && draws == draws0 + 1
          else
            state == Playing && report == None && wins == wins0 && draws == draws0)
    }

    /**
     * handleCellClick: ignored unless the index names an empty cell, the
     * game is on and it is the player's turn. Otherwise X goes there, the
     * turn passes, and a line of X wins (100 points) before a full board
     * draws (50 points). The result is the score reported, if any.
     */
    method HandleCellClick(index: int) returns (report: Option<nat>)
      requires Valid()
      modifies this
      ensures Valid()
      ensures !old(Clickable(index)) ==> unchanged(this) && report == None
      ensures old(Clickable(index)) ==>
                0 <= index < 9 && ClickOutcome(old(board), index, old(wins), old(losses), old(draws), report)
    {
      report := None;
      if !(0 <= index < 9) || board[index] != Empty || state != Playing || !isPlayerTurn {
        return;
      }
      report := PlaceClick(index);
    }

    /**
     * The second half of a click: X is written at `index` and the turn
     * passes; a line of X wins (100 points) before a full board draws
     * (50 points).
     */
    method PlaceClick(index: int) returns (report: Option<nat>)
      requires Valid() && Clickable(index)
      modifies this
      ensures Valid()
      ensures ClickOutcome(old(board), index, old(wins), old(losses), old(draws), report)
    {
      report := None;
      var b := board;
      var newBoard := b[index := X];
      WinnerAfterMove(b, index, X);
      CountsAfterMove(b, index, X);
      board := newBoard;
      isPlayerTurn := false;
      var winner := Winner(newBoard);
      if winner == X {
        state := Won;
        wins := wins + 1;
        report := Some(100);
      } else if IsFull(newBoard) {
        state := Draw;
        draws := draws + 1;
        report := Some(50);
      }
    }

    /** A digit key 1..9 clicks the matching cell; any other key does nothing here. */
    method HandleKey(key: char) returns (report: Option<nat>)
      requires Valid()
      modifies this
      ensures Valid()
      ensures KeyIndex(key).None? || !old(Clickable(KeyIndex(key).value)) ==> unchanged(this) && report == None
      ensures KeyIndex(key).Some? && old(Clickable(KeyIndex(key).value)) ==>
                ClickOutcome(old(board), KeyIndex(key).value, old(wins), old(losses), old(draws), report)
    {
      report := None;
      var index := KeyIndex(key);
      if index.Some? {
        report := HandleCellClick(index.value);
      }
    }

    /**
     * The computer's reply, run once the player has moved and the game is
     * still on: O goes to getBestMove's cell (see PlaceReply). While the
     * game is on a cell is free, so getBestMove never answers -1 here.
     * `move` is the chosen cell, or -1 when the reply did not run.
     */
    method AiReply() returns (move: int, report: Option<nat>)
      requires Valid()
      modifies this
      ensures Valid()
      ensures !(!old(isPlayerTurn) && old(state) == Playing) ==> unchanged(this) && move == -1 && report == None
      ensures !old(isPlayerTurn) && old(state) == Playing ==>
                && IsBestMove(old(board), move)
                && 0 <= move < 9
                && ReplyOutcome(old(board), move, old(wins), old(losses), old(draws), report)
    {
      move, report := -1, None;
      if isPlayerTurn || state != Playing {
        return;
      }
      move := ChooseMove(board);
      if move != -1 {
        report := PlaceReply(move);
      }
    }

    /** The state after O plays `move`, and the score reported. */
    ghost predicate ReplyOutcome(b: seq<Cell>, move: Index, wins0: nat, losses0: nat, draws0: nat, report: Option<nat>)
      requires |b| == 9
      reads this
    {
      && board == b[move := O]
      && wins == wins0
      && (if Winner(board) == O then
            state == Lost && report == Some(0) && losses == losses0 + 1 && draws == draws0 && !isPlayerTurn
          else if IsFull(board) then
            state == Draw && report == Some(50) && draws == draws0 + 1 && losses == losses0 && !isPlayerTurn
          else
            state == Playing && report == None && isPlayerTurn && losses == losses0 && draws == draws0)
    }

    /**
     * The second half of the reply: O is written at `move`; a line of O
     * loses the game for the player (0 points) before a full board draws
     * (50 points); otherwise the turn returns to the player.
     */
    method PlaceReply(move: int) returns (report: Option<nat>)
      requires Valid() && !isPlayerTurn && state == Playing
      requires 0 <= move < 9 && board[move] == Empty
      modifies this
      ensures Valid()
      ensures ReplyOutcome(old(board), move, old(wins), old(losses), old(draws), report)
    {
      report := None;
      var b := board;
      var newBoard := b[move := O];
      WinnerAfterMove(b, move, O);
      CountsAfterMove(b, move, O);
      board := newBoard;
      var winner := Winner(newBoard);
      if winner == O {
        state := Lost;
        losses := losses + 1;
        report := Some(0);
      } else if IsFull(newBoard) {
        state := Draw;
        draws := draws + 1;
        report := Some(50);
      } else {
        isPlayerTurn := true;
      }
    }

    /** resetGame: a fresh board, the player to move, the game on; the tallies carry over. */
    method ResetGame()
      requires Valid()
      modifies this
      ensures Valid()
      ensures board == EmptyBoard && isPlayerTurn && state == Playing
      ensures wins == old(wins) && losses == old(losses) && draws == old(draws)
    {
      board := EmptyBoard;
      isPlayerTurn := true;
      state := Playing;
      EmptyBoardIsOpen();
    }
  }
}
