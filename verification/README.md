# Terminal mini-games: a verified Dafny model

This project models the game engines of a terminal-styled portfolio site
together with the two small pieces of logic around them. There are four
mini-games (number guessing, Snake, Tic-Tac-Toe against a minimax opponent,
and a Simon-style memory game). Around them sit the host that opens the games
and adds up their scores, and the Konami-code detector.

Each React component becomes a Dafny `class`. Its `useState` hooks become
fields, and its handlers become methods that update those fields. Each game
class, and the Konami detector, has a `Valid()` invariant that every one of
its methods keeps. The host's class has none, because its fields are
unconstrained. When a game calls
`onScore(s)`, the method returns `Some(s)` in an `Option<nat>` named
`report`; it returns `None` when no score is reported. Pure logic becomes
functions, and the lemmas about those functions state the games' promises.
Each module models one source file:

- `TicTacToe` (`tictactoe.dfy`). The win detector covers the eight lines in
  the source's scan order. `Value`/`Scan` give the meaning of the
  depth-weighted minimax as a pure game value. `Minimax` and `GetBestMove`
  are imperative: they place marks in an `array` and remove them again. They
  are proved to restore the board. `Minimax` is proved to compute `Value`.
  `GetBestMove` is proved to return the lowest-index maximising empty cell,
  or -1 when the board is full. The game class holds the board, the turn,
  the outcome and the win/loss/draw tallies.
- `Snake` (`snake.dfy`). The grid is 20 × 10. A tick moves the head by a
  unit vector, checks the walls and then the body (tail included), and then
  either grows the snake or drops its tail. The body invariant is:
  - every cell is in bounds;
  - no cell repeats;
  - consecutive cells are adjacent;
  - the food is off the snake.

  Every tick keeps this invariant. A pigeonhole lemma shows that the food
  retry loop always has a free cell to find.
- `NumberGuess` (`numberguess.dfy`). The hint bands are at 5, 15 and 30,
  with a direction. Guesses are appended to a history. The number of
  attempts left is tied to the history length, and a win scores
  `max(100 - 10·(attempts used), 10)`.
- `Memory` (`memory.dfy`). A round replaces the sequence with a fresh one
  as long as the level its timer read (see below). The player's input stays
  a prefix of it.
  Each cleared level adds `level·10` points, and the score invariant makes a
  win report 550.
- `Host` (`host.dfy`). It holds the open game's identifier and the
  games-played and total-score counters. `RenderGame` dispatches on the
  four identifiers.
- `Konami` (`konami.dfy`). The sliding window keeps the last ten key codes
  and is compared with the code element by element.

Randomness becomes a value the caller supplies: the target number and the
colour draws. For the food cell it is an arbitrary choice (`:|`) among the
free cells. Each timer becomes an explicit transition method: the Snake tick
(`MoveSnake`), the AI's delayed reply (`AiReply`), the end of the colour
playback (`ShowSequence`), the next memory round (`StartNewRound`) and the
Konami reset (`ResetAfterEffect`).

### Behaviour of the code worth knowing

- Snake, `SnakeGame.tsx:111-112`: Space sets `playing` from every state
  other than `playing`, including game over. `TogglePause` models this.
- Snake, `SnakeGame.tsx:95-110`: each direction key tests the reversal
  against the buffered direction (`prev`), not against the direction of the
  last tick. Two keys pressed between ticks can therefore turn the snake onto
  its neck. `Snake.TwoKeysReverse` shows this on a two-cell snake.
- Tic-Tac-Toe, `TicTacToe.tsx:336`: the on-screen text names alpha-beta
  pruning. The search at lines 40-70 is plain minimax, which is what is
  modelled.
- Number guessing, `NumberGuess.tsx:39`: `handleGuess` has no state guard.
  Its callers check for `playing` (lines 70 and 115). `HandleGuess`
  therefore requires `state == Playing`, and `EnterKey` carries the guard.
- Memory, `MemoryGame.tsx:88-91`: the timer that starts the next level is
  never cancelled. A click in that second is past the end of the sequence,
  so it loses and reports the score (lines 73-76). The timer then starts a
  round from the lost state anyway. `StartNewRound` admits any state but
  `won`.
- Memory, `MemoryGame.tsx:43-44, 89-91, 107-110`: `startNewRound` reads
  `currentLevel` from the render that set its timer.
  - The next-level timer was set before the level went up, so every level
    n ≥ 2 shows n − 1 colours. `HandleColorClick` returns that length as
    `nextRound`.
  - `startGame` is reached from the won and lost screens (lines 282 and 306)
    as well as from `waiting`. Its timer was set before the reset, so a game
    started after one that ended at level L opens level 1 with L colours.
    `StartGame` states this.

## Model

| member | source | states |
|---|---|---|
| TicTacToe.WinnerFrom | src/components/games/TicTacToe.tsx:28-33 | a mark is returned only if a line from index k on holds three copies of it and no earlier line from k is held; Empty iff no line from k is held |
| TicTacToe.Winner | src/components/games/TicTacToe.tsx:21-34 | checkWinner returns m only when some line holds three m's and every earlier line is unheld; Empty iff none of the 8 lines is held |
| TicTacToe.IsFull | src/components/games/TicTacToe.tsx:36-38 | full iff no cell is empty, iff the count of empty cells is 0 |
| TicTacToe.ValueBounds | src/components/games/TicTacToe.tsx:40-70 | every minimax value lies in [-(10-depth), 10-depth]; before ply 10 the extreme 10-depth arises only from an O line already on the board, depth-10 only from an X line |
| TicTacToe.ScanBounds | src/components/games/TicTacToe.tsx:47-69 | the max/min loop yields a value in [-(9-depth), 9-depth] once it has seen an empty cell, so the ±Infinity sentinels never escape |
| TicTacToe.Minimax | src/components/games/TicTacToe.tsx:40-70 | the board is restored exactly and the result is the game value (winner first: 10-depth, depth-10, then 0 when full, else max/min over the empty cells) |
| TicTacToe.GetBestMove | src/components/games/TicTacToe.tsx:72-88 | the board is restored; -1 iff no cell is empty; otherwise an empty cell whose score is maximal and strictly above every lower-index empty cell (first maximum wins ties) |
| TicTacToe.ScoreMove | src/components/games/TicTacToe.tsx:78-80 | trying O in an empty cell restores the board and yields that move's game value, which always beats the -Infinity starting score |
| TicTacToe.FirstMaxIsMax | src/components/games/TicTacToe.tsx:73-86 | the strict `>` scan keeps the first empty cell of greatest score and its score, and finds a cell iff one of the cells scanned is empty |
| TicTacToe.ChooseMove | src/components/games/TicTacToe.tsx:116 | the AI's choice on the current board satisfies getBestMove's contract and is -1 iff the board is full |
| TicTacToe.AiTakesImmediateWin | src/components/games/TicTacToe.tsx:43 | if O can complete a line in one move, the chosen move completes one (a win now scores 10, a later one at most 9) |
| TicTacToe.BestMoveIsUnique | src/components/games/TicTacToe.tsx:81-84 | the strict comparison makes the best move unique: two results meeting the contract are equal |
| TicTacToe.WinnerAfterMove | src/components/games/TicTacToe.tsx:101-102 | a mark placed on a board with no held line can only create a line of that mark |
| TicTacToe.CountsAfterMove | src/components/games/TicTacToe.tsx:95-96 | a move adds exactly one of its mark, removes one empty cell and leaves the other mark's count alone |
| TicTacToe.KeyIndex | src/components/games/TicTacToe.tsx:198-199 | keys '1'..'9' and only they select a cell, and the cell is in 0..8 with key = '1' + index |
| TicTacToe.KeyIndexOnto | src/components/games/TicTacToe.tsx:198-199 | every cell 0..8 is selected by its digit key |
| TicTacToe.EmptyBoardIsOpen | src/components/games/TicTacToe.tsx:12 | the starting board has no line held, is not full and holds no mark of either player |
| TicTacToe.Game.constructor | src/components/games/TicTacToe.tsx:12-19 | empty board, player to move, playing, all tallies 0 |
| TicTacToe.Game.HandleCellClick | src/components/games/TicTacToe.tsx:90-111 | no-op on an occupied or out-of-range cell, outside play, or off-turn; otherwise X at that index only and the turn cleared, then an X line means won/+100/wins+1 before a full board means draw/+50/draws+1; the X−O count lead stays 0 or 1 |
| TicTacToe.Game.PlaceClick | src/components/games/TicTacToe.tsx:95-110 | writes X at the index only and passes the turn; an X line means won/+100/wins+1 before a full board means draw/+50/draws+1; the turn-alternation invariant is kept |
| TicTacToe.Game.HandleKey | src/components/games/TicTacToe.tsx:194-202 | a digit key has exactly the effect of clicking its cell (the same guard, the same new board, outcome and report); any other key changes nothing |
| TicTacToe.Game.AiReply | src/components/games/TicTacToe.tsx:113-134 | runs only off the player's turn while playing; O goes on getBestMove's cell; then an O line means lost/0/losses+1 before a full board means draw/+50, otherwise the turn returns to the player |
| TicTacToe.Game.PlaceReply | src/components/games/TicTacToe.tsx:117-134 | writes O at the move only, applies the lost / draw / player's-turn outcome and keeps the turn-alternation invariant |
| TicTacToe.Game.ResetGame | src/components/games/TicTacToe.tsx:141-145 | empty board, player to move, playing; wins, losses and draws unchanged |
| Snake.Opposite | src/components/games/SnakeGame.tsx:97-109 | the direction a key may not reverse into differs from the key's own direction |
| Snake.Step | src/components/games/SnakeGame.tsx:43-56 | the new head is grid-adjacent to the old head (UP y−1, DOWN y+1, LEFT x−1, RIGHT x+1) |
| Snake.StepUndo | src/components/games/SnakeGame.tsx:43-56 | the opposite step undoes a step, and distinct directions reach distinct cells |
| Snake.KeyDirection | src/components/games/SnakeGame.tsx:94-109 | exactly w/arrowup ask for up, s/arrowdown for down, a/arrowleft for left, d/arrowright for right; every other key asks for none |
| Snake.KeyDirectionOnto | src/components/games/SnakeGame.tsx:94-109 | every direction has a key, and Space is not a direction key |
| Snake.Steer | src/components/games/SnakeGame.tsx:97-109 | a direction key is ignored iff it is the exact opposite of the buffered direction, otherwise it replaces it; the result never reverses the buffered direction |
| Snake.TwoKeysReverse | src/components/games/SnakeGame.tsx:97-109 | two keys between ticks (Up, then Left while moving Right) reverse the snake onto its neck |
| Snake.CellAt | src/components/games/SnakeGame.tsx:28-31 | every cell number 0..199 names an in-bounds cell that numbers back to it |
| Snake.FreeCellExists | src/components/games/SnakeGame.tsx:25-34 | a body shorter than 200 cells leaves a free in-bounds cell, so the retry loop can stop |
| Snake.GenerateFood | src/components/games/SnakeGame.tsx:25-34 | the food is an in-bounds cell not in the body it is given |
| Snake.Game.constructor | src/components/games/SnakeGame.tsx:18-23 | snake [(10,5)], food (15,5), direction RIGHT, playing, score and high score 0 |
| Snake.Game.MoveSnake | src/components/games/SnakeGame.tsx:36-84 | no-op unless playing; head = old head + unit vector; a head off the grid or on any body cell means over, current score reported, body unchanged; on food the body is [head] + old body and the score rises by 10 with new food off the body; otherwise [head] + old body minus its last cell; cells stay in bounds, distinct and adjacent, and the food stays off the snake |
| Snake.Game.HandleKey | src/components/games/SnakeGame.tsx:92-118 | a direction key steers as Steer(old direction, its direction), Space toggles the pause, each changing nothing else; any other key changes nothing |
| Snake.Game.SetDirection | src/components/games/SnakeGame.tsx:94-110 | the direction becomes Steer(old direction, key); nothing else changes |
| Snake.Game.TogglePause | src/components/games/SnakeGame.tsx:111-113 | playing becomes paused, every other state becomes playing; nothing else changes |
| Snake.Game.ResetGame | src/components/games/SnakeGame.tsx:124-131 | initial snake, food and direction; playing; score 0; high score = max(high score, score) |
| NumberGuess.GetHint | src/components/games/NumberGuess.tsx:30-37 | bullseye iff guess = target; otherwise "go higher" iff guess < target, and the band is exactly the one whose distance range (≤5, ≤15, ≤30, farther) holds d |
| NumberGuess.HintByDistanceAndSide | src/components/games/NumberGuess.tsx:30-37 | the hint depends only on the distance and the side of the target |
| NumberGuess.ColderWithDistance | src/components/games/NumberGuess.tsx:30-37 | a farther guess never gets a warmer hint |
| NumberGuess.WinScoreOnGuess | src/components/games/NumberGuess.tsx:53 | a win on guess k scores 100 − 10(k−1), within [40,100] |
| NumberGuess.Game.constructor | src/components/games/NumberGuess.tsx:16-18 | mounting starts a game: target in 1..100, 7 attempts, empty history, playing |
| NumberGuess.Game.StartNewGame | src/components/games/NumberGuess.tsx:20-28 | target in 1..100, 7 attempts, empty history, playing |
| NumberGuess.Game.HandleGuess | src/components/games/NumberGuess.tsx:39-66 | input that is not a number in 1..100 changes nothing; otherwise exactly one {value, hint} is appended; a hit means won, attempts unchanged, reporting max(100 − (7 − attemptsLeft)·10, 10); a miss uses exactly one attempt and the last one means lost with 0; while playing attemptsLeft = 7 − history length |
| NumberGuess.Game.EnterKey | src/components/games/NumberGuess.tsx:68-76 | while playing, a number in 1..100 has exactly handleGuess's effect (one entry appended, won with the win score or one attempt used, lost with 0 on the last); after the end, or for other input, the key changes nothing |
| Memory.GenerateSequence | src/components/games/MemoryGame.tsx:35-41 | exactly `level` colours, the i-th being the palette entry of the i-th draw |
| Memory.LevelTotalClosedForm | src/components/games/MemoryGame.tsx:80-82 | clearing levels 1..k earns 10·k(k+1)/2 points |
| Memory.WinTotal | src/components/games/MemoryGame.tsx:84-86 | clearing all ten levels earns 550 |
| Memory.Game.constructor | src/components/games/MemoryGame.tsx:17-24 | empty sequences, waiting, level 1, score and high score 0 |
| Memory.Game.StartNewRound | src/components/games/MemoryGame.tsx:43-52 | from any state but won (including the lost state the stale timer finds), replaces (not extends) the sequence with as many fresh colours as the level the calling timer read, empties the input, showing; level and score kept |
| Memory.Game.ShowSequence | src/components/games/MemoryGame.tsx:54-64 | playback ends in input with the showing flag cleared |
| Memory.Game.HandleColorClick | src/components/games/MemoryGame.tsx:66-94 | no-op unless input and not showing; the colour is appended and the sequence and showing flag are kept; a colour differing from sequence[len−1], or one past the end, means lost reporting the earlier levels' score; a correct incomplete input changes nothing else and stays a prefix; completion adds level·10, then level ≥ 10 means won reporting 550, else the level rises and the round scheduled reads the level just cleared |
| Memory.Game.ResetGame | src/components/games/MemoryGame.tsx:96-105 | both sequences empty, waiting, level 1, score 0, high score = max(high score, score) |
| Memory.Game.StartGame | src/components/games/MemoryGame.tsx:107-110 | a reset to level 1 and score 0, followed by a round as long as the level before the reset |
| Host.RenderGame | src/components/Games.tsx:72-85 | a game is rendered only for its own identifier, and nothing for a value that is none of the four identifiers |
| Host.RenderSelects | src/components/Games.tsx:21-54 | each of the four games is rendered for its identifier, and the identifiers are distinct |
| Host.Games.constructor | src/components/Games.tsx:14-19 | no open game; stats {0, 0, 'number-guess'} |
| Host.Games.HandleGameSelect | src/components/Games.tsx:56-58 | the open game becomes the given id; stats unchanged |
| Host.Games.HandleGameExit | src/components/Games.tsx:60-62 | no game open; stats unchanged |
| Host.Games.UpdateGameStats | src/components/Games.tsx:64-70 | gamesPlayed +1 exactly, totalScore + s exactly, favoriteGame unchanged |
| Konami.LastN | src/hooks/useEasterEggs.tsx:24 | slice(-n): the last min(|s|, n) entries of s, in order |
| Konami.Push | src/hooks/useEasterEggs.tsx:24 | the window after a key never exceeds 10 entries |
| Konami.MatchesFrom | src/hooks/useEasterEggs.tsx:28-29 | the element-wise comparison from position i on holds iff the tails are equal |
| Konami.Matches | src/hooks/useEasterEggs.tsx:28-29 | activation test holds iff the window is exactly the 10-key code |
| Konami.PushAllWindow | src/hooks/useEasterEggs.tsx:24 | after any run of keys the window is the last ten of everything typed |
| Konami.CodeActivates | src/hooks/useEasterEggs.tsx:24-30 | any key history whose last 10 entries are the code activates, regardless of earlier keys |
| Konami.Detector.constructor | src/hooks/useEasterEggs.tsx:4-5 | not activated, empty window |
| Konami.Detector.KeyPress | src/hooks/useEasterEggs.tsx:23-31 | the window becomes the last min(n+1, 10) codes; it fires iff the window equals the code, which sets the flag |
| Konami.Detector.ResetAfterEffect | src/hooks/useEasterEggs.tsx:40-44 | the flag is cleared and the window emptied |

## Left out

- Rendering is not modelled: JSX, ASCII art, cell and board renderers, button
  styling and the on-screen text of each hint. A hint is the `Hint`
  datatype, not its emoji string.
- Timers are replaced by the explicit transition methods listed above, and
  there is no wall clock. Cancelling timers when a component unmounts is not
  modelled.
- Randomness is not modelled as a distribution: the target, the colour draws
  and the food are caller-supplied values or arbitrary choices.
- `parseInt` is a JavaScript builtin; its result enters the model as
  `Option<int>`, with `None` for NaN. Clearing the text box after a guess
  is not modelled.
- Perfect play, the on-screen claim that the player cannot win with X moving
  first, is not proved. It needs exhaustive enumeration of the game tree,
  which is beyond what the verifier can do here. Only the one-move
  consequence `AiTakesImmediateWin` is proved.
- TicTacToe.ValueBounds: requires that the plies played plus the empty cells
  left do not exceed 10. Every call made from getBestMove meets this. For an
  arbitrary depth the claim "the value lies in [-10, 10]" is false: 10 -
  depth drops below -10 once depth exceeds 20.
- TicTacToe.Game.AiReply: the computer's move is searched on a scratch copy
  of the board (`ChooseMove`). The source searches the state array itself
  and restores it afterwards; `GetBestMove` proves that restoration.
- Snake.Game.MoveSnake: excludes only the playing tick whose head lands on
  the food while the snake already has 199 cells. The food loop has no
  fallback, so the source would loop forever there.
- Snake key names: `HandleKey` takes the key after `toLowerCase()`. Case
  folding is not modelled.
- Memory.Game.ShowSequence: requires the showing state. A playback that
  outlives a reset or restart is a stale timer, and that path is not
  modelled.
- Memory.Game.StartNewRound: requires a state other than won. No round is
  scheduled once level 10 is won, and a round started from `won` would break
  the score invariant.
- NumberGuess.Game.HandleGuess: requires the playing state, because the
  source puts that guard at its call sites (see `EnterKey`).
- Two React artefacts are not reproduced:
  - the memory game's keyboard handler captures a stale `playerSequence`;
  - Snake's `onScore` and `setGameState` are called inside a state updater
    that may run twice in development mode.
- The Escape key's exit callback is modelled only as the host's
  `HandleGameExit`.
- These easter-egg effects are not modelled:
  - console patching;
  - the matrix effect;
  - the random message;
  - the page-class toggling.
