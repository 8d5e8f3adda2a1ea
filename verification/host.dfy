/**
 * The games host: which game is open, and the counters fed by every
 * game's score report.
 */
module Host {
  import opened Wrappers

  datatype GameKind = NumberGuess | Snake | TicTacToe | Memory

  /** The identifier a game is selected by. */
  function GameId(k: GameKind): string {
    match k
    case NumberGuess => "number-guess"
    case Snake => "snake"
    case TicTacToe => "tic-tac-toe"
    case Memory => "memory"
  }

  /**
   * renderGame: the game shown for the selection; nothing when no game is
   * selected or the identifier is none of the four.
   */
  function RenderGame(active: Option<string>): (r: Option<GameKind>)
    ensures r.Some? ==> active == Some(GameId(r.value))
    ensures r.None? ==> forall k :: active != Some(GameId(k))
  {
    if active == Some("number-guess") then Some(NumberGuess)
    else if active == Some("snake") then Some(Snake)
    else if active == Some("tic-tac-toe") then Some(TicTacToe)
    else if active == Some("memory") then Some(Memory)
    else None
  }

  /** Selecting a game by its identifier renders that game; distinct games have distinct identifiers. */
  lemma RenderSelects(k: GameKind)
    ensures RenderGame(Some(GameId(k))) == Some(k)
    ensures forall k' :: k' != k ==> GameId(k') != GameId(k)
  {
  }

  datatype GameStats = GameStats(gamesPlayed: int, totalScore: int, favoriteGame: string)

  const InitialStats := GameStats(0, 0, "number-guess")

  /** The host component's state. */
  class Games {
    var activeGame: Option<string>
    var gameStats: GameStats

    constructor ()
      ensures activeGame == None && gameStats == InitialStats
    {
      activeGame := None;
      gameStats := InitialStats;
    }

    /** handleGameSelect: opens the game with identifier `gameId`. */
    method HandleGameSelect(gameId: string)
      modifies this
      ensures activeGame == Some(gameId) && gameStats == old(gameStats)
    {
      activeGame := Some(gameId);
    }

    /** handleGameExit: closes the open game. */
    method HandleGameExit()
      modifies this
      ensures activeGame == None && gameStats == old(gameStats)
    {
      activeGame := None;
    }

    /** updateGameStats, the onScore callback: one more game played, `score` more points, the favourite kept. */
    method UpdateGameStats(score: int)
      modifies this
      ensures gameStats.gamesPlayed == old(gameStats.gamesPlayed) + 1
      ensures gameStats.totalScore == old(gameStats.totalScore) + score
      ensures gameStats.favoriteGame == old(gameStats.favoriteGame)
      ensures activeGame == old(activeGame)
    {
      gameStats := gameStats.(gamesPlayed := gameStats.gamesPlayed + 1,
                              totalScore := gameStats.totalScore + score);
    }
  }
}
