/**
 * The number-guessing game: a hidden target in 1..100, seven attempts,
 * and a hint per guess that names a distance band and a direction.
 */
module NumberGuess {
  import opened Wrappers

  const MaxAttempts := 7
  const Low := 1
  const High := 100

  /** The distance bands of a wrong guess, nearest first. */
  datatype Band = VeryClose | Warm | Cold | WayOff

  /** A hint: the bullseye, or a band with the direction to go (`goHigher` when the guess was low). */
  datatype Hint = Bullseye | Clue(band: Band, goHigher: bool)

  /** One line of the guess history. */
  datatype Entry = Entry(value: int, hint: Hint)

  datatype Status = Playing | Won | Lost

  function Abs(n: int): nat {
    if n < 0 then -n else n
  }

  /**
   * getHint: the bullseye exactly on the target; otherwise the band of
   * the distance (up to 5, up to 15, up to 30, farther) and whether to
   * go higher, which is so exactly when the guess is below the target.
   */
  function GetHint(guess: int, target: int): (h: Hint)
    ensures h == Bullseye <==> guess == target
    ensures h.Clue? ==> (h.goHigher <==> guess < target)
    ensures h.Clue? ==> (h.band == VeryClose <==> Abs(guess - target) <= 5)
    ensures h.Clue? ==> (h.band == Warm <==> 5 < Abs(guess - target) <= 15)
    ensures h.Clue? ==> (h.band == Cold <==> 15 < Abs(guess - target) <= 30)
    ensures h.Clue? ==> (h.band == WayOff <==> 30 < Abs(guess - target))
  {
    var diff := Abs(guess - target);
    if guess == target then Bullseye
    else if diff <= 5 then Clue(VeryClose, guess < target)
    else if diff <= 15 then Clue(Warm, guess < target)
    else if diff <= 30 then Clue(Cold, guess < target)
    else Clue(WayOff, guess < target)
  }

  /** How far off a hint says the guess was: 0 for the bullseye up to 4 for way off. */
  function Coldness(h: Hint): nat {
    match h
    case Bullseye => 0
    case Clue(VeryClose, _) => 1
    case Clue(Warm, _) => 2
    case Clue(Cold, _) => 3
    case Clue(WayOff, _) => 4
  }

  /** The hint depends only on the distance and on which side of the target the guess lies. */
  lemma HintByDistanceAndSide(g1: int, t1: int, g2: int, t2: int)
    requires Abs(g1 - t1) == Abs(g2 - t2) && (g1 < t1 <==> g2 < t2)
    ensures GetHint(g1, t1) == GetHint(g2, t2)
  {
  }

  /** A guess farther from the target never gets a warmer hint. */
  lemma ColderWithDistance(g1: int, t1: int, g2: int, t2: int)
    requires Abs(g1 - t1) <= Abs(g2 - t2)
    ensures Coldness(GetHint(g1, t1)) <= Coldness(GetHint(g2, t2))
  {
  }

  /** The score for a win with `attemptsLeft` attempts remaining: 100 less 10 per attempt used, at least 10. */
  function WinScore(attemptsLeft: int): int {
    var s := 100 - (MaxAttempts - attemptsLeft) * 10;
    if s >= 10 then s else 10
  }

  /** A win on the k-th guess (1 <= k <= 7) scores 100 - 10(k - 1), between 40 and 100. */
  lemma WinScoreOnGuess(k: int)
    requires 1 <= k <= MaxAttempts
    ensures WinScore(MaxAttempts - (k - 1)) == 100 - 10 * (k - 1)
    ensures 40 <= WinScore(MaxAttempts - (k - 1)) <= 100
  {
  }

  /** The guessing component's state. */
  class Game {
    var target: int
    var guesses: seq<Entry>
    var state: Status
    var attemptsLeft: int

    /**
     * Every entry is an in-range guess with its hint. Each wrong guess
     * used one attempt and a win used none, so while playing the attempts
     * left are 7 minus the history length and none of the guesses hit;
     * a win ends the history with the target, a loss has seven misses.
     */
    ghost predicate Valid()
      reads this
    {
      && Low <= target <= High
      && 0 <= attemptsLeft <= MaxAttempts
      && (forall i :: 0 <= i < |guesses| ==>
            Low <= guesses[i].value <= High && guesses[i].hint == GetHint(guesses[i].value, target))
      && (state == Playing ==>
            attemptsLeft == MaxAttempts - |guesses| && attemptsLeft > 0
            && forall i :: 0 <= i < |guesses| ==> guesses[i].value != target)
      && (state == Won ==>
            1 <= |guesses| <= MaxAttempts && attemptsLeft == MaxAttempts - (|guesses| - 1)
            && guesses[|guesses| - 1].value == target
            && forall i :: 0 <= i < |guesses| - 1 ==> guesses[i].value != target)
      && (state == Lost ==>
            attemptsLeft == 0 && |guesses| == MaxAttempts
            && forall i :: 0 <= i < |guesses| ==> guesses[i].value != target)
    }

    /** Mounting the component starts a game; `newTarget` is the random draw. */
    constructor (newTarget: int)
      requires Low <= newTarget <= High
      ensures Valid()
      ensures target == newTarget && guesses == [] && state == Playing && attemptsLeft == MaxAttempts
    {
      target := newTarget;
      guesses := [];
      state := Playing;
      attemptsLeft := MaxAttempts;
    }

    /** startNewGame: a new target in 1..100, seven attempts, an empty history, play on. */
    method StartNewGame(newTarget: int)
      requires Low <= newTarget <= High
      modifies this
      ensures Valid()
      ensures target == newTarget && guesses == [] && state == Playing && attemptsLeft == MaxAttempts
    {
      target := newTarget;
      guesses := [];
      state := Playing;
      attemptsLeft := MaxAttempts;
    }

    /** What handleGuess accepts: a number in 1..100. */
    predicate IsGuess(input: Option<int>) {
      input.Some? && Low <= input.value <= High
    }

    /**
     * The state after guess `g` is taken from history `history0` with
     * `attempts0` attempts left, and the score reported.
     */
    ghost predicate GuessOutcome(history0: seq<Entry>, attempts0: int, g: int, report: Option<nat>)
      reads this
    {
      && guesses == history0 + [Entry(g, GetHint(g, target))]
      && (if g == target then
            && state == Won && attemptsLeft == attempts0
            && report == Some(WinScore(attempts0))
            && report == Some(100 - 10 * (|guesses| - 1))
            && 40 <= report.value <= 100
          else
            && attemptsLeft == attempts0 - 1
            && (if attemptsLeft == 0 then state == Lost && report == Some(0)
                else state == Playing && report == None))
    }

    /**
     * handleGuess, called only while playing. Input that is not a number
     * in 1..100 changes nothing. Otherwise the guess and its hint are
     * appended; a hit wins without using an attempt and reports the win
     * score; a miss uses one attempt, and the last one loses with score 0.
     */
    method HandleGuess(input: Option<int>) returns (report: Option<nat>)
      requires Valid() && state == Playing
      modifies this
      ensures Valid()
      ensures target == old(target)
      ensures !IsGuess(input) ==> unchanged(this) && report == None
      ensures IsGuess(input) ==> GuessOutcome(old(guesses), old(attemptsLeft), input.value, report)
    {
      report := None;
      if input.None? || input.value < Low || input.value > High {
        return;
      }
      var guessValue := input.value;
      var hint := GetHint(guessValue, target);
      guesses := guesses + [Entry(guessValue, hint)];
      if guessValue == target {
        state := Won;
        var score := WinScore(attemptsLeft);
        WinScoreOnGuess(|guesses|);
        report := Some(score);
      } else {
        var newAttemptsLeft := attemptsLeft - 1;
        attemptsLeft := newAttemptsLeft;
        if newAttemptsLeft == 0 {
          state := Lost;
          report := Some(0);
        }
      }
    }

    /** The Enter key: submits the guess only while playing; after the game ends it does nothing. */
    method EnterKey(input: Option<int>) returns (report: Option<nat>)
      requires Valid()
      modifies this
      ensures Valid()
      ensures target == old(target)
      ensures old(state) != Playing || !IsGuess(input) ==> unchanged(this) && report == None
      ensures old(state) == Playing && IsGuess(input) ==>
                GuessOutcome(old(guesses), old(attemptsLeft), input.value, report)
    {
      report := None;
      if state == Playing {
        report := HandleGuess(input);
      }
    }
  }
}
